/** The scheduler as an object: each method is one critical section, or the uninterleaved statements of one caller,
    and is proved to be the corresponding events of the transition system, whose run theorems therefore hold of it. */
module Scheduler {
  import opened Prelude
  import opened Jobs
  import opened SchedulerModel

  // ---------------------------------------------------------- cancellation, unfolded

  /** The three events of Scheduler.Cancel when nothing interleaves. */
  ghost predicate CancelSteps(s: Sys, id: JobId, fault: Fault, s': Sys, reply: Reply) {
    if id !in s.db then s' == s && reply.NotFound?
    else if Terminal(s.db[id].state) then s' == s && reply.WrongState?
    else
      var read := s.(cancelling := Some(Reading(id, s.db[id].state)));
      var (t, answer) := Transition(s.db, id, s.db[id].state, State.Cancelled, None, None, fault);
      && reply == answer && CancelReadStep(s, id, read)
      && exists written :: CancelWriteStep(read, fault, written) && CancelEnds(written, reply, s')
  }

  ghost predicate CancelEnds(written: Sys, reply: Reply, s': Sys) {
    if reply.Done? then CancelFinishStep(written, s') else s' == written
  }

  // -------------------------------------------------------- the retry loop, unfolded

  /** Attempts, each one an event of the model, until the worker is idle again. */
  ghost predicate Settles(s: Sys, w: WorkerId, faults: seq<Fault>, s': Sys)
    decreases |faults|
  {
    if !(w in s.ws && s.ws[w].Settling?) then s' == s
    else faults != [] && exists mid :: PersistStep(s, w, faults[0], mid) && Settles(mid, w, faults[1..], s')
  }

  class Scheduler {
    var db: Table
    var capacity: int
    var limit: int
    var started: bool
    var stopped: bool
    var workers: int
    var running: map<JobId, WorkerId>
    var ws: map<WorkerId, Phase>               // the worker goroutines
    var nextWorker: nat
    ghost var h: History

    ghost function View(): Sys
      reads this
    {
      Sys(db, capacity, limit, true, started, stopped, workers, ws, running, None, h)
    }

    ghost predicate Valid()
      reads this
    {
      forall w <- ws :: w < nextWorker
    }

    /** A process that has just recovered the table of an earlier one. */
    constructor (db: Table, capacity: int, limit: int, ghost h: History)
      requires ValidLimits(capacity, limit)
      ensures Valid() && View() == Sys(db, capacity, limit, true, false, false, 0, map[], map[], None, h)
    {
      this.db, this.capacity, this.limit, this.h := db, capacity, limit, h;
      started, stopped, workers, running, ws, nextWorker := false, false, 0, map[], map[], 0;
    }

    // -------------------------------------------------------------- admission

    method CountActive() returns (n: nat)
      ensures n == |ActiveIds(db)|
    {
      var todo := db.Keys;
      n := 0;
      ghost var counted: set<JobId> := {};
      while todo != {}
        invariant todo <= db.Keys && n == |counted|
        invariant counted == set id | id in db && id !in todo && Active(db[id].state)
        decreases |todo|
      {
        var id :| id in todo;
        if Active(db[id].state) {
          n := n + 1;
          counted := counted + {id};
        }
        todo := todo - {id};
      }
      assert counted == ActiveIds(db);
    }

    /** The insert loop inside one transaction; the first refusal rolls everything back. */
    method Insert(jobs: seq<Job>, stamp: nat) returns (r: Option<Table>)
      ensures r == InsertAll(db, jobs, stamp)
    {
      var t := db;
      assert jobs[0..] == jobs;
      for i := 0 to |jobs|
        invariant InsertAll(db, jobs, stamp) == InsertAll(t, jobs[i..], stamp)
      {
        assert jobs[i..][0] == jobs[i] && jobs[i..][1..] == jobs[i + 1..];
        if !ValidNew(jobs[i]) || InsertConflicts(t, jobs[i]) {
          return None;
        }
        t := Inserted(t, jobs[i], stamp);
      }
      r := Some(t);
    }

    method Submit(jobs: seq<Job>, stamp: nat) returns (r: Admission)
      requires Valid()
      modifies this`db
      ensures Valid() && SubmitStep(old(View()), jobs, stamp, View())
      ensures r == SubmitOutcome(old(View()), jobs, stamp)
    {
      if stopped {
        return Stopped;
      }
      if |jobs| == 0 {
        return Empty;
      }
      if |jobs| > capacity {
        return QueueFull;
      }
      var queued := CountActive();
      if queued + |jobs| > capacity {
        return QueueFull;
      }
      var t := Insert(jobs, stamp);
      if t.None? {
        return Rejected;
      }
      db := t.value;
      r := Admitted(db);
    }

    method SubmitProposal(proposal: string, credential: string, jobs: seq<Job>, stamp: nat) returns (r: ProposalAdmission)
      requires Valid()
      modifies this`db
      ensures Valid() && ProposalStep(old(View()), proposal, credential, jobs, stamp, View())
      ensures r == ProposalOutcome(old(View()), proposal, credential, jobs, stamp)
    {
      if stopped {
        return Fresh(Stopped);
      }
      if proposal == "" || credential == "" || |jobs| == 0 {
        return Fresh(Empty);
      }
      var existing := set id | id in db && db[id].proposal == proposal;
      assert existing == ProposalIds(db, proposal);
      if existing != {} {
        return Bound(existing);
      }
      var queued := CountActive();
      if queued + |jobs| > capacity {
        return Fresh(QueueFull);
      }
      for i := 0 to |jobs|
        invariant forall k :: 0 <= k < i ==> ProposalJob(jobs[k], proposal, credential)
      {
        if !ProposalJob(jobs[i], proposal, credential) {
          return Fresh(Rejected);
        }
      }
      var t := Insert(jobs, stamp);
      if t.None? {
        return Fresh(Rejected);
      }
      db := t.value;
      r := Fresh(Admitted(db));
    }

    // --------------------------------------------------------- limits and workers

    method StartWorkers() returns (ghost spawn: set<WorkerId>)
      requires Valid()
      modifies this`workers, this`ws, this`nextWorker
      ensures Valid() && Spawns(old(View()), limit, spawn)
      ensures ws == Spawned(old(ws), spawn) && workers == old(workers) + |spawn| && workers >= limit
    {
      hide Spawned, Spawning;
      spawn := {};
      SpawnNone(ws, nextWorker);
      while workers < limit
        invariant Spawning(old(ws), ws, nextWorker, spawn)
        invariant workers == old(workers) + |spawn|
        invariant workers <= limit || spawn == {}
        decreases limit - workers
      {
        workers := workers + 1;
        SpawnOne(old(ws), ws, nextWorker, spawn);
        ws := ws[nextWorker := Idle];
        spawn := spawn + {nextWorker};
        nextWorker := nextWorker + 1;
      }
      SpawnEnd(old(ws), ws, nextWorker, spawn);
    }

    method Start() returns (ghost spawn: set<WorkerId>)
      requires Valid()
      modifies this`started, this`workers, this`ws, this`nextWorker
      ensures Valid()
      ensures if old(started) || stopped then View() == old(View()) else StartStep(old(View()), spawn, View())
    {
      spawn := {};
      if started || stopped {
        return;
      }
      started := true;
      spawn := StartWorkers();
    }

    method SetLimits(c: int, l: int) returns (ok: bool, ghost spawn: set<WorkerId>)
      requires Valid()
      modifies this`capacity, this`limit, this`workers, this`ws, this`nextWorker
      ensures Valid() && (ok <==> ValidLimits(c, l) && !stopped)
      ensures if ok then SetLimitsStep(old(View()), c, l, spawn, View()) else View() == old(View())
    {
      spawn := {};
      if !ValidLimits(c, l) || stopped {
        return false, {};
      }
      capacity, limit := c, l;
      if started {
        spawn := StartWorkers();
      } else {
        assert Spawned(ws, {}) == ws;
      }
      ok := true;
    }

    /** Every registered job is told to stop; a second call changes nothing. */
    method Shutdown()
      requires Valid()
      modifies this`stopped, this`ws
      ensures Valid() && ShutdownStep(old(View()), View())
    {
      if stopped {
        return;
      }
      stopped := true;
      ghost var before := ws;
      var todo := running.Keys;
      while todo != {}
        invariant stopped && todo <= running.Keys && ws.Keys == before.Keys
        invariant forall w <- ws :: ws[w] == if Told(before[w], w, todo) then Interrupt(before[w], ByShutdown) else before[w]
        decreases |todo|
      {
        var id :| id in todo;
        var w := running[id];
        ghost var prior := ws;
        if w in ws && HasContext(ws[w]) && ws[w].id == id {
          ws := ws[w := Interrupt(ws[w], ByShutdown)];
        }
        todo := todo - {id};
      }
      assert ws == Interrupted(before, running, ByShutdown);
    }

    /** Worker w's context is registered under a job that is no longer in todo. */
    ghost predicate Told(p: Phase, w: WorkerId, todo: set<JobId>)
      reads this`running
    {
      HasContext(p) && p.id in running && running[p.id] == w && p.id !in todo
    }

    // ------------------------------------------------------------- cancellation

    /** JobsStore.Cancel under the lifecycle lock, then the context of the registered worker. */
    method Cancel(id: JobId, fault: Fault) returns (reply: Reply)
      requires Valid()
      modifies this`db, this`ws, this`h
      ensures Valid() && CancelSteps(old(View()), id, fault, View(), reply)
      ensures id !in old(db) ==> reply.NotFound? && db == old(db)
      ensures id in old(db) && Terminal(old(db)[id].state) ==> reply.WrongState? && db == old(db)
      ensures id in old(db) && Active(old(db)[id].state) ==>
                (db, reply) == Transition(old(db), id, old(db)[id].state, State.Cancelled, None, None, fault)
    {
      if id !in db {
        return NotFound;
      }
      if Terminal(db[id].state) {
        return WrongState;
      }
      ghost var s := View();
      ghost var read := s.(cancelling := Some(Reading(id, db[id].state)));
      var (t, answer) := Transition(db, id, db[id].state, State.Cancelled, None, None, fault);
      reply := answer;
      ghost var written := read.(db := t, cancelling := if reply.Done? then Some(Written(id)) else None,
                                 h := if t != db && !reply.Done? then h.(silent := h.silent + {id}) else h);
      assert CancelReadStep(s, id, read) && CancelWriteStep(read, fault, written);
      h := written.h;
      db := t;
      if reply.Done? {
        ws := Notified(ws, running, id);
        h := h.(notified := h.notified + {id});
      }
      assert CancelEnds(written, reply, View());
    }

    /** Success means that every job of the batch that was active is now cancelled; whatever happens, no other
        row is touched. */
    method CancelBatch(batch: string, faults: JobId -> Fault) returns (r: BatchReply)
      requires Valid()
      modifies this`db, this`ws, this`h
      ensures Valid() && db.Keys == old(db).Keys
      ensures forall id <- db :: db[id] == old(db)[id] || (id in ToCancel(old(db), batch) && db[id] == Write(old(db)[id], State.Cancelled, None, None))
      ensures r.BatchCancelled? ==> forall id <- ToCancel(old(db), batch) :: db[id].state == State.Cancelled
      ensures r.BatchMissing? <==> BatchIds(old(db), batch) == {}
    {
      hide CancelSteps, Transition, Write, ToCancel, PartCancelled, BatchIds;
      PartNone(db);
      BatchMembers(db, batch);
      var ids := ToCancel(db, batch);
      if ids == {} {
        var members := set id | id in db && db[id].batch == batch;
        return if members == {} then BatchMissing else BatchCancelled;
      }
      ghost var done: set<JobId> := {};
      var todo := ids;
      while todo != {}
        invariant todo == ids - done && done <= ids && PartCancelled(old(db), db, done) && Valid()
        decreases |todo|
      {
        var id :| id in todo;
        CancelledOne(old(db), db, done, id, faults(id));
        var reply := Cancel(id, faults(id));
        todo := todo - {id};
        if !reply.Done? && !reply.WrongState? {
          PartMeans(old(db), db, if PartCancelled(old(db), db, done) then done else done + {id}, ids);
          return BatchFailed;
        }
        done := done + {id};
      }
      AllCancelled(old(db), db, done);
      PartMeans(old(db), db, done, ids);
      r := BatchCancelled;
    }

    // ------------------------------------------------------------- the worker loop

    /** The claim query: the queued row least in (created_at, id). */
    method NextQueued() returns (next: Option<JobId>)
      ensures next.None? <==> forall id <- db :: db[id].state != Queued
      ensures next.Some? ==> IsNextQueued(db, next.value)
      ensures next.Some? ==> next.value in db && db[next.value].state == Queued && forall o <- db :: db[o].state == Queued ==>
                db[next.value].created < db[o].created || (db[next.value].created == db[o].created && (next.value == o || Less(next.value, o)))
    {
      next := None;
      var todo := db.Keys;
      while todo != {}
        invariant todo <= db.Keys
        invariant next.None? ==> forall id <- db :: id !in todo ==> db[id].state != Queued
        invariant next.Some? ==> next.value in db && db[next.value].state == Queued
        invariant next.Some? ==> forall id <- db :: id !in todo && db[id].state == Queued ==> NotAfter(db, next.value, id)
        decreases |todo|
      {
        var id :| id in todo;
        if db[id].state == Queued {
          if next.None? {
            next := Some(id);
          } else {
            LessTotal(id, next.value);
            if db[id].created < db[next.value].created || (db[id].created == db[next.value].created && Less(id, next.value)) {
              forall o | o in db && NotAfter(db, next.value, o) ensures NotAfter(db, id, o) {
                NotAfterTransitive(db, id, next.value, o);
              }
              next := Some(id);
            }
          }
        }
        todo := todo - {id};
      }
    }

    /** The top of the loop: retire, claim, or find nothing to do.  A claim whose commit fails afterwards is not reported. */
    method WorkerTop(w: WorkerId, fault: Fault) returns (r: TopReply)
      requires Valid() && w in ws && ws[w].Idle?
      modifies this`db, this`ws, this`workers
      ensures Valid()
      ensures r.Retired? <==> stopped || old(workers) > limit
      ensures match r
        case Retired => RetireStep(old(View()), w, View())
        case ClaimedJob(id) => fault == NoFault && ClaimStep(old(View()), w, id, true, View())
        case NothingClaimed => View() == old(View()) && (fault == BeforeCommit || forall id <- db :: db[id].state != Queued)
        case ClaimLost(id) => fault == AfterCommit && ClaimStep(old(View()), w, id, false, View())
    {
      if stopped || workers > limit {
        workers := workers - 1;
        ws := ws - {w};
        return Retired;
      }
      if fault == BeforeCommit {
        return NothingClaimed;
      }
      var next := NextQueued();
      if next.None? {
        return NothingClaimed;
      }
      db := Started(db, next.value);
      if fault == AfterCommit {
        return ClaimLost(next.value);
      }
      ws := ws[w := Claimed(next.value)];
      r := ClaimedJob(next.value);
    }

    method Register(w: WorkerId)
      requires Valid() && w in ws && ws[w].Claimed?
      modifies this`ws, this`running
      ensures Valid() && RegisterStep(old(View()), w, View())
    {
      var id := ws[w].id;
      ws := ws[w := Registered(id, if stopped then Some(ByShutdown) else None)];
      running := running[id := w];
    }

    method Deregister(w: WorkerId)
      requires Valid() && w in ws && ws[w].Returned?
      modifies this`ws, this`running
      ensures Valid() && DeregisterStep(old(View()), w, View())
    {
      var p := ws[w];
      ws := ws[w := Deregistered(p.id, TerminalTarget(p.err, p.cause))];
      running := running - {p.id};
    }

    /** readTerminalState: up to three reads. */
    method ReadTerminalState(id: JobId, answers: seq<bool>) returns (found: bool)
      requires |answers| == TERMINAL_ATTEMPTS
      ensures found <==> id in db && true in answers
    {
      for attempt := 0 to TERMINAL_ATTEMPTS
        invariant true !in answers[..attempt]
      {
        assert answers[..attempt + 1] == answers[..attempt] + [answers[attempt]];
        if answers[attempt] {
          return id in db;
        }
      }
      assert answers[..TERMINAL_ATTEMPTS] == answers;
      found := false;
    }

    /** finalize without interleaving: one successful read of a running row, then up to three attempts to persist the
        target; only an unclassified failure is retried.  The target is stored, with its result and its code, exactly when
        a read succeeds, the row is still running and one of the attempts gets as far as its commit. */
    method Finalize(w: WorkerId, answers: seq<bool>, faults: seq<Fault>)
      requires Valid() && w in ws && ws[w].Deregistered? && |answers| == |faults| == TERMINAL_ATTEMPTS
      modifies this`db, this`ws
      ensures Valid() && ws == old(ws)[w := Idle]
      ensures exists read :: ReadStateStep(old(View()), w, true in answers, read) && Settles(read, w, faults, View())
      ensures var id, target := old(ws)[w].id, old(ws)[w].target;
        if true in answers && id in old(db) && old(db)[id].state == Running && exists k :: 0 <= k < |faults| && faults[k] != BeforeCommit
        then db == old(db)[id := old(db)[id].(state := target.state, result := target.result, error := target.code)]
        else db == old(db)
    {
      hide Settles;
      var p := ws[w];
      var found := ReadTerminalState(p.id, answers);
      if !found || db[p.id].state != Running {
        ws := ws[w := Idle];
        assert ReadStateStep(old(View()), w, true in answers, View());
        AlreadyIdle(View(), w, faults);
        return;
      }
      ws := ws[w := Settling(p.id, p.target, 0)];
      assert ReadStateStep(old(View()), w, true in answers, View());
      PersistTerminal(w, faults);
    }

    /** persistTerminal: up to three attempts, ended by the first that is not an unclassified failure. */
    method PersistTerminal(w: WorkerId, faults: seq<Fault>)
      requires Valid() && w in ws && ws[w].Settling? && ws[w].tries == 0 && |faults| == TERMINAL_ATTEMPTS
      requires ws[w].id in db && db[ws[w].id].state == Running
      modifies this`db, this`ws
      ensures Valid() && ws == old(ws)[w := Idle] && Settles(old(View()), w, faults, View())
      ensures var id, target := old(ws)[w].id, old(ws)[w].target;
        db == if exists k :: 0 <= k < |faults| && faults[k] != BeforeCommit
              then old(db)[id := old(db)[id].(state := target.state, result := target.result, error := target.code)]
              else old(db)
    {
      hide Transition, Stored;
      var id, target := ws[w].id, ws[w].target;
      StoredMeans(db, id, target);
      ghost var start := View();
      assert faults[0..] == faults && ws == ws[w := ws[w]];
      ghost var tried := 0;
      while ws[w].Settling?
        invariant Valid() && w in ws && ws == old(ws)[w := ws[w]]
        invariant tried <= TERMINAL_ATTEMPTS && (ws[w].Idle? || ws[w] == Settling(id, target, tried))
        invariant ws[w].Settling? ==> tried < TERMINAL_ATTEMPTS
        invariant db == if (exists k :: 0 <= k < tried && faults[k] != BeforeCommit) then Stored(old(db), id, target) else old(db)
        invariant ws[w].Idle? && tried < TERMINAL_ATTEMPTS ==> exists k :: 0 <= k < tried && faults[k] != BeforeCommit
        invariant forall end :: Settles(View(), w, faults[tried..], end) ==> Settles(start, w, faults, end)
        decreases if ws[w].Settling? then TERMINAL_ATTEMPTS - ws[w].tries else 0
      {
        var q := ws[w];
        ghost var before := View();
        var (t, reply) := Transition(db, q.id, Running, q.target.state, q.target.result, q.target.code, faults[q.tries]);
        AttemptStores(old(db), db, id, target, faults[tried]);
        db := t;
        ws := ws[w := AfterTry(q, reply)];
        assert PersistStep(before, w, faults[tried], View());
        assert faults[tried..][1..] == faults[tried + 1..] && faults[tried..][0] == faults[tried];
        tried := tried + 1;
      }
    }
  }

  function Stored(t: Table, id: JobId, target: Target): Table
    requires id in t
  {
    t[id := t[id].(state := target.state, result := target.result, error := target.code)]
  }

  lemma AlreadyIdle(s: Sys, w: WorkerId, faults: seq<Fault>)
    requires w in s.ws && s.ws[w].Idle?
    ensures Settles(s, w, faults, s)
  {}

  lemma StoredMeans(t: Table, id: JobId, target: Target)
    ensures id in t ==> Stored(t, id, target) == t[id := t[id].(state := target.state, result := target.result, error := target.code)]
  {}

  /** One attempt: before the first commit it stores the target unless it fails early, afterwards it changes nothing. */
  lemma AttemptStores(before: Table, t: Table, id: JobId, target: Target, fault: Fault)
    requires id in before && before[id].state == Running && (t == before || t == Stored(before, id, target))
    ensures var (t', reply) := Transition(t, id, Running, target.state, target.result, target.code, fault);
      && t' == (if fault != BeforeCommit then Stored(before, id, target) else t)
      && (fault == BeforeCommit ==> reply.Unavailable?)
  {}

  /** spawn are the fresh workers added so far; all worker numbers are below next. */
  ghost predicate Spawning(before: map<WorkerId, Phase>, ws: map<WorkerId, Phase>, next: nat, spawn: set<WorkerId>) {
    && ws == Spawned(before, spawn) && spawn !! before.Keys
    && (forall w <- before :: w < next) && (forall w <- spawn :: w < next)
  }

  lemma SpawnNone(ws: map<WorkerId, Phase>, next: nat)
    requires forall w <- ws :: w < next
    ensures Spawning(ws, ws, next, {})
  {}

  lemma SpawnOne(before: map<WorkerId, Phase>, ws: map<WorkerId, Phase>, next: nat, spawn: set<WorkerId>)
    requires Spawning(before, ws, next, spawn)
    ensures next !in spawn && Spawning(before, ws[next := Idle], next + 1, spawn + {next})
  {
    SpawnedGrows(before, next, spawn);
    hide Spawned;
  }

  lemma SpawnedGrows(before: map<WorkerId, Phase>, next: WorkerId, spawn: set<WorkerId>)
    requires next !in before
    ensures Spawned(before, spawn + {next}) == Spawned(before, spawn)[next := Idle]
  {
    var a, b := Spawned(before, spawn + {next}), Spawned(before, spawn)[next := Idle];
    assert a.Keys == before.Keys + (spawn + {next});
    assert b.Keys == before.Keys + spawn + {next};
    assert a.Keys == b.Keys;
    forall w | w in a ensures a[w] == b[w] {}
  }

  lemma SpawnEnd(before: map<WorkerId, Phase>, ws: map<WorkerId, Phase>, next: nat, spawn: set<WorkerId>)
    requires Spawning(before, ws, next, spawn)
    ensures ws == Spawned(before, spawn) && spawn !! before.Keys && forall w <- ws :: w < next
  {}

  lemma BatchMembers(t: Table, batch: string)
    ensures BatchIds(t, batch) == set id | id in t && t[id].batch == batch
    ensures ToCancel(t, batch) <= BatchIds(t, batch)
    ensures forall id <- ToCancel(t, batch) :: id in t && Active(t[id].state)
  {}

  lemma AllCancelled(before: Table, after: Table, done: set<JobId>)
    requires PartCancelled(before, after, done) && done <= before.Keys
    ensures forall id <- done :: after[id].state == State.Cancelled
  {}

  /** The rows of done are cancelled, all others as they were. */
  ghost predicate PartCancelled(before: Table, after: Table, done: set<JobId>) {
    && after.Keys == before.Keys
    && forall id <- after :: after[id] == if id in done then Write(before[id], State.Cancelled, None, None) else before[id]
  }

  lemma PartNone(t: Table)
    ensures PartCancelled(t, t, {})
  {}

  lemma PartMeans(before: Table, after: Table, done: set<JobId>, ids: set<JobId>)
    requires PartCancelled(before, after, done) && done <= ids
    ensures after.Keys == before.Keys
    ensures forall id <- after :: after[id] == before[id] || (id in ids && after[id] == Write(before[id], State.Cancelled, None, None))
  {}

  lemma CancelledOne(before: Table, after: Table, done: set<JobId>, id: JobId, fault: Fault)
    requires PartCancelled(before, after, done) && id in before && Active(before[id].state) && id !in done
    ensures id in after && after[id].state == before[id].state
    ensures var (t, reply) := Transition(after, id, after[id].state, State.Cancelled, None, None, fault);
      && (fault == BeforeCommit ==> reply.Unavailable? && PartCancelled(before, t, done))
      && (fault != BeforeCommit ==> (reply.Done? || reply.Unavailable?) && PartCancelled(before, t, done + {id}))
      && (reply.Done? ==> fault == NoFault)
  {}

  datatype BatchReply = BatchCancelled | BatchMissing | BatchFailed

  datatype TopReply = Retired | ClaimedJob(id: JobId) | NothingClaimed | ClaimLost(id: JobId)

  predicate NotAfter(t: Table, a: JobId, b: JobId)
    requires a in t && b in t
  {
    t[a].created < t[b].created || (t[a].created == t[b].created && LessEq(a, b))
  }

  lemma NotAfterTransitive(t: Table, a: JobId, b: JobId, c: JobId)
    requires a in t && b in t && c in t && NotAfter(t, a, b) && NotAfter(t, b, c)
    ensures NotAfter(t, a, c)
  {
    if Less(a, b) && Less(b, c) {
      LessTransitive(a, b, c);
    }
  }
}
