/** Invariants of the scheduler system, part by part, and the proof that every event preserves them. */
module SchedulerInvariants {
  import opened Prelude
  import opened Jobs
  import opened SchedulerModel

  type Workers = map<WorkerId, Phase>

  ghost predicate InvTable(t: Table) {
    Keyed(t) && ProposalItemsUnique(t)
  }

  /** No two workers hold the same job. */
  ghost predicate Distinct(ws: Workers) {
    forall w, v {:trigger SameJob(ws[w], ws[v])} :: w in ws && v in ws && SameJob(ws[w], ws[v]) ==> w == v
  }

  predicate SameJob(p: Phase, q: Phase) {
    HasJob(p) && HasJob(q) && p.id == q.id
  }

  /** The running map is exactly the set of live job contexts. */
  ghost predicate InvRunning(ws: Workers, running: map<JobId, WorkerId>) {
    && (forall w <- ws :: HasContext(ws[w]) ==> ws[w].id in running && running[ws[w].id] == w)
    && (forall id <- running :: running[id] in ws && HasContext(ws[running[id]]) && ws[running[id]].id == id)
  }

  /** No job is entered twice, and none is entered that could still be claimed. */
  ghost predicate InvEntries(t: Table, entered: multiset<JobId>) {
    && (forall id :: entered[id] <= 1)
    && (forall id :: id in entered ==> id in t && t[id].state != Queued)
  }

  ghost predicate InvCount(s: Sys) {
    && (s.up ==> ValidLimits(s.capacity, s.limit))
    && (s.up && !s.stopped ==> s.workers == |s.ws.Keys|)
    && (s.started && !s.stopped ==> s.workers >= s.limit)
    && (!s.started ==> s.ws == map[] && s.workers == 0)
    && (!s.up ==> !s.started && !s.stopped && s.cancelling.None?)
  }

  ghost predicate InvNotified(t: Table, notified: set<JobId>) {
    forall id <- notified :: id in t && t[id].state == State.Cancelled
  }

  ghost predicate InvCanceller(t: Table, c: Option<Canceller>) {
    c.Some? ==>
      && c.value.id in t
      && (c.value.Written? ==> t[c.value.id].state == State.Cancelled)
      && (c.value.Reading? ==>
            && Active(c.value.seen)
            && (t[c.value.id].state == c.value.seen || Terminal(t[c.value.id].state)))
  }

  ghost predicate Carries(h: History, id: JobId, r: Option<string>) {
    r.Some? && ((id in h.produced && r.value == h.produced[id]) || (id in h.rebuilt && r.value == h.rebuilt[id]))
  }

  ghost predicate Settled(t: Table, id: JobId) {
    id in t && Terminal(t[id].state)
  }

  ghost predicate InvRows(t: Table, h: History) {
    && (forall id <- t :: t[id].state == Succeeded ==> Carries(h, id, t[id].result))
    && (forall id <- h.produced :: id in h.entered)
    && (forall id <- h.rebuilt :: Settled(t, id))
  }

  // ------------------------------------------------------- what one phase knows

  ghost predicate GoodTarget(t: Table, h: History, id: JobId, g: Target) {
    && Terminal(g.state)
    && (g.state == Succeeded ==> Carries(h, id, g.result) || Settled(t, id))
    && (g.state == State.Cancelled ==> Settled(t, id))
  }

  /** The result a phase carries is the one the runner produced; a clean return means the row is settled. */
  ghost predicate GoodResult(t: Table, h: History, p: Phase) {
    match p
    case InRunner(id, _, produced, acked) =>
      if produced.Some? then id in h.produced && h.produced[id] == produced.value && (acked ==> Settled(t, id))
      else id !in h.produced && !acked
    case Returned(id, _, err) =>
      && (err.Clean? ==> Settled(t, id))
      && (err.ResultLost? ==> id in h.produced && h.produced[id] == err.result)
    case Deregistered(id, g) => GoodTarget(t, h, id, g)
    case Settling(id, g, _) => GoodTarget(t, h, id, g)
    case _ => true
  }

  /** On an uncancelled context there is no acknowledged cancellation of the job, and an unacknowledged
      one was silent or is about to reach the context. */
  ghost predicate Informed(t: Table, c: Option<Canceller>, h: History, p: Phase) {
    Unstopped(p) ==>
      && p.id !in h.notified
      && (p.id in t && t[p.id].state == State.Cancelled ==> p.id in h.silent || c == Some(Written(p.id)))
  }

  /** After shutdown every live context is cancelled; only a settled job is cancelled by a user. */
  ghost predicate GoodCause(t: Table, stopped: bool, p: Phase) {
    HasContext(p) ==> (stopped ==> p.cause.Some?) && (p.cause == Some(ByUser) ==> Settled(t, p.id))
  }

  ghost predicate Counted(t: Table, h: History, p: Phase) {
    HasJob(p) ==>
      && p.id in t && t[p.id].state != Queued
      && (BeforeEntry(p) ==> p.id !in h.entered)
      && (p.InRunner? ==> p.id in h.entered)
  }

  ghost predicate PhaseOk(t: Table, c: Option<Canceller>, h: History, stopped: bool, p: Phase) {
    Counted(t, h, p) && GoodResult(t, h, p) && Informed(t, c, h, p) && GoodCause(t, stopped, p)
  }

  ghost predicate InvPhases(t: Table, c: Option<Canceller>, h: History, stopped: bool, ws: Workers) {
    forall w <- ws :: PhaseOk(t, c, h, stopped, ws[w])
  }

  ghost predicate Inv(s: Sys) {
    && InvTable(s.db) && Distinct(s.ws) && InvRunning(s.ws, s.running) && InvEntries(s.db, s.h.entered)
    && InvCount(s) && InvNotified(s.db, s.h.notified) && InvCanceller(s.db, s.cancelling)
    && InvRows(s.db, s.h) && InvPhases(s.db, s.cancelling, s.h, s.stopped, s.ws)
  }

  lemma InitInv(s: Sys)
    requires Init(s)
    ensures Inv(s)
  {}

  // ------------------------------------------------ how one part of the state frames another

  /** Nothing a phase knows about job id changed. */
  ghost predicate Frame(t: Table, t': Table, c: Option<Canceller>, c': Option<Canceller>, h: History, h': History, id: JobId) {
    && (id in t ==> id in t' && t'[id] == t[id])
    && (c == Some(Written(id)) ==> c' == c)
    && (id in h'.produced <==> id in h.produced) && (id in h.produced ==> h'.produced[id] == h.produced[id])
    && (id in h.rebuilt ==> id in h'.rebuilt && h'.rebuilt[id] == h.rebuilt[id])
    && (id in h'.entered <==> id in h.entered)
    && (id in h'.notified <==> id in h.notified) && (id in h.silent ==> id in h'.silent)
  }

  lemma PhaseKeeps(t: Table, t': Table, c: Option<Canceller>, c': Option<Canceller>, h: History, h': History, stopped: bool, p: Phase)
    requires PhaseOk(t, c, h, stopped, p) && (HasJob(p) ==> Frame(t, t', c, c', h, h', p.id))
    ensures PhaseOk(t', c', h', stopped, p)
  {}

  /** Worker w moves to q; every other phase keeps what it knows. */
  lemma PhasesMove(t: Table, t': Table, c: Option<Canceller>, c': Option<Canceller>, h: History, h': History, stopped: bool,
                   ws: Workers, w: WorkerId, q: Phase)
    requires InvPhases(t, c, h, stopped, ws) && PhaseOk(t', c', h', stopped, q)
    requires forall v <- ws :: v != w && HasJob(ws[v]) ==> Frame(t, t', c, c', h, h', ws[v].id)
    ensures InvPhases(t', c', h', stopped, ws[w := q])
  {
    var ws' := ws[w := q];
    forall v | v in ws' ensures PhaseOk(t', c', h', stopped, ws'[v]) {
      if v != w { PhaseKeeps(t, t', c, c', h, h', stopped, ws[v]); }
    }
  }

  lemma PhasesKeep(t: Table, t': Table, c: Option<Canceller>, c': Option<Canceller>, h: History, h': History, stopped: bool, ws: Workers)
    requires InvPhases(t, c, h, stopped, ws)
    requires forall v <- ws :: HasJob(ws[v]) ==> Frame(t, t', c, c', h, h', ws[v].id)
    ensures InvPhases(t', c', h', stopped, ws)
  {
    forall v | v in ws ensures PhaseOk(t', c', h', stopped, ws[v]) {
      PhaseKeeps(t, t', c, c', h, h', stopped, ws[v]);
    }
  }

  /** The workers of ws' hold jobs they already held in ws. */
  ghost predicate HoldsSame(ws: Workers, ws': Workers) {
    forall w <- ws' :: HasJob(ws'[w]) ==> w in ws && HasJob(ws[w]) && ws'[w].id == ws[w].id
  }

  lemma KeepDistinct(ws: Workers, ws': Workers)
    requires Distinct(ws) && HoldsSame(ws, ws')
    ensures Distinct(ws')
  {
    forall w, v | w in ws' && v in ws' && SameJob(ws'[w], ws'[v]) ensures w == v {
      assert SameJob(ws[w], ws[v]);
    }
  }

  /** The live contexts and their jobs are unchanged. */
  ghost predicate SameContexts(ws: Workers, ws': Workers) {
    && (forall w <- ws :: HasContext(ws[w]) ==> w in ws' && HasContext(ws'[w]) && ws'[w].id == ws[w].id)
    && (forall w <- ws' :: HasContext(ws'[w]) ==> w in ws && HasContext(ws[w]))
  }

  lemma KeepRunning(ws: Workers, ws': Workers, running: map<JobId, WorkerId>)
    requires InvRunning(ws, running) && SameContexts(ws, ws')
    ensures InvRunning(ws', running)
  {}

  lemma HistoryRows(t: Table, t': Table, h: History, h': History)
    requires InvRows(t, h) && Evolves(t, t')
    requires h'.produced == h.produced && h'.rebuilt == h.rebuilt && h.entered <= h'.entered
    requires forall id <- t' :: t'[id].state == Succeeded ==> (id in t && t[id].state == Succeeded) || Carries(h', id, t'[id].result)
    ensures InvRows(t', h')
  {
    forall id | id in h'.produced ensures id in h'.entered { assert id in h.entered; }
  }

  /** The cancelled rows are the same, and no canceller's reading went stale. */
  ghost predicate SameCancelled(t: Table, t': Table, c: Option<Canceller>) {
    && (forall id <- t' :: t'[id].state == State.Cancelled ==> id in t && t[id].state == State.Cancelled)
    && (c.Some? && c.value.Reading? && c.value.id in t && c.value.id in t' ==>
          t'[c.value.id].state == t[c.value.id].state || Terminal(t'[c.value.id].state))
  }

  /** What every evolution of the table keeps. */
  lemma TableKeeps(t: Table, t': Table, c: Option<Canceller>, notified: set<JobId>, entered: multiset<JobId>)
    requires InvNotified(t, notified) && InvCanceller(t, c) && InvEntries(t, entered) && Evolves(t, t')
    requires SameCancelled(t, t', c)
    ensures InvNotified(t', notified) && InvCanceller(t', c) && InvEntries(t', entered)
  {
    forall id | id in notified ensures id in t' && t'[id].state == State.Cancelled { assert id in t; }
    EntriesKeep(t, t', entered);
  }

  lemma EntriesKeep(t: Table, t': Table, entered: multiset<JobId>)
    requires InvEntries(t, entered) && Evolves(t, t')
    ensures InvEntries(t', entered)
  {
    forall id | id in entered ensures id in t' && t'[id].state != Queued { assert id in t; }
  }

  lemma NotifiedKeep(t: Table, t': Table, notified: set<JobId>)
    requires InvNotified(t, notified) && Evolves(t, t')
    ensures InvNotified(t', notified)
  {
    forall id | id in notified ensures id in t' && t'[id].state == State.Cancelled { assert id in t; }
  }

  lemma SameIdentityKeepsIndex(t: Table, t': Table)
    requires InvTable(t) && Evolves(t, t') && t'.Keys == t.Keys
    ensures InvTable(t')
  {
    forall a, b | a in t' && b in t' && Clash(t'[a], t'[b]) ensures a == b {
      assert Clash(t[a], t[b]);
    }
  }

  lemma WriteKeepsTable(t: Table, id: JobId, from: State, to: State, result: Option<string>, code: Option<string>, fault: Fault)
    requires InvTable(t) && Active(from) && Terminal(to)
    ensures var t' := Transition(t, id, from, to, result, code, fault).0;
      Evolves(t, t') && InvTable(t') && t'.Keys == t.Keys
  {
    TransitionEvolves(t, id, from, to, result, code, fault);
    SameIdentityKeepsIndex(t, Transition(t, id, from, to, result, code, fault).0);
  }

  /** A terminal write other than a cancellation. */
  lemma WriteCancels(t: Table, id: JobId, to: State, result: Option<string>, code: Option<string>, fault: Fault, c: Option<Canceller>)
    requires Terminal(to)
    requires to == State.Cancelled ==> Settled(t, id)
    ensures SameCancelled(t, Transition(t, id, Running, to, result, code, fault).0, c)
  {}

  lemma SameKeys(ws: Workers, w: WorkerId, q: Phase)
    requires w in ws
    ensures ws[w := q].Keys == ws.Keys
  {}

  /** Worker w takes phase q, about the same job or none; other workers hold other jobs. */
  lemma MoveDistinct(ws: Workers, w: WorkerId, q: Phase)
    requires Distinct(ws) && w in ws && (HasJob(q) ==> HasJob(ws[w]) && q.id == ws[w].id)
    ensures Distinct(ws[w := q]) && ws[w := q].Keys == ws.Keys
    ensures HasJob(ws[w]) ==> forall v <- ws :: v != w && HasJob(ws[v]) ==> ws[v].id != ws[w].id
  {
    KeepDistinct(ws, ws[w := q]);
    SameKeys(ws, w, q);
    forall v | v in ws && v != w && HasJob(ws[w]) && HasJob(ws[v]) ensures ws[v].id != ws[w].id {
      assert !SameJob(ws[v], ws[w]);
    }
  }

  lemma MoveRunning(ws: Workers, w: WorkerId, q: Phase, running: map<JobId, WorkerId>)
    requires InvRunning(ws, running) && w in ws
    requires HasContext(ws[w]) <==> HasContext(q)
    requires HasContext(q) ==> q.id == ws[w].id
    ensures InvRunning(ws[w := q], running)
  {
    KeepRunning(ws, ws[w := q], running);
  }

  /** Only job id's row and history entries changed. */
  ghost predicate OnlyJob(t: Table, t': Table, c: Option<Canceller>, h: History, h': History, id: JobId) {
    forall j {:trigger Frame(t, t', c, c, h, h', j)} :: j != id ==> Frame(t, t', c, c, h, h', j)
  }

  lemma WriteOnlyJob(t: Table, id: JobId, to: State, result: Option<string>, code: Option<string>, fault: Fault,
                     c: Option<Canceller>, h: History, h': History)
    requires h'.entered == h.entered && h'.notified == h.notified && h.silent <= h'.silent && h'.rebuilt == h.rebuilt
    requires forall j :: j != id ==> (j in h'.produced <==> j in h.produced) && (j in h.produced ==> h'.produced[j] == h.produced[j])
    ensures OnlyJob(t, Transition(t, id, Running, to, result, code, fault).0, c, h, h', id)
  {}

  /** A worker's step on its own job: the general case. */
  lemma JobStepInv(s: Sys, s': Sys, w: WorkerId, q: Phase)
    requires Inv(s) && w in s.ws && HasJob(s.ws[w]) && (HasJob(q) ==> q.id == s.ws[w].id)
    requires HasContext(s.ws[w]) <==> HasContext(q)
    requires s' == s.(db := s'.db, ws := s.ws[w := q], h := s'.h) && s'.h.notified == s.h.notified
    requires Evolves(s.db, s'.db) && InvTable(s'.db) && SameCancelled(s.db, s'.db, s.cancelling)
    requires InvRows(s'.db, s'.h) && InvEntries(s'.db, s'.h.entered)
    requires OnlyJob(s.db, s'.db, s.cancelling, s.h, s'.h, s.ws[w].id)
    requires PhaseOk(s'.db, s.cancelling, s'.h, s.stopped, q)
    ensures Inv(s')
  {
    TableKeeps(s.db, s'.db, s.cancelling, s.h.notified, s.h.entered);
    MoveDistinct(s.ws, w, q);
    MoveRunning(s.ws, w, q, s.running);
    JobStepPhases(s, s', w, q);
  }

  lemma JobStepPhases(s: Sys, s': Sys, w: WorkerId, q: Phase)
    requires Distinct(s.ws) && InvPhases(s.db, s.cancelling, s.h, s.stopped, s.ws) && w in s.ws && HasJob(s.ws[w])
    requires OnlyJob(s.db, s'.db, s.cancelling, s.h, s'.h, s.ws[w].id)
    requires PhaseOk(s'.db, s.cancelling, s'.h, s.stopped, q)
    ensures InvPhases(s'.db, s.cancelling, s'.h, s.stopped, s.ws[w := q])
  {
    forall v | v in s.ws && v != w && HasJob(s.ws[v])
      ensures Frame(s.db, s'.db, s.cancelling, s.cancelling, s.h, s'.h, s.ws[v].id)
    {
      assert !SameJob(s.ws[v], s.ws[w]);
    }
    PhasesMove(s.db, s'.db, s.cancelling, s.cancelling, s.h, s'.h, s.stopped, s.ws, w, q);
  }

  // ------------------------------------------------------------ control events

  lemma SpawnedContexts(ws: Workers, spawn: set<WorkerId>)
    requires spawn !! ws.Keys
    ensures var ws' := Spawned(ws, spawn);
      HoldsSame(ws, ws') && SameContexts(ws, ws') && |ws'.Keys| == |ws.Keys| + |spawn|
  {
    assert Spawned(ws, spawn).Keys == ws.Keys + spawn;
  }

  lemma SpawnedFrame(s: Sys, spawn: set<WorkerId>)
    requires Distinct(s.ws) && InvRunning(s.ws, s.running) && InvPhases(s.db, s.cancelling, s.h, s.stopped, s.ws)
    requires spawn !! s.ws.Keys
    ensures var ws' := Spawned(s.ws, spawn);
      && Distinct(ws') && InvRunning(ws', s.running) && InvPhases(s.db, s.cancelling, s.h, s.stopped, ws')
      && |ws'.Keys| == |s.ws.Keys| + |spawn|
  {
    var ws' := Spawned(s.ws, spawn);
    SpawnedContexts(s.ws, spawn);
    KeepDistinct(s.ws, ws');
    KeepRunning(s.ws, ws', s.running);
  }

  lemma StartInv(s: Sys, spawn: set<WorkerId>, s': Sys)
    requires Inv(s) && StartStep(s, spawn, s')
    ensures Inv(s')
  {
    SpawnedFrame(s, spawn);
  }

  lemma SetLimitsInv(s: Sys, c: int, l: int, spawn: set<WorkerId>, s': Sys)
    requires Inv(s) && SetLimitsStep(s, c, l, spawn, s')
    ensures Inv(s')
  {
    SpawnedFrame(s, spawn);
    if !s.started { assert Spawned(s.ws, spawn) == s.ws; }
  }

  lemma AdmissionInv(s: Sys, jobs: seq<Job>, stamp: nat)
    requires Inv(s) && InsertAll(s.db, jobs, stamp).Some?
    ensures var t := InsertAll(s.db, jobs, stamp).value; Evolves(s.db, t) && Inv(s.(db := t))
  {
    var t := InsertAll(s.db, jobs, stamp).value;
    InsertAllCounts(s.db, jobs, stamp);
    InsertAllKeepsKeys(s.db, jobs, stamp);
    InsertAllAddsExactly(s.db, jobs, stamp);
    forall id | id in t && id !in s.db ensures t[id].state == Queued {
      var i := InsertAllOrigin(s.db, jobs, stamp, id);
    }
    HistoryRows(s.db, t, s.h, s.h);
    PhasesKeep(s.db, t, s.cancelling, s.cancelling, s.h, s.h, s.stopped, s.ws);
    TableKeeps(s.db, t, s.cancelling, s.h.notified, s.h.entered);
  }

  lemma SubmitInv(s: Sys, jobs: seq<Job>, stamp: nat, s': Sys)
    requires Inv(s) && SubmitStep(s, jobs, stamp, s')
    ensures Evolves(s.db, s'.db) && Inv(s')
  {
    if SubmitOutcome(s, jobs, stamp).Admitted? { AdmissionInv(s, jobs, stamp); }
  }

  lemma ProposalInv(s: Sys, p: string, c: string, jobs: seq<Job>, stamp: nat, s': Sys)
    requires Inv(s) && ProposalStep(s, p, c, jobs, stamp, s')
    ensures Evolves(s.db, s'.db) && Inv(s')
  {
    var o := ProposalOutcome(s, p, c, jobs, stamp);
    if o.Fresh? && o.outcome.Admitted? { AdmissionInv(s, jobs, stamp); }
  }

  lemma ShutdownInterrupts(ws: Workers, running: map<JobId, WorkerId>)
    requires InvRunning(ws, running)
    ensures var ws' := Interrupted(ws, running, ByShutdown);
      && ws'.Keys == ws.Keys && HoldsSame(ws, ws') && SameContexts(ws, ws')
      && (forall w <- ws :: ws'[w] == Interrupt(ws[w], ByShutdown))
  {}

  lemma InterruptKeeps(t: Table, c: Option<Canceller>, h: History, stopped: bool, p: Phase, cause: Cause)
    requires PhaseOk(t, c, h, stopped, p)
    requires cause == ByUser && HasContext(p) ==> Settled(t, p.id)
    ensures PhaseOk(t, c, h, stopped || cause == ByShutdown, Interrupt(p, cause))
  {}

  lemma ShutdownInv(s: Sys, s': Sys)
    requires Inv(s) && ShutdownStep(s, s')
    ensures Inv(s')
  {
    if !s.stopped {
      ShutdownInterrupts(s.ws, s.running);
      KeepDistinct(s.ws, s'.ws);
      KeepRunning(s.ws, s'.ws, s.running);
      forall w | w in s'.ws ensures PhaseOk(s.db, s.cancelling, s.h, true, s'.ws[w]) {
        InterruptKeeps(s.db, s.cancelling, s.h, s.stopped, s.ws[w], ByShutdown);
      }
    }
  }

  // ------------------------------------------------------------- cancellation

  lemma CancelReadInv(s: Sys, id: JobId, s': Sys)
    requires Inv(s) && CancelReadStep(s, id, s')
    ensures Inv(s')
  {
    PhasesKeep(s.db, s.db, s.cancelling, s'.cancelling, s.h, s.h, s.stopped, s.ws);
  }

  /** A cancelled row is known to its own worker's phase once the bookkeeping says where the news stands. */
  lemma CancelledPhase(t: Table, t': Table, c: Option<Canceller>, c': Option<Canceller>, h: History, h': History, stopped: bool, p: Phase)
    requires PhaseOk(t, c, h, stopped, p) && HasJob(p) && p.id in t'
    requires Evolves(t, t') && t'[p.id].state == State.Cancelled
    requires h' == h.(silent := h'.silent) && (p.id in h'.silent || c' == Some(Written(p.id)))
    ensures PhaseOk(t', c', h', stopped, p)
  {}

  lemma CancelledPhases(t: Table, id: JobId, from: State, fault: Fault, c: Option<Canceller>, c': Option<Canceller>,
                        h: History, h': History, stopped: bool, ws: Workers)
    requires InvPhases(t, c, h, stopped, ws) && InvTable(t) && Active(from)
    requires h' == h.(silent := h'.silent) && h.silent <= h'.silent
    requires c.Some? && c.value.Written? ==> c' == c
    requires var t' := Transition(t, id, from, State.Cancelled, None, None, fault).0;
      t' != t ==> id in h'.silent || c' == Some(Written(id))
    ensures InvPhases(Transition(t, id, from, State.Cancelled, None, None, fault).0, c', h', stopped, ws)
  {
    hide PhaseOk, InvTable, Evolves;
    var t' := Transition(t, id, from, State.Cancelled, None, None, fault).0;
    WriteKeepsTable(t, id, from, State.Cancelled, None, None, fault);
    forall v | v in ws ensures PhaseOk(t', c', h', stopped, ws[v]) {
      if HasJob(ws[v]) && ws[v].id == id && t' != t {
        CancelledPhase(t, t', c, c', h, h', stopped, ws[v]);
      } else {
        PhaseKeeps(t, t', c, c', h, h', stopped, ws[v]);
      }
    }
  }

  lemma CancelWriteInv(s: Sys, fault: Fault, s': Sys)
    requires Inv(s) && CancelWriteStep(s, fault, s')
    ensures Evolves(s.db, s'.db) && Inv(s')
  {
    var c := s.cancelling.value;
    WriteKeepsTable(s.db, c.id, c.seen, State.Cancelled, None, None, fault);
    EntriesKeep(s.db, s'.db, s.h.entered);
    NotifiedKeep(s.db, s'.db, s.h.notified);
    HistoryRows(s.db, s'.db, s.h, s'.h);
    CancelledPhases(s.db, c.id, c.seen, fault, s.cancelling, s'.cancelling, s.h, s'.h, s.stopped, s.ws);
  }

  lemma NotifiedContexts(ws: Workers, running: map<JobId, WorkerId>, id: JobId)
    requires InvRunning(ws, running)
    ensures var ws' := Notified(ws, running, id);
      && ws'.Keys == ws.Keys && HoldsSame(ws, ws') && SameContexts(ws, ws')
      && (forall w <- ws :: ws'[w] == if HasContext(ws[w]) && ws[w].id == id then Interrupt(ws[w], ByUser) else ws[w])
  {}

  lemma FinishedPhase(t: Table, c: Option<Canceller>, h: History, h': History, stopped: bool, p: Phase, id: JobId)
    requires PhaseOk(t, c, h, stopped, p) && c == Some(Written(id)) && Settled(t, id)
    requires h' == h.(notified := h.notified + {id})
    ensures PhaseOk(t, None, h', stopped, if HasContext(p) && p.id == id then Interrupt(p, ByUser) else p)
  {}

  lemma CancelFinishInv(s: Sys, s': Sys)
    requires Inv(s) && CancelFinishStep(s, s')
    ensures Inv(s')
  {
    var id := s.cancelling.value.id;
    NotifiedContexts(s.ws, s.running, id);
    KeepDistinct(s.ws, s'.ws);
    KeepRunning(s.ws, s'.ws, s.running);
    HistoryRows(s.db, s.db, s.h, s'.h);
    forall w | w in s'.ws ensures PhaseOk(s.db, None, s'.h, s.stopped, s'.ws[w]) {
      FinishedPhase(s.db, s.cancelling, s.h, s'.h, s.stopped, s.ws[w], id);
    }
  }

  lemma StoreCancelInv(s: Sys, id: JobId, seen: State, fault: Fault, s': Sys)
    requires Inv(s) && StoreCancelStep(s, id, seen, fault, s')
    ensures Evolves(s.db, s'.db) && Inv(s')
  {
    hide InvPhases, InvTable, InvEntries, InvNotified, Distinct, InvRunning;
    WriteKeepsTable(s.db, id, seen, State.Cancelled, None, None, fault);
    EntriesKeep(s.db, s'.db, s.h.entered);
    NotifiedKeep(s.db, s'.db, s.h.notified);
    HistoryRows(s.db, s'.db, s.h, s'.h);
    CancelledPhases(s.db, id, seen, fault, s.cancelling, s.cancelling, s.h, s'.h, s.stopped, s.ws);
  }

  // ------------------------------------------------------------------ workers

  lemma RemoveIdle(ws: Workers, w: WorkerId, running: map<JobId, WorkerId>)
    requires w in ws && ws[w].Idle? && Distinct(ws) && InvRunning(ws, running)
    ensures Distinct(ws - {w}) && InvRunning(ws - {w}, running) && |(ws - {w}).Keys| == |ws.Keys| - 1
  {
    assert (ws - {w}).Keys == ws.Keys - {w};
    KeepDistinct(ws, ws - {w});
    KeepRunning(ws, ws - {w}, running);
  }

  lemma RetireInv(s: Sys, w: WorkerId, s': Sys)
    requires Inv(s) && RetireStep(s, w, s')
    ensures Inv(s')
  {
    RemoveIdle(s.ws, w, s.running);
  }

  lemma StopIdleInv(s: Sys, w: WorkerId, s': Sys)
    requires Inv(s) && StopIdleStep(s, w, s')
    ensures Inv(s')
  {
    RemoveIdle(s.ws, w, s.running);
  }

  lemma StartedTable(t: Table, id: JobId, c: Option<Canceller>, h: History)
    requires InvTable(t) && InvRows(t, h) && id in t && t[id].state == Queued
    ensures Evolves(t, Started(t, id)) && InvTable(Started(t, id))
    ensures InvRows(Started(t, id), h)
    ensures c.None? ==> SameCancelled(t, Started(t, id), c)
  {
    SameIdentityKeepsIndex(t, Started(t, id));
  }

  lemma ClaimDistinct(t: Table, ws: Workers, w: WorkerId, id: JobId, c: Option<Canceller>, h: History, stopped: bool)
    requires Distinct(ws) && InvPhases(t, c, h, stopped, ws) && id in t && t[id].state == Queued
    ensures Distinct(ws[w := Claimed(id)])
    ensures forall v <- ws :: HasJob(ws[v]) ==> ws[v].id != id
  {
    forall v | v in ws && HasJob(ws[v]) ensures ws[v].id != id {
      assert PhaseOk(t, c, h, stopped, ws[v]);
    }
    var ws' := ws[w := Claimed(id)];
    forall u, v | u in ws' && v in ws' && SameJob(ws'[u], ws'[v]) ensures u == v {
      if u != w && v != w { assert SameJob(ws[u], ws[v]); }
    }
  }

  lemma ClaimPhases(s: Sys, w: WorkerId, id: JobId)
    requires InvPhases(s.db, s.cancelling, s.h, s.stopped, s.ws) && InvEntries(s.db, s.h.entered)
    requires w in s.ws && id in s.db && s.db[id].state == Queued
    requires forall v <- s.ws :: HasJob(s.ws[v]) ==> s.ws[v].id != id
    ensures InvPhases(Started(s.db, id), s.cancelling, s.h, s.stopped, s.ws)
    ensures InvPhases(Started(s.db, id), s.cancelling, s.h, s.stopped, s.ws[w := Claimed(id)])
  {
    PhasesKeep(s.db, Started(s.db, id), s.cancelling, s.cancelling, s.h, s.h, s.stopped, s.ws);
    PhasesMove(s.db, Started(s.db, id), s.cancelling, s.cancelling, s.h, s.h, s.stopped, s.ws, w, Claimed(id));
  }

  lemma ClaimInv(s: Sys, w: WorkerId, id: JobId, reported: bool, s': Sys)
    requires Inv(s) && ClaimStep(s, w, id, reported, s')
    ensures Evolves(s.db, s'.db) && Inv(s')
  {
    StartedTable(s.db, id, s.cancelling, s.h);
    TableKeeps(s.db, s'.db, s.cancelling, s.h.notified, s.h.entered);
    ClaimDistinct(s.db, s.ws, w, id, s.cancelling, s.h, s.stopped);
    ClaimPhases(s, w, id);
    if reported {
      MoveRunning(s.ws, w, Claimed(id), s.running);
      SameKeys(s.ws, w, Claimed(id));
    }
  }

  /** A step that changes one worker's phase and nothing shared. */
  lemma PhaseStepInv(s: Sys, w: WorkerId, q: Phase)
    requires Inv(s) && w in s.ws && HasJob(s.ws[w]) && (HasJob(q) ==> q.id == s.ws[w].id)
    requires HasContext(s.ws[w]) <==> HasContext(q)
    requires PhaseOk(s.db, s.cancelling, s.h, s.stopped, q)
    ensures Inv(s.(ws := s.ws[w := q]))
  {
    MoveDistinct(s.ws, w, q);
    MoveRunning(s.ws, w, q, s.running);
  }

  lemma RegisterRunning(ws: Workers, w: WorkerId, q: Phase, running: map<JobId, WorkerId>)
    requires Distinct(ws) && InvRunning(ws, running) && w in ws && ws[w].Claimed? && HasContext(q) && q.id == ws[w].id
    ensures InvRunning(ws[w := q], running[q.id := w])
  {
    forall v | v in ws && v != w && HasContext(ws[v]) ensures ws[v].id != q.id {
      assert !SameJob(ws[v], ws[w]);
    }
  }

  lemma RegisterInv(s: Sys, w: WorkerId, s': Sys)
    requires Inv(s) && RegisterStep(s, w, s')
    ensures Inv(s')
  {
    assert PhaseOk(s.db, s.cancelling, s.h, s.stopped, s.ws[w]);
    MoveDistinct(s.ws, w, s'.ws[w]);
    RegisterRunning(s.ws, w, s'.ws[w], s.running);
  }

  lemma LookInv(s: Sys, w: WorkerId, ok: bool, s': Sys)
    requires Inv(s) && LookStep(s, w, ok, s')
    ensures Inv(s')
  {
    assert PhaseOk(s.db, s.cancelling, s.h, s.stopped, s.ws[w]);
    LookedOk(s.db, s.cancelling, s.h, s.stopped, s.ws[w], ok);
    PhaseStepInv(s, w, s'.ws[w]);
  }

  lemma LookedOk(t: Table, c: Option<Canceller>, h: History, stopped: bool, p: Phase, ok: bool)
    requires p.Registered? && PhaseOk(t, c, h, stopped, p) && InvNotified(t, h.notified)
    ensures PhaseOk(t, c, h, stopped, Looked(p.id, p.cause, Found(t, p.id, ok)))
  {}

  lemma SkipInv(s: Sys, w: WorkerId, s': Sys)
    requires Inv(s) && SkipStep(s, w, s')
    ensures Inv(s')
  {
    assert PhaseOk(s.db, s.cancelling, s.h, s.stopped, s.ws[w]);
    PhaseStepInv(s, w, s'.ws[w]);
  }

  lemma EnteredOk(t: Table, c: Option<Canceller>, h: History, h': History, stopped: bool, p: Phase)
    requires p.Looked? && p.cause.None? && p.live && PhaseOk(t, c, h, stopped, p) && InvRows(t, h) && InvEntries(t, h.entered)
    requires h' == h.(entered := h.entered + multiset{p.id})
    ensures PhaseOk(t, c, h', stopped, InRunner(p.id, None, None, false)) && InvEntries(t, h'.entered)
    ensures InvRows(t, h') && OnlyJob(t, t, c, h, h', p.id)
  {
    HistoryRows(t, t, h, h');
  }

  lemma EnterInv(s: Sys, w: WorkerId, s': Sys)
    requires Inv(s) && EnterStep(s, w, s')
    ensures Inv(s')
  {
    assert PhaseOk(s.db, s.cancelling, s.h, s.stopped, s.ws[w]);
    EnteredOk(s.db, s.cancelling, s.h, s'.h, s.stopped, s.ws[w]);
    JobStepInv(s, s', w, s'.ws[w]);
  }

  lemma ProduceRows(t: Table, id: JobId, r: string, fault: Fault, h: History, h': History)
    requires InvRows(t, h) && id in h.entered && id !in h.produced
    requires h' == h.(produced := h.produced[id := r])
    ensures InvRows(Transition(t, id, Running, Succeeded, Some(r), None, fault).0, h')
  {
    var t' := Transition(t, id, Running, Succeeded, Some(r), None, fault).0;
    forall j | j in t' && t'[j].state == Succeeded ensures Carries(h', j, t'[j].result) {
      if j in t && t'[j] == t[j] { assert Carries(h, j, t[j].result); }
    }
  }

  lemma ProducedOk(t: Table, c: Option<Canceller>, h: History, h': History, stopped: bool, p: Phase, r: string, fault: Fault)
    requires p.InRunner? && p.produced.None? && PhaseOk(t, c, h, stopped, p) && h' == h.(produced := h.produced[p.id := r])
    ensures var (t', reply) := Transition(t, p.id, Running, Succeeded, Some(r), None, fault);
      PhaseOk(t', c, h', stopped, p.(produced := Some(r), acked := reply.Done?))
  {}

  lemma RunnerSucceedInv(s: Sys, w: WorkerId, r: string, fault: Fault, s': Sys)
    requires Inv(s) && RunnerSucceedStep(s, w, r, fault, s')
    ensures Evolves(s.db, s'.db) && Inv(s')
  {
    var id := s.ws[w].id;
    assert PhaseOk(s.db, s.cancelling, s.h, s.stopped, s.ws[w]);
    WriteKeepsTable(s.db, id, Running, Succeeded, Some(r), None, fault);
    WriteCancels(s.db, id, Succeeded, Some(r), None, fault, s.cancelling);
    WriteOnlyJob(s.db, id, Succeeded, Some(r), None, fault, s.cancelling, s.h, s'.h);
    EntriesKeep(s.db, s'.db, s.h.entered);
    ProduceRows(s.db, id, r, fault, s.h, s'.h);
    ProducedOk(s.db, s.cancelling, s.h, s'.h, s.stopped, s.ws[w], r, fault);
    JobStepInv(s, s', w, s'.ws[w]);
  }

  lemma FailedOk(t: Table, c: Option<Canceller>, h: History, stopped: bool, p: Phase, r: string, fault: Fault)
    requires p.InRunner? && PhaseOk(t, c, h, stopped, p)
    ensures PhaseOk(Transition(t, p.id, Running, Failed, Some(r), Some("scan_failed"), fault).0, c, h, stopped, p)
  {}

  /** A write that succeeds no row leaves every recorded result in place. */
  lemma WriteRows(t: Table, id: JobId, to: State, result: Option<string>, code: Option<string>, fault: Fault, h: History)
    requires InvTable(t) && InvRows(t, h) && Terminal(to) && (to == Succeeded ==> Carries(h, id, result) || Settled(t, id))
    ensures InvRows(Transition(t, id, Running, to, result, code, fault).0, h)
  {
    var t' := Transition(t, id, Running, to, result, code, fault).0;
    WriteKeepsTable(t, id, Running, to, result, code, fault);
    forall j | j in t' && t'[j].state == Succeeded ensures Carries(h, j, t'[j].result) {
      if j in t && t'[j] == t[j] { assert Carries(h, j, t[j].result); }
    }
  }

  lemma RunnerFailInv(s: Sys, w: WorkerId, r: string, fault: Fault, s': Sys)
    requires Inv(s) && RunnerFailStep(s, w, r, fault, s')
    ensures Evolves(s.db, s'.db) && Inv(s')
  {
    var id := s.ws[w].id;
    assert PhaseOk(s.db, s.cancelling, s.h, s.stopped, s.ws[w]);
    WriteKeepsTable(s.db, id, Running, Failed, Some(r), Some("scan_failed"), fault);
    WriteCancels(s.db, id, Failed, Some(r), Some("scan_failed"), fault, s.cancelling);
    WriteOnlyJob(s.db, id, Failed, Some(r), Some("scan_failed"), fault, s.cancelling, s.h, s.h);
    EntriesKeep(s.db, s'.db, s.h.entered);
    WriteRows(s.db, id, Failed, Some(r), Some("scan_failed"), fault, s.h);
    FailedOk(s.db, s.cancelling, s.h, s.stopped, s.ws[w], r, fault);
    assert s.ws[w := s.ws[w]] == s.ws;
    JobStepInv(s, s', w, s.ws[w]);
  }

  lemma ReturnedOk(t: Table, c: Option<Canceller>, h: History, stopped: bool, p: Phase, kind: Kind, err: RunError)
    requires p.InRunner? && PhaseOk(t, c, h, stopped, p) && MayReturn(kind, p.produced, p.acked, err)
    ensures PhaseOk(t, c, h, stopped, Returned(p.id, p.cause, err))
  {}

  lemma RunnerReturnInv(s: Sys, w: WorkerId, err: RunError, s': Sys)
    requires Inv(s) && RunnerReturnStep(s, w, err, s')
    ensures Inv(s')
  {
    assert PhaseOk(s.db, s.cancelling, s.h, s.stopped, s.ws[w]);
    ReturnedOk(s.db, s.cancelling, s.h, s.stopped, s.ws[w], s.db[s.ws[w].id].kind, err);
    PhaseStepInv(s, w, s'.ws[w]);
  }

  lemma DeregisterRunning(ws: Workers, w: WorkerId, q: Phase, running: map<JobId, WorkerId>)
    requires InvRunning(ws, running) && w in ws && HasContext(ws[w]) && !HasContext(q)
    ensures InvRunning(ws[w := q], running - {ws[w].id})
  {}

  lemma TargetKnown(t: Table, c: Option<Canceller>, h: History, stopped: bool, p: Phase)
    requires p.Returned? && PhaseOk(t, c, h, stopped, p)
    ensures PhaseOk(t, c, h, stopped, Deregistered(p.id, TerminalTarget(p.err, p.cause)))
  {
    assert p.cause.Some? ==> p.cause.value.ByShutdown? || p.cause.value.ByUser?;
  }

  lemma DeregisterInv(s: Sys, w: WorkerId, s': Sys)
    requires Inv(s) && DeregisterStep(s, w, s')
    ensures Inv(s')
  {
    assert PhaseOk(s.db, s.cancelling, s.h, s.stopped, s.ws[w]);
    TargetKnown(s.db, s.cancelling, s.h, s.stopped, s.ws[w]);
    MoveDistinct(s.ws, w, s'.ws[w]);
    DeregisterRunning(s.ws, w, s'.ws[w], s.running);
  }

  lemma ReadStateInv(s: Sys, w: WorkerId, ok: bool, s': Sys)
    requires Inv(s) && ReadStateStep(s, w, ok, s')
    ensures Inv(s')
  {
    assert PhaseOk(s.db, s.cancelling, s.h, s.stopped, s.ws[w]);
    PhaseStepInv(s, w, s'.ws[w]);
  }

  /** finalize can only write a result the runner produced, and never cancels a row itself. */
  lemma PersistOk(t: Table, c: Option<Canceller>, h: History, stopped: bool, p: Phase, fault: Fault)
    requires p.Settling? && PhaseOk(t, c, h, stopped, p)
    ensures PhaseOk(Transition(t, p.id, Running, p.target.state, p.target.result, p.target.code, fault).0, c, h, stopped, p)
    ensures Terminal(p.target.state)
    ensures p.target.state == Succeeded ==> Carries(h, p.id, p.target.result) || Settled(t, p.id)
    ensures p.target.state == State.Cancelled ==> Settled(t, p.id)
  {}

  lemma PersistTable(s: Sys, p: Phase, fault: Fault)
    requires Inv(s) && p.Settling? && PhaseOk(s.db, s.cancelling, s.h, s.stopped, p)
    ensures var t' := Transition(s.db, p.id, Running, p.target.state, p.target.result, p.target.code, fault).0;
      && Evolves(s.db, t') && InvTable(t') && SameCancelled(s.db, t', s.cancelling)
      && InvRows(t', s.h) && InvEntries(t', s.h.entered) && OnlyJob(s.db, t', s.cancelling, s.h, s.h, p.id)
      && PhaseOk(t', s.cancelling, s.h, s.stopped, p)
  {
    PersistOk(s.db, s.cancelling, s.h, s.stopped, p, fault);
    WriteKeepsTable(s.db, p.id, Running, p.target.state, p.target.result, p.target.code, fault);
    WriteCancels(s.db, p.id, p.target.state, p.target.result, p.target.code, fault, s.cancelling);
    WriteOnlyJob(s.db, p.id, p.target.state, p.target.result, p.target.code, fault, s.cancelling, s.h, s.h);
    EntriesKeep(s.db, Transition(s.db, p.id, Running, p.target.state, p.target.result, p.target.code, fault).0, s.h.entered);
    WriteRows(s.db, p.id, p.target.state, p.target.result, p.target.code, fault, s.h);
  }

  lemma RetriedOk(t: Table, c: Option<Canceller>, h: History, stopped: bool, p: Phase, tries: nat)
    requires p.Settling? && PhaseOk(t, c, h, stopped, p)
    ensures PhaseOk(t, c, h, stopped, p.(tries := tries)) && PhaseOk(t, c, h, stopped, Idle)
  {}

  lemma PersistInv(s: Sys, w: WorkerId, fault: Fault, s': Sys)
    requires Inv(s) && PersistStep(s, w, fault, s')
    ensures Evolves(s.db, s'.db) && Inv(s')
  {
    var p := s.ws[w];
    assert PhaseOk(s.db, s.cancelling, s.h, s.stopped, p);
    PersistTable(s, p, fault);
    RetriedOk(s'.db, s.cancelling, s.h, s.stopped, p, p.tries + 1);
    JobStepInv(s, s', w, AfterTry(p, Transition(s.db, p.id, Running, p.target.state, p.target.result, p.target.code, fault).1));
  }

  // ------------------------------------------------------------------ restart

  lemma CrashInv(s: Sys, s': Sys)
    requires Inv(s) && CrashStep(s, s')
    ensures Inv(s')
  {}

  lemma RebuildRows(t: Table, id: JobId, r: string, fault: Fault, h: History, h': History)
    requires InvRows(t, h)
    requires var t' := Transition(t, id, Running, Succeeded, Some(r), None, fault).0;
      h' == if t' != t then h.(rebuilt := h.rebuilt[id := r]) else h
    ensures InvRows(Transition(t, id, Running, Succeeded, Some(r), None, fault).0, h')
  {
    var t' := Transition(t, id, Running, Succeeded, Some(r), None, fault).0;
    forall j | j in t' && t'[j].state == Succeeded ensures Carries(h', j, t'[j].result) {
      if j in t && t'[j] == t[j] { assert Carries(h, j, t[j].result); }
    }
  }

  lemma RebuildInv(s: Sys, id: JobId, r: string, fault: Fault, s': Sys)
    requires Inv(s) && RebuildStep(s, id, r, fault, s')
    ensures Evolves(s.db, s'.db) && Inv(s')
  {
    WriteKeepsTable(s.db, id, Running, Succeeded, Some(r), None, fault);
    WriteCancels(s.db, id, Succeeded, Some(r), None, fault, s.cancelling);
    TableKeeps(s.db, s'.db, s.cancelling, s.h.notified, s.h.entered);
    RebuildRows(s.db, id, r, fault, s.h, s'.h);
  }

  lemma RecoverInv(s: Sys, c: int, l: int, s': Sys)
    requires Inv(s) && RecoverStep(s, c, l, s')
    ensures Evolves(s.db, s'.db) && Inv(s')
  {
    SameIdentityKeepsIndex(s.db, s'.db);
    TableKeeps(s.db, s'.db, s.cancelling, s.h.notified, s.h.entered);
    HistoryRows(s.db, s'.db, s.h, s.h);
  }

  // ---------------------------------------------------------------- every event

  lemma CancelNextInv(s: Sys, e: CancelEvent, s': Sys)
    requires Inv(s) && CancelNext(s, e, s')
    ensures Evolves(s.db, s'.db) && Inv(s')
  {
    match e
    case CancelRead(id) => CancelReadInv(s, id, s');
    case CancelWrite(fault) => CancelWriteInv(s, fault, s');
    case CancelFinish => CancelFinishInv(s, s');
    case StoreCancel(id, seen, fault) => StoreCancelInv(s, id, seen, fault, s');
  }

  lemma WorkerNextInv(s: Sys, w: WorkerId, e: WorkerEvent, s': Sys)
    requires Inv(s) && WorkerNext(s, w, e, s')
    ensures Evolves(s.db, s'.db) && Inv(s')
  {
    match e
    case Retire => RetireInv(s, w, s');
    case StopIdle => StopIdleInv(s, w, s');
    case Claim(id, reported) => ClaimInv(s, w, id, reported, s');
    case Register => RegisterInv(s, w, s');
    case Look(ok) => LookInv(s, w, ok, s');
    case Enter => EnterInv(s, w, s');
    case Skip => SkipInv(s, w, s');
    case RunnerSucceed(r, fault) => RunnerSucceedInv(s, w, r, fault, s');
    case RunnerFail(r, fault) => RunnerFailInv(s, w, r, fault, s');
    case RunnerReturn(err) => RunnerReturnInv(s, w, err, s');
    case Deregister => DeregisterInv(s, w, s');
    case ReadState(ok) => ReadStateInv(s, w, ok, s');
    case Persist(fault) => PersistInv(s, w, fault, s');
  }

  /** Every event preserves the invariant, and none rewrites history: rows keep their identity, states
      only move forward, and terminal rows stay as they are in every field. */
  lemma NextInv(s: Sys, e: Event, s': Sys)
    requires Inv(s) && Next(s, e, s')
    ensures Inv(s') && Evolves(s.db, s'.db)
  {
    match e
    case Start(spawn) => StartInv(s, spawn, s');
    case SetLimits(c, l, spawn) => SetLimitsInv(s, c, l, spawn, s');
    case Submit(jobs, stamp) => SubmitInv(s, jobs, stamp, s');
    case SubmitProposal(p, c, jobs, stamp) => ProposalInv(s, p, c, jobs, stamp, s');
    case Shutdown => ShutdownInv(s, s');
    case Cancel(c) => CancelNextInv(s, c, s');
    case Worker(w, we) => WorkerNextInv(s, w, we, s');
    case Crash => CrashInv(s, s');
    case Rebuild(id, r, fault) => RebuildInv(s, id, r, fault, s');
    case Recover(c, l) => RecoverInv(s, c, l, s');
  }
}
