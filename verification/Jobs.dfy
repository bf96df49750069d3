/** The durable job table: rows, conditional state transitions, derived batch state and restart recovery. */
module Jobs {
  import opened Prelude

  type JobId = string

  datatype Kind = Export | Detection | LibraryScan

  datatype State = Queued | Running | Succeeded | Failed | Cancelled

  predicate Terminal(s: State) {
    s == Succeeded || s == Failed || s == Cancelled
  }

  predicate Active(s: State) {
    s == Queued || s == Running
  }

  function Rank(s: State): nat {
    if s == Queued then 0 else if s == Running then 1 else 2
  }

  datatype Job = Job(
    id: JobId, batch: string, kind: Kind, project: string, item: string,
    proposal: string, credential: string, request: string,
    state: State, result: Option<string>, error: Option<string>, created: nat)

  type Table = map<JobId, Job>

  /** jobs.id is the primary key. */
  ghost predicate Keyed(t: Table) {
    forall id <- t :: t[id].id == id
  }

  /** The partial unique index over (proposal_id, project_item_id). */
  ghost predicate ProposalItemsUnique(t: Table) {
    forall a, b {:trigger Clash(t[a], t[b])} :: a in t && b in t && Clash(t[a], t[b]) ==> a == b
  }

  predicate Clash(j: Job, k: Job) {
    j.proposal != "" && j.proposal == k.proposal && j.item == k.item
  }

  // ---------------------------------------------------------------- admission

  predicate SafeIdChar(c: char) {
    'A' <= c <= 'Z' || 'a' <= c <= 'z' || '0' <= c <= '9' || c == '_' || c == '-'
  }

  predicate ValidId(prefix: string, id: string) {
    && |prefix| <= |id| && id[..|prefix|] == prefix
    && 12 <= |id| - |prefix| <= 64
    && forall i :: |prefix| <= i < |id| ==> SafeIdChar(id[i])
  }

  predicate ValidNew(j: Job) {
    && ValidId("j_", j.id) && ValidId("b_", j.batch) && j.request != ""
    && (j.kind == LibraryScan <==> j.project == "" && j.item == "")
    && (j.kind != LibraryScan ==> j.project != "" && j.item != "")
  }

  function QueuedRow(j: Job, stamp: nat): Job {
    j.(state := Queued, result := None, error := None, created := stamp)
  }

  predicate InsertConflicts(t: Table, j: Job) {
    j.id in t || exists id <- t :: Clash(j, t[id])
  }

  /** The insert loop of one admission transaction; None means it rolled back. */
  function InsertAll(t: Table, jobs: seq<Job>, stamp: nat): (r: Option<Table>)
    decreases |jobs|
  {
    if jobs == [] then Some(t)
    else if !ValidNew(jobs[0]) || InsertConflicts(t, jobs[0]) then None
    else InsertAll(Inserted(t, jobs[0], stamp), jobs[1..], stamp)
  }

  ghost function ActiveIds(t: Table): set<JobId> {
    set id | id in t && Active(t[id].state)
  }

  ghost function ProposalIds(t: Table, p: string): set<JobId> {
    set id | id in t && t[id].proposal == p
  }

  ghost function BatchIds(t: Table, b: string): set<JobId> {
    set id | id in t && t[id].batch == b
  }

  ghost function NewIds(jobs: seq<Job>): set<JobId> {
    if jobs == [] then {} else {jobs[0].id} + NewIds(jobs[1..])
  }

  lemma {:induction false} NewIdsMember(jobs: seq<Job>, i: nat)
    requires i < |jobs|
    ensures jobs[i].id in NewIds(jobs)
  {
    if i > 0 {
      NewIdsMember(jobs[1..], i - 1);
    }
  }

  function Inserted(t: Table, j: Job, stamp: nat): (r: Table)
    ensures r.Keys == t.Keys + {j.id}
  {
    t[j.id := QueuedRow(j, stamp)]
  }

  lemma {:induction false} InsertAllKeys(t: Table, jobs: seq<Job>, stamp: nat)
    requires InsertAll(t, jobs, stamp).Some?
    ensures NewIds(jobs) !! t.Keys
    ensures InsertAll(t, jobs, stamp).value.Keys == t.Keys + NewIds(jobs)
    ensures |NewIds(jobs)| == |jobs|
    decreases |jobs|
  {
    if jobs == [] {
      assert InsertAll(t, jobs, stamp) == Some(t);
      assert t.Keys + NewIds(jobs) == t.Keys;
    } else {
      var id, t1, rest := jobs[0].id, Inserted(t, jobs[0], stamp), NewIds(jobs[1..]);
      assert id !in t.Keys;
      InsertAllKeys(t1, jobs[1..], stamp);
      assert InsertAll(t, jobs, stamp) == InsertAll(t1, jobs[1..], stamp);
      SplitKeys(t.Keys, id, rest, t1.Keys);
      assert NewIds(jobs) == {id} + rest;
    }
  }

  lemma SplitKeys(before: set<JobId>, id: JobId, rest: set<JobId>, mid: set<JobId>)
    requires mid == before + {id} && id !in before && rest !! mid
    ensures {id} + rest !! before && mid + rest == before + ({id} + rest) && |{id} + rest| == 1 + |rest|
  {}

  lemma {:induction false} InsertAllKeepsRow(t: Table, jobs: seq<Job>, stamp: nat, id: JobId)
    requires InsertAll(t, jobs, stamp).Some? && id in t
    ensures id in InsertAll(t, jobs, stamp).value && InsertAll(t, jobs, stamp).value[id] == t[id]
    decreases |jobs|
  {
    if jobs != [] {
      InsertAllKeepsRow(Inserted(t, jobs[0], stamp), jobs[1..], stamp, id);
    }
  }

  /** An admitted batch adds exactly its own rows, all queued, and leaves every old row alone. */
  lemma InsertAllAddsExactly(t: Table, jobs: seq<Job>, stamp: nat)
    requires InsertAll(t, jobs, stamp).Some?
    ensures var t' := InsertAll(t, jobs, stamp).value;
      && NewIds(jobs) !! t.Keys
      && t'.Keys == t.Keys + NewIds(jobs)
      && (forall id <- t :: t'[id] == t[id])
      && |NewIds(jobs)| == |jobs|
  {
    InsertAllKeys(t, jobs, stamp);
    forall id | id in t ensures InsertAll(t, jobs, stamp).value[id] == t[id] {
      InsertAllKeepsRow(t, jobs, stamp, id);
    }
  }

  /** Row i of the admitted batch is request i in the queued state. */
  lemma {:induction false} InsertAllRow(t: Table, jobs: seq<Job>, stamp: nat, i: nat)
    requires InsertAll(t, jobs, stamp).Some? && i < |jobs|
    ensures jobs[i].id in InsertAll(t, jobs, stamp).value
    ensures InsertAll(t, jobs, stamp).value[jobs[i].id] == jobs[i].(state := Queued, result := None, error := None, created := stamp)
    ensures ValidNew(jobs[i])
    decreases |jobs|
  {
    var t1 := Inserted(t, jobs[0], stamp);
    if i == 0 {
      InsertAllAddsExactly(t1, jobs[1..], stamp);
      assert jobs[0].id in t1;
    } else {
      InsertAllRow(t1, jobs[1..], stamp, i - 1);
    }
  }

  /** Every row that admission adds comes from some request of the batch. */
  lemma {:induction false} InsertAllOrigin(t: Table, jobs: seq<Job>, stamp: nat, id: JobId) returns (i: nat)
    requires InsertAll(t, jobs, stamp).Some?
    requires id in InsertAll(t, jobs, stamp).value && id !in t
    ensures i < |jobs| && jobs[i].id == id
    ensures InsertAll(t, jobs, stamp).value[id] == QueuedRow(jobs[i], stamp)
    decreases |jobs|
  {
    if jobs == [] {
      assert false;
    } else {
      if id == jobs[0].id {
        i := 0;
        InsertAllRow(t, jobs, stamp, 0);
      } else {
        i := InsertAllOrigin(Inserted(t, jobs[0], stamp), jobs[1..], stamp, id);
        i := i + 1;
      }
    }
  }

  predicate SameProposalItem(j: Job, k: Job) {
    j.proposal != "" && k.proposal == j.proposal && k.item == j.item
  }

  /** Every job is well formed, new, and names no proposal item twice, neither in the table nor in the batch. */
  ghost predicate BatchFits(t: Table, jobs: seq<Job>) {
    && (forall i :: 0 <= i < |jobs| ==> ValidNew(jobs[i]) && jobs[i].id !in t)
    && (forall i :: 0 <= i < |jobs| ==> forall id <- t :: !SameProposalItem(jobs[i], t[id]))
    && (forall i, j :: 0 <= i < j < |jobs| ==> jobs[i].id != jobs[j].id && !SameProposalItem(jobs[i], jobs[j]))
  }

  lemma FitsHead(t: Table, jobs: seq<Job>, stamp: nat)
    requires jobs != []
    ensures BatchFits(t, jobs) <==>
      ValidNew(jobs[0]) && !InsertConflicts(t, jobs[0]) && BatchFits(Inserted(t, jobs[0], stamp), jobs[1..])
  {
    hide ValidNew;
    var j, rest, t1 := jobs[0], jobs[1..], Inserted(t, jobs[0], stamp);
    if BatchFits(t, jobs) {
      assert forall i :: 0 <= i < |rest| ==> rest[i] == jobs[i + 1];
      assert forall i, k :: 0 <= i < k < |rest| ==> rest[i].id != rest[k].id && !SameProposalItem(rest[i], rest[k]);
    }
    if ValidNew(j) && !InsertConflicts(t, j) && BatchFits(t1, rest) {
      assert t1[j.id] == QueuedRow(j, stamp);
      forall i | 0 <= i < |jobs| ensures ValidNew(jobs[i]) && jobs[i].id !in t && forall id <- t :: !SameProposalItem(jobs[i], t[id]) {
        if i > 0 {
          assert rest[i - 1] == jobs[i];
          assert forall id <- t :: t1[id] == t[id];
        }
      }
      forall i, k | 0 <= i < k < |jobs| ensures jobs[i].id != jobs[k].id && !SameProposalItem(jobs[i], jobs[k]) {
        assert rest[k - 1] == jobs[k];
        if i > 0 { assert rest[i - 1] == jobs[i]; }
      }
    }
  }

  /** The transaction commits exactly when the whole batch fits. */
  lemma {:induction false} InsertAllIff(t: Table, jobs: seq<Job>, stamp: nat)
    ensures InsertAll(t, jobs, stamp).Some? <==> BatchFits(t, jobs)
    decreases |jobs|
  {
    if jobs != [] {
      FitsHead(t, jobs, stamp);
      InsertAllIff(Inserted(t, jobs[0], stamp), jobs[1..], stamp);
    }
  }

  /** The primary key and the proposal index survive admission. */
  lemma {:induction false} InsertAllKeepsKeys(t: Table, jobs: seq<Job>, stamp: nat)
    requires Keyed(t) && ProposalItemsUnique(t)
    requires InsertAll(t, jobs, stamp).Some?
    ensures Keyed(InsertAll(t, jobs, stamp).value) && ProposalItemsUnique(InsertAll(t, jobs, stamp).value)
    decreases |jobs|
  {
    if jobs != [] {
      var t1 := Inserted(t, jobs[0], stamp);
      forall a, b | a in t1 && b in t1 && Clash(t1[a], t1[b]) ensures a == b {
        assert a in t && b in t ==> Clash(t[a], t[b]);
        assert a in t ==> Clash(jobs[0], t[a]) == Clash(t1[a], jobs[0]);
        assert b in t ==> Clash(jobs[0], t[b]) == Clash(jobs[0], t1[b]);
      }
      InsertAllKeepsKeys(t1, jobs[1..], stamp);
    }
  }

  /** Admission accounting: queued-plus-running grows by exactly the batch size. */
  lemma InsertAllCounts(t: Table, jobs: seq<Job>, stamp: nat)
    requires InsertAll(t, jobs, stamp).Some?
    ensures |ActiveIds(InsertAll(t, jobs, stamp).value)| == |ActiveIds(t)| + |jobs|
    ensures Evolves(t, InsertAll(t, jobs, stamp).value)
  {
    var t' := InsertAll(t, jobs, stamp).value;
    InsertAllAddsExactly(t, jobs, stamp);
    forall id | id in NewIds(jobs) ensures t'[id].state == Queued {
      var i := InsertAllOrigin(t, jobs, stamp, id);
    }
    assert ActiveIds(t') == ActiveIds(t) + NewIds(jobs);
    assert ActiveIds(t) !! NewIds(jobs);
  }

  // -------------------------------------------------------------- transitions

  /** Where one durable write can fail: not at all, before it commits, or in the read-back after it committed. */
  datatype Fault = NoFault | BeforeCommit | AfterCommit

  datatype Reply = Done(job: Job) | NotFound | WrongState | Unavailable

  function Write(j: Job, to: State, result: Option<string>, code: Option<string>): Job {
    j.(state := to, result := result, error := code)
  }

  /** One conditional UPDATE followed by a read-back. */
  function Transition(t: Table, id: JobId, from: State, to: State,
                      result: Option<string>, code: Option<string>, fault: Fault): (Table, Reply)
  {
    if fault == BeforeCommit then (t, Unavailable)
    else if id in t && t[id].state == from then
      var t' := t[id := Write(t[id], to, result, code)];
      (t', if fault == AfterCommit then Unavailable else Done(t'[id]))
    else if fault == AfterCommit then (t, Unavailable)
    else if id !in t then (t, NotFound)
    else (t, WrongState)
  }

  /** The restart sweep: whatever is still running was interrupted. */
  function Recovered(t: Table): Table {
    map id | id in t :: if t[id].state == Running then Write(t[id], Failed, t[id].result, Some("interrupted_by_restart")) else t[id]
  }

  /** The restart sweep fails exactly the running rows, with the code that says why, and leaves all others alone. */
  lemma RecoveredMeans(t: Table, id: JobId)
    ensures id in Recovered(t) <==> id in t
    ensures id in t ==> Recovered(t)[id].state != Running
    ensures id in t && t[id].state != Running ==> Recovered(t)[id] == t[id]
    ensures id in t && t[id].state == Running ==> Recovered(t)[id] == t[id].(state := Failed, error := Some("interrupted_by_restart"))
  {}

  /** History order on tables: no row vanishes or changes identity, states only move forward, and
      a terminal row is frozen in every field. */
  ghost predicate Evolves(t: Table, t': Table) {
    forall id <- t ::
      && id in t'
      && t'[id] == t[id].(state := t'[id].state, result := t'[id].result, error := t'[id].error)
      && Rank(t[id].state) <= Rank(t'[id].state)
      && (Terminal(t[id].state) ==> t'[id] == t[id])
  }

  lemma EvolvesTransitive(a: Table, b: Table, c: Table)
    requires Evolves(a, b) && Evolves(b, c)
    ensures Evolves(a, c)
  {
    forall id | id in a
      ensures id in c && Rank(a[id].state) <= Rank(c[id].state)
      ensures c[id] == a[id].(state := c[id].state, result := c[id].result, error := c[id].error)
      ensures Terminal(a[id].state) ==> c[id] == a[id]
    {
      assert id in b;
    }
  }

  /** A transition between an active state and a later one is a legal piece of history, whatever fault it meets. */
  lemma TransitionEvolves(t: Table, id: JobId, from: State, to: State,
                          result: Option<string>, code: Option<string>, fault: Fault)
    requires Keyed(t) && Active(from) && Rank(from) <= Rank(to)
    ensures var t' := Transition(t, id, from, to, result, code, fault).0; Evolves(t, t') && Keyed(t')
  {
    hide Evolves, Keyed, Write;
    EvolvesNowhere(t);
    if id in t && t[id].state == from {
      WriteEvolves(t, id, to, result, code);
    }
  }

  lemma EvolvesNowhere(t: Table)
    ensures Evolves(t, t)
  {}

  lemma WriteEvolves(t: Table, id: JobId, to: State, result: Option<string>, code: Option<string>)
    requires Keyed(t) && id in t && Active(t[id].state) && Rank(t[id].state) <= Rank(to)
    ensures var t' := t[id := Write(t[id], to, result, code)]; Evolves(t, t') && Keyed(t')
  {}

  // ------------------------------------------------------------- batch status

  ghost function TerminalIds(t: Table, b: string): set<JobId> {
    set id | id in t && t[id].batch == b && Terminal(t[id].state)
  }

  ghost predicate HasState(t: Table, b: string, s: State) {
    exists id <- t :: t[id].batch == b && t[id].state == s
  }

  /** Derived batch state, as the aggregate query computes it. */
  ghost function BatchState(t: Table, b: string): State {
    if |TerminalIds(t, b)| == |BatchIds(t, b)| then
      if HasState(t, b, Failed) then Failed else if HasState(t, b, Cancelled) then Cancelled else Succeeded
    else if HasState(t, b, Running) then Running
    else Queued
  }

  ghost function Progress(t: Table, b: string): real
    requires BatchIds(t, b) != {}
  {
    |TerminalIds(t, b)| as real / |BatchIds(t, b)| as real
  }

  lemma AllTerminal(t: Table, b: string)
    ensures |TerminalIds(t, b)| == |BatchIds(t, b)| <==> TerminalIds(t, b) == BatchIds(t, b)
  {
    var d := BatchIds(t, b) - TerminalIds(t, b);
    assert TerminalIds(t, b) + d == BatchIds(t, b);
    assert |BatchIds(t, b)| == |TerminalIds(t, b)| + |d|;
  }

  /** A batch reads terminal exactly when every child is; then any failed child makes it failed, any cancelled one
      cancelled, and only all succeeded children make it succeeded.  Before that it reads running exactly while a child is.
      Progress is the share of terminal children. */
  lemma BatchStateMeaning(t: Table, b: string)
    requires BatchIds(t, b) != {}
    ensures var all, state := forall id <- t :: t[id].batch == b ==> Terminal(t[id].state), BatchState(t, b);
      && (Terminal(state) <==> all)
      && (state == Succeeded <==> forall id <- t :: t[id].batch == b ==> t[id].state == Succeeded)
      && (state == Failed <==> all && exists id <- t :: t[id].batch == b && t[id].state == Failed)
      && (state == Cancelled <==> all && (exists id <- t :: t[id].batch == b && t[id].state == Cancelled) && forall id <- t :: t[id].batch == b ==> t[id].state != Failed)
      && (state == Running <==> !all && exists id <- t :: t[id].batch == b && t[id].state == Running)
    ensures 0.0 <= Progress(t, b) <= 1.0 && (Progress(t, b) == 1.0 <==> Terminal(BatchState(t, b)))
    ensures Progress(t, b) * |set id | id in t && t[id].batch == b| as real == |set id | id in t && t[id].batch == b && Terminal(t[id].state)| as real
  {
    AllTerminal(t, b);
    TerminalShare(t, b);
    if forall id <- t :: t[id].batch == b ==> Terminal(t[id].state) {
      assert TerminalIds(t, b) == BatchIds(t, b);
    }
    if TerminalIds(t, b) == BatchIds(t, b) {
      forall id | id in t && t[id].batch == b ensures Terminal(t[id].state) {
        assert id in BatchIds(t, b);
        assert id in TerminalIds(t, b);
      }
    }
    hide Progress;
  }

  lemma TerminalShare(t: Table, b: string)
    requires BatchIds(t, b) != {}
    ensures |BatchIds(t, b)| > 0 && Progress(t, b) * |BatchIds(t, b)| as real == |TerminalIds(t, b)| as real
    ensures 0.0 <= Progress(t, b) <= 1.0 && (Progress(t, b) == 1.0 <==> |TerminalIds(t, b)| == |BatchIds(t, b)|)
  {
    assert TerminalIds(t, b) <= BatchIds(t, b);
    SubsetSize(TerminalIds(t, b), BatchIds(t, b));
    Share(|TerminalIds(t, b)|, |BatchIds(t, b)|);
  }

  lemma Share(k: nat, n: nat)
    requires k <= n && n > 0
    ensures var q := k as real / n as real; q * n as real == k as real && 0.0 <= q <= 1.0 && (q == 1.0 <==> k == n)
  {}

  /** Over any history that adds no child to the batch, progress never decreases and a terminal verdict is final. */
  lemma BatchProgressMonotone(t: Table, t': Table, b: string)
    requires Evolves(t, t') && BatchIds(t, b) != {} && BatchIds(t', b) == BatchIds(t, b)
    ensures Progress(t, b) <= Progress(t', b)
    ensures Terminal(BatchState(t, b)) ==> BatchState(t', b) == BatchState(t, b) && Progress(t', b) == Progress(t, b)
  {
    assert TerminalIds(t, b) <= TerminalIds(t', b);
    SubsetSize(TerminalIds(t, b), TerminalIds(t', b));
    var n := |BatchIds(t, b)| as real;
    assert n > 0.0;
    DivideMonotone(|TerminalIds(t, b)| as real, |TerminalIds(t', b)| as real, n);
    if Terminal(BatchState(t, b)) {
      AllTerminal(t, b);
      AllTerminal(t', b);
      assert TerminalIds(t, b) == BatchIds(t, b);
      forall id | id in t && t[id].batch == b ensures t'[id] == t[id] {
        assert id in BatchIds(t, b);
      }
      forall id | id in t' && t'[id].batch == b ensures id in t && t[id].batch == b && t'[id] == t[id] {
        assert id in BatchIds(t', b);
      }
      assert TerminalIds(t', b) == TerminalIds(t, b);
      assert forall s: State :: HasState(t, b, s) <==> HasState(t', b, s);
    }
  }

  lemma DivideMonotone(x: real, y: real, n: real)
    requires x <= y && n > 0.0
    ensures x / n <= y / n
  {}
}
