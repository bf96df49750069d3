/** Concrete runs that end where the scheduler and its promises part: a cancelled job whose runner goes on, a store-level
    cancel refused for an active job, a running row that no worker owns, and a bound proposal that grows. */
module SchedulerWitness {
  import opened Prelude
  import opened Jobs
  import opened SchedulerModel
  import opened SchedulerInvariants
  import opened SchedulerTheorems

  const FIRST := "j_aaaaaaaaaaaa"
  const SECOND := "j_bbbbbbbbbbbb"

  function Request(id: JobId, item: string, proposal: string): Job {
    Job(id, "b_aaaaaaaaaaaa", Export, "p", item, proposal, if proposal == "" then "" else "c", "{}", Queued, None, None, 0)
  }

  lemma ValidRequests(item: string, proposal: string)
    requires item != ""
    ensures ValidNew(Request(FIRST, item, proposal)) && ValidNew(Request(SECOND, item, proposal)) && FIRST != SECOND
  {
    assert FIRST[..2] == "j_" && SECOND[..2] == "j_" && "b_aaaaaaaaaaaa"[..2] == "b_";
    assert FIRST[2] != SECOND[2];
  }

  lemma RunStep(states: seq<Sys>, events: seq<Event>, e: Event, s': Sys) returns (states': seq<Sys>, events': seq<Event>)
    requires IsRun(states, events) && Next(states[|events|], e, s')
    ensures |states| == |events| + 1 && states' == states + [s'] && events' == events + [e] && IsRun(states', events') && states'[|events'|] == s'
  {
    hide Next, Init;
    states', events' := states + [s'], events + [e];
    forall i | 0 <= i < |events'| ensures Next(states'[i], events'[i], states'[i + 1]) {
      if i < |events| {
        assert states'[i] == states[i] && states'[i + 1] == states[i + 1] && events'[i] == events[i];
      }
    }
  }

  function Down(): Sys {
    Sys(map[], 2, 1, false, false, false, 0, map[], map[], None, History(multiset{}, map[], map[], {}, {}))
  }

  function Up(): Sys { Down().(up := true) }

  lemma Boots() returns (states: seq<Sys>, events: seq<Event>)
    ensures IsRun(states, events) && states[|events|] == Up()
  {
    assert Recovered(map[]) == map[];
    assert Next(Down(), Event.Recover(2, 1), Up());
    assert IsRun([Down()], []);
    hide Next;
    states, events := RunStep([Down()], [], Event.Recover(2, 1), Up());
  }

  function Working(): Sys { Up().(started := true, workers := 1, ws := map[0 := Idle]) }

  function Waiting(): Sys { Working().(db := map[FIRST := Request(FIRST, "i", "")]) }

  lemma Admits(t: Table, j: Job)
    requires ValidNew(j) && !InsertConflicts(t, j) && j.state == Queued && j.result == None && j.error == None && j.created == 0
    ensures InsertAll(t, [j], 0) == Some(t[j.id := j])
  {
    assert [j][1..] == [];
    assert InsertAll(Inserted(t, j, 0), [], 0) == Some(Inserted(t, j, 0));
  }

  /** One worker, one queued job. */
  lemma Queues() returns (states: seq<Sys>, events: seq<Event>)
    ensures IsRun(states, events) && states[|events|] == Waiting()
  {
    var j := Request(FIRST, "i", "");
    ValidRequests("i", "");
    Admits(map[], j);
    hide ValidNew, InsertAll;
    assert Spawns(Up(), 1, {0}) && Spawned(map[], {0}) == map[0 := Idle];
    assert Next(Up(), Event.Start({0}), Working());
    assert ActiveIds(Working().db) == {};
    assert SubmitOutcome(Working(), [j], 0) == Admitted(Waiting().db);
    assert Next(Working(), Event.Submit([j], 0), Waiting());
    hide IsRun, Next;
    states, events := Boots();
    states, events := RunStep(states, events, Event.Start({0}), Working());
    states, events := RunStep(states, events, Event.Submit([j], 0), Waiting());
  }

  function Taken(): Sys {
    Waiting().(db := map[FIRST := Request(FIRST, "i", "").(state := Running)], ws := map[0 := Claimed(FIRST)])
  }

  lemma Claims(reported: bool)
    ensures Next(Waiting(), Worker(0, Claim(FIRST, reported)), if reported then Taken() else Taken().(ws := map[0 := Idle]))
  {
    assert IsNextQueued(Waiting().db, FIRST);
    assert Started(Waiting().db, FIRST) == Taken().db;
  }

  /** A store-level cancel that read the queued job before it was claimed is refused although the job is active. */
  lemma StoreCancelRefused() returns (states: seq<Sys>, events: seq<Event>, i: nat, id: JobId)
    ensures IsRun(states, events) && i < |events| && id in states[i].db && id in states[|events|].db
    ensures Active(states[i].db[id].state) && Active(states[|events|].db[id].state)
    ensures Transition(states[|events|].db, id, states[i].db[id].state, State.Cancelled, None, None, NoFault).1 == WrongState
  {
    Claims(true);
    hide IsRun, Next, Waiting, Taken, Transition;
    id := FIRST;
    states, events := Queues();
    i := |events|;
    states, events := RunStep(states, events, Worker(0, Claim(FIRST, true)), Taken());
    assert states[i] == Waiting() && states[|events|] == Taken();
    Refuses();
  }

  lemma Refuses()
    ensures FIRST in Waiting().db && FIRST in Taken().db && Active(Waiting().db[FIRST].state) && Active(Taken().db[FIRST].state)
    ensures Transition(Taken().db, FIRST, Waiting().db[FIRST].state, State.Cancelled, None, None, NoFault).1 == WrongState
  {
    assert Waiting().db[FIRST].state == Queued && Taken().db[FIRST].state == Running;
  }

  /** A claim whose commit was not reported: a running row, and nobody runs it. */
  lemma ClaimWithoutOwner() returns (states: seq<Sys>, events: seq<Event>, id: JobId)
    ensures IsRun(states, events)
    ensures var s := states[|events|]; s.up && id in s.db && s.db[id].state == Running && !Owned(s.ws, id)
  {
    Claims(false);
    var s := Taken().(ws := map[0 := Idle]);
    hide IsRun, Next;
    id := FIRST;
    states, events := Queues();
    states, events := RunStep(states, events, Worker(0, Claim(FIRST, false)), s);
  }

  function Entered(p: Phase, entered: bool): Sys {
    var t := Taken();
    t.(ws := map[0 := p], running := map[FIRST := 0], h := if entered then t.h.(entered := multiset{FIRST}) else t.h)
  }

  lemma Enters()
    ensures Next(Taken(), Worker(0, Register), Entered(Registered(FIRST, None), false))
    ensures Next(Entered(Registered(FIRST, None), false), Worker(0, Look(true)), Entered(Looked(FIRST, None, true), false))
    ensures Next(Entered(Looked(FIRST, None, true), false), Worker(0, Enter), Entered(InRunner(FIRST, None, None, false), true))
  {
    assert multiset{} + multiset{FIRST} == multiset{FIRST};
  }

  function Cancelling(): Sys {
    Entered(InRunner(FIRST, None, None, false), true).(cancelling := Some(Reading(FIRST, Running)))
  }

  function Lost(): Sys {
    var t := Cancelling();
    t.(cancelling := None, db := map[FIRST := Write(t.db[FIRST], State.Cancelled, None, None)], h := t.h.(silent := {FIRST}))
  }

  lemma Loses()
    ensures Next(Entered(InRunner(FIRST, None, None, false), true), Event.Cancel(CancelRead(FIRST)), Cancelling())
    ensures Next(Cancelling(), Event.Cancel(CancelWrite(AfterCommit)), Lost())
  {
    var t := Cancelling();
    assert t.db[FIRST].state != State.Cancelled && Lost().db[FIRST].state == State.Cancelled;
    assert {} + {FIRST} == {FIRST};
    assert CancelWriteStep(t, AfterCommit, Lost());
  }

  /** Scheduler.Cancel commits and fails in its read-back: the job is cancelled and its runner goes on undisturbed. */
  lemma RunnerGoesOn() returns (states: seq<Sys>, events: seq<Event>, w: WorkerId)
    ensures IsRun(states, events)
    ensures var s := states[|events|];
      w in s.ws && s.ws[w].InRunner? && Unstopped(s.ws[w]) && s.ws[w].id in s.db && s.db[s.ws[w].id].state == State.Cancelled
  {
    Claims(true);
    Enters();
    Loses();
    var s := Lost();
    assert 0 in s.ws && s.ws[0].InRunner? && Unstopped(s.ws[0]) && s.ws[0].id in s.db && s.db[s.ws[0].id].state == State.Cancelled;
    hide IsRun, Next, Waiting, Taken, Entered, Cancelling, Lost;
    w := 0;
    states, events := Queues();
    states, events := RunStep(states, events, Worker(0, Claim(FIRST, true)), Taken());
    states, events := RunStep(states, events, Worker(0, Register), Entered(Registered(FIRST, None), false));
    states, events := RunStep(states, events, Worker(0, Look(true)), Entered(Looked(FIRST, None, true), false));
    states, events := RunStep(states, events, Worker(0, Enter), Entered(InRunner(FIRST, None, None, false), true));
    states, events := RunStep(states, events, Event.Cancel(CancelRead(FIRST)), Cancelling());
    states, events := RunStep(states, events, Event.Cancel(CancelWrite(AfterCommit)), Lost());
  }

  function Proposed(): Sys { Up().(db := map[FIRST := Request(FIRST, "i", "q")]) }

  function Extended(): Sys { Up().(db := Proposed().db[SECOND := Request(SECOND, "k", "q")]) }

  lemma Proposes()
    ensures Next(Up(), Event.SubmitProposal("q", "c", [Request(FIRST, "i", "q")], 0), Proposed())
  {
    var j := Request(FIRST, "i", "q");
    ValidRequests("i", "q");
    Admits(map[], j);
    hide ValidNew, InsertAll;
    assert ActiveIds(Up().db) == {} && ProposalIds(Up().db, "q") == {};
    assert ProposalOutcome(Up(), "q", "c", [j], 0) == Fresh(Admitted(Proposed().db));
  }

  lemma Extends()
    ensures Next(Proposed(), Event.Submit([Request(SECOND, "k", "q")], 0), Extended())
  {
    var j := Request(SECOND, "k", "q");
    ValidRequests("k", "q");
    assert "i"[0] != "k"[0];
    Admits(Proposed().db, j);
    hide ValidNew, InsertAll;
    assert ActiveIds(Proposed().db) == {FIRST};
    assert SubmitOutcome(Proposed(), [j], 0) == Admitted(Extended().db);
  }

  /** A proposal bound to one job; a plain submission that names it adds a second. */
  lemma BoundProposalGrows() returns (states: seq<Sys>, events: seq<Event>, i: nat, p: string)
    ensures IsRun(states, events) && i < |events|
    ensures ProposalIds(states[i].db, p) != {} && ProposalIds(states[|events|].db, p) != ProposalIds(states[i].db, p)
  {
    Proposes();
    Extends();
    ValidRequests("i", "q");
    p := "q";
    assert FIRST in ProposalIds(Proposed().db, p) && SECOND in ProposalIds(Extended().db, p) && SECOND !in ProposalIds(Proposed().db, p);
    hide IsRun, Next, Proposed, Extended;
    states, events := Boots();
    states, events := RunStep(states, events, Event.SubmitProposal("q", "c", [Request(FIRST, "i", "q")], 0), Proposed());
    i := |events|;
    states, events := RunStep(states, events, Event.Submit([Request(SECOND, "k", "q")], 0), Extended());
  }
}
