/** What the scheduler guarantees over whole runs, restarts included. */
module SchedulerTheorems {
  import opened Prelude
  import opened Jobs
  import opened SchedulerModel
  import opened SchedulerInvariants

  lemma {:induction false} RunInv(states: seq<Sys>, events: seq<Event>, i: nat)
    requires IsRun(states, events) && i < |states|
    ensures Inv(states[i])
  {
    if i == 0 {
      InitInv(states[0]);
    } else {
      RunInv(states, events, i - 1);
      NextInv(states[i - 1], events[i - 1], states[i]);
    }
  }

  lemma StepAt(states: seq<Sys>, events: seq<Event>, k: nat)
    requires IsRun(states, events) && k < |events|
    ensures Inv(states[k]) && Next(states[k], events[k], states[k + 1]) && Evolves(states[k].db, states[k + 1].db)
  {
    RunInv(states, events, k);
    NextInv(states[k], events[k], states[k + 1]);
  }

  lemma EvolvesReflexive(t: Table)
    ensures Evolves(t, t)
  {}

  /** History is never rewritten: between any two points of a run, across crashes and restarts, rows keep
      their identity, states only move forward and a terminal row is frozen with its result and error. */
  lemma {:induction false} RunEvolves(states: seq<Sys>, events: seq<Event>, i: nat, j: nat)
    requires IsRun(states, events) && i <= j < |states|
    ensures Evolves(states[i].db, states[j].db)
    decreases j - i
  {
    hide Inv, Next, Evolves, Init;
    if i < j {
      StepAt(states, events, j - 1);
      RunEvolves(states, events, i, j - 1);
      EvolvesTransitive(states[i].db, states[j - 1].db, states[j].db);
    } else {
      EvolvesReflexive(states[i].db);
    }
  }

  /** Whatever the interleaving, the faults and the restarts, no job's runner is entered twice. */
  lemma RunnerEnteredAtMostOnce(states: seq<Sys>, events: seq<Event>, i: nat, id: JobId)
    requires IsRun(states, events) && i < |states|
    ensures states[i].h.entered[id] <= 1
  {
    RunInv(states, events, i);
  }

  /** A succeeded row carries the result its runner produced or the one recovery rebuilt: the scheduler's
      own placeholder never reaches the table. */
  lemma SucceededCarriesItsResult(states: seq<Sys>, events: seq<Event>, i: nat, id: JobId)
    requires IsRun(states, events) && i < |states|
    requires id in states[i].db && states[i].db[id].state == Succeeded
    ensures Carries(states[i].h, id, states[i].db[id].result)
  {
    RunInv(states, events, i);
  }

  /** Batch progress never decreases over a run that adds no child, and a terminal verdict is final. */
  lemma RunBatchProgress(states: seq<Sys>, events: seq<Event>, i: nat, j: nat, b: string)
    requires IsRun(states, events) && i <= j < |states|
    requires BatchIds(states[i].db, b) != {} && BatchIds(states[j].db, b) == BatchIds(states[i].db, b)
    ensures Progress(states[i].db, b) <= Progress(states[j].db, b)
    ensures Terminal(BatchState(states[i].db, b)) ==> BatchState(states[j].db, b) == BatchState(states[i].db, b)
  {
    RunEvolves(states, events, i, j);
    BatchProgressMonotone(states[i].db, states[j].db, b);
  }

  // ------------------------------------------------------------ cancellation

  /** Once Scheduler.Cancel has returned success for a job, nobody is running it, or about to run it, on an
      uncancelled context. */
  lemma AcknowledgedCancelIsNeverLost(states: seq<Sys>, events: seq<Event>, i: nat, w: WorkerId)
    requires IsRun(states, events) && i < |states| && w in states[i].ws && HasJob(states[i].ws[w])
    requires states[i].ws[w].id in states[i].h.notified
    ensures !Unstopped(states[i].ws[w]) && Settled(states[i].db, states[i].ws[w].id)
  {
    RunInv(states, events, i);
    assert PhaseOk(states[i].db, states[i].cancelling, states[i].h, states[i].stopped, states[i].ws[w]);
  }

  /** A runner that goes on for a job already cancelled in the table was cancelled silently: by the store-level
      call, or by a Scheduler.Cancel whose read-back failed after its write had committed. */
  lemma LostCancelWasSilent(states: seq<Sys>, events: seq<Event>, i: nat, w: WorkerId)
    requires IsRun(states, events) && i < |states| && w in states[i].ws && MuFree(states[i])
    requires states[i].ws[w].InRunner? && states[i].ws[w].cause.None?
    requires states[i].ws[w].id in states[i].db && states[i].db[states[i].ws[w].id].state == State.Cancelled
    ensures states[i].ws[w].id in states[i].h.silent
  {
    RunInv(states, events, i);
    assert PhaseOk(states[i].db, states[i].cancelling, states[i].h, states[i].stopped, states[i].ws[w]);
  }

  /** Scheduler.Cancel run to its end while the mutex is held. */
  ghost predicate CancelCall(s: Sys, id: JobId, fault: Fault, s1: Sys, s2: Sys, s3: Sys) {
    && CancelReadStep(s, id, s1) && CancelWriteStep(s1, fault, s2)
    && (if s2.cancelling.Some? then CancelFinishStep(s2, s3) else s3 == s2)
  }

  /** Cancelling a running job commits unless the write itself fails.  Wherever the worker that holds the job stands, its
      context is cancelled, if it has one that is still uncancelled, exactly when the read-back succeeds too; otherwise
      a worker that was in the runner or about to enter it goes on. */
  lemma CancelReachesContextIff(s: Sys, w: WorkerId, id: JobId, fault: Fault, s1: Sys, s2: Sys, s3: Sys)
    requires Inv(s) && w in s.ws && HasJob(s.ws[w]) && s.ws[w].id == id && s.db[id].state == Running
    requires CancelCall(s, id, fault, s1, s2, s3)
    ensures id in s3.db && w in s3.ws && (s3.db[id].state == State.Cancelled <==> fault != BeforeCommit)
    ensures if HasContext(s.ws[w]) && s.ws[w].cause.None? then HasContext(s3.ws[w]) && (s3.ws[w].cause == Some(ByUser) <==> fault == NoFault)
            else s3.ws[w] == s.ws[w]
    ensures Unstopped(s3.ws[w]) <==> Unstopped(s.ws[w]) && fault != NoFault
    ensures id in s3.h.silent <==> id in s.h.silent || fault == AfterCommit
  {
    assert HasContext(s.ws[w]) ==> s.running[id] == w;
    assert id in s.running ==> s.running[id] in s.ws && SameJob(s.ws[s.running[id]], s.ws[w]);
  }

  /** Nobody is about to enter the runner of job id, and nobody has. */
  ghost predicate NotEntering(s: Sys, id: JobId) {
    id !in s.h.entered && forall w <- s.ws :: s.ws[w].Looked? && s.ws[w].id == id ==> !s.ws[w].live
  }

  /** A committed cancellation is not lost on a worker that has yet to look at the row, whether or not it reached the
      context: a job that turns terminal between claim and look never enters its runner, in this process or a later one. */
  lemma CancelledBeforeLookNeverEnters(states: seq<Sys>, events: seq<Event>, i: nat, k: nat, w: WorkerId)
    requires IsRun(states, events) && i <= k < |states| && w in states[i].ws
    requires states[i].ws[w].Claimed? || states[i].ws[w].Registered?
    requires states[i].ws[w].id in states[i].db && Terminal(states[i].db[states[i].ws[w].id].state)
    ensures states[i].ws[w].id !in states[k].h.entered
  {
    RunInv(states, events, i);
    NobodyElseEnters(states[i], w);
    hide Inv, IsRun;
    StaysOut(states, events, i, k, states[i].ws[w].id);
  }

  lemma NobodyElseEnters(s: Sys, w: WorkerId)
    requires Inv(s) && w in s.ws && (s.ws[w].Claimed? || s.ws[w].Registered?)
    ensures NotEntering(s, s.ws[w].id)
  {
    assert PhaseOk(s.db, s.cancelling, s.h, s.stopped, s.ws[w]);
    forall v | v in s.ws && s.ws[v].Looked? ensures s.ws[v].id != s.ws[w].id {
      assert !SameJob(s.ws[v], s.ws[w]);
    }
  }

  lemma {:induction false} StaysOut(states: seq<Sys>, events: seq<Event>, i: nat, k: nat, id: JobId)
    requires IsRun(states, events) && i <= k < |states|
    requires id in states[i].db && Terminal(states[i].db[id].state) && NotEntering(states[i], id)
    ensures NotEntering(states[k], id) && id in states[k].db && Terminal(states[k].db[id].state)
    decreases k
  {
    hide Inv, Next, Evolves, NotEntering, Init;
    if i < k {
      StaysOut(states, events, i, k - 1, id);
      StepAt(states, events, k - 1);
      TerminalStays(states[k - 1].db, states[k].db, id);
      NotEnteringStep(states[k - 1], events[k - 1], states[k], id);
    }
  }

  lemma TerminalStays(t: Table, t': Table, id: JobId)
    requires Evolves(t, t') && id in t && Terminal(t[id].state)
    ensures id in t' && t'[id] == t[id]
  {}

  lemma NotEnteringStep(s: Sys, e: Event, s': Sys, id: JobId)
    requires Next(s, e, s') && id in s.db && Terminal(s.db[id].state) && NotEntering(s, id)
    ensures NotEntering(s', id)
  {
    hide CancelNext, WorkerNext, NotEntering, SubmitStep, ProposalStep, RebuildStep, StartStep, SetLimitsStep, ShutdownStep, CrashStep, RecoverStep;
    match e
    case Worker(w, we) => NotEnteringWorker(s, w, we, s', id);
    case Cancel(c) => NotEnteringCancel(s, c, s', id);
    case Start(spawn) => NotEnteringStart(s, spawn, s', id);
    case SetLimits(c, l, spawn) => NotEnteringLimits(s, c, l, spawn, s', id);
    case Shutdown => NotEnteringShutdown(s, s', id);
    case _ => NotEnteringOther(s, e, s', id);
  }

  lemma NotEnteringStart(s: Sys, spawn: set<WorkerId>, s': Sys, id: JobId)
    requires StartStep(s, spawn, s') && NotEntering(s, id)
    ensures NotEntering(s', id)
  {}

  lemma NotEnteringLimits(s: Sys, c: int, l: int, spawn: set<WorkerId>, s': Sys, id: JobId)
    requires SetLimitsStep(s, c, l, spawn, s') && NotEntering(s, id)
    ensures NotEntering(s', id)
  {}

  lemma NotEnteringShutdown(s: Sys, s': Sys, id: JobId)
    requires ShutdownStep(s, s') && NotEntering(s, id)
    ensures NotEntering(s', id)
  {}

  lemma NotEnteringOther(s: Sys, e: Event, s': Sys, id: JobId)
    requires Next(s, e, s') && NotEntering(s, id)
    requires e.Submit? || e.SubmitProposal? || e.Crash? || e.Rebuild? || e.Recover?
    ensures NotEntering(s', id)
  {
    hide InsertAll, CancelNext, WorkerNext, StartStep, SetLimitsStep, ShutdownStep;
    assert s'.ws == s.ws || s'.ws == map[];
  }

  lemma NotEnteringCancel(s: Sys, e: CancelEvent, s': Sys, id: JobId)
    requires CancelNext(s, e, s') && NotEntering(s, id)
    ensures NotEntering(s', id)
  {}

  lemma NotEnteringWorker(s: Sys, w: WorkerId, e: WorkerEvent, s': Sys, id: JobId)
    requires WorkerNext(s, w, e, s') && id in s.db && Terminal(s.db[id].state) && NotEntering(s, id)
    ensures NotEntering(s', id)
  {}

  /** Scheduler.Cancel answers "invalid transition" only for a job that is already terminal. */
  lemma CancelRefusesOnlyTerminal(states: seq<Sys>, events: seq<Event>, i: nat, fault: Fault)
    requires IsRun(states, events) && i < |states|
    requires states[i].cancelling.Some? && states[i].cancelling.value.Reading?
    requires var c := states[i].cancelling.value;
      Transition(states[i].db, c.id, c.seen, State.Cancelled, None, None, fault).1 == WrongState
    ensures Terminal(states[i].db[states[i].cancelling.value.id].state)
  {
    RunInv(states, events, i);
  }

  /** The store-level call, made outside the mutex, has no such guarantee: of two points of a run, one where it reads
      an active row and a later one where it writes with the row still active, it answers "invalid transition" exactly
      when the queued job was claimed in between. */
  lemma StoreCancelRefusesActiveIff(states: seq<Sys>, events: seq<Event>, i: nat, k: nat, id: JobId)
    requires IsRun(states, events) && i <= k < |states|
    requires id in states[i].db && Active(states[i].db[id].state) && id in states[k].db && Active(states[k].db[id].state)
    ensures Transition(states[k].db, id, states[i].db[id].state, State.Cancelled, None, None, NoFault).1 == WrongState <==>
              states[i].db[id].state == Queued && states[k].db[id].state == Running
  {
    hide IsRun;
    RunEvolves(states, events, i, k);
  }

  // ------------------------------------------------------------- batches

  /** One Cancel of the batch loop was answered at this step: done, or refused as already terminal, which the read or the
      write may find. */
  ghost predicate Answered(s: Sys, e: Event, id: JobId) {
    && id in s.db
    && (Terminal(s.db[id].state) ||
        (e.Cancel? && e.c.CancelWrite? && s.cancelling.Some? && s.cancelling.value.Reading? && s.cancelling.value.id == id
         && var reply := Transition(s.db, id, s.cancelling.value.seen, State.Cancelled, None, None, e.c.fault).1; reply.Done? || reply.WrongState?))
  }

  /** CancelBatch under any interleaving: it reads the active jobs of the batch and cancels them one by one, ignoring
      those that somebody else settled first.  When it answers success every job it read is terminal, and stays so. */
  lemma BatchCancelSettles(states: seq<Sys>, events: seq<Event>, a: nat, b: nat, batch: string, answers: map<JobId, nat>)
    requires IsRun(states, events) && a <= b < |states|
    requires answers.Keys == ToCancel(states[a].db, batch)
    requires forall id <- answers :: a <= answers[id] < b && Answered(states[answers[id]], events[answers[id]], id)
    ensures forall id <- ToCancel(states[a].db, batch) :: id in states[b].db && Terminal(states[b].db[id].state)
  {
    hide Inv, Next, Evolves, Init, Transition;
    forall id | id in ToCancel(states[a].db, batch) ensures id in states[b].db && Terminal(states[b].db[id].state) {
      var k := answers[id];
      StepAt(states, events, k);
      AnsweredSettles(states[k], events[k], states[k + 1], id);
      RunEvolves(states, events, k + 1, b);
      TerminalStays(states[k + 1].db, states[b].db, id);
    }
  }

  lemma AnsweredSettles(s: Sys, e: Event, s': Sys, id: JobId)
    requires Inv(s) && Next(s, e, s') && Evolves(s.db, s'.db) && Answered(s, e, id)
    ensures id in s'.db && Terminal(s'.db[id].state)
  {
    if Terminal(s.db[id].state) {
      TerminalStays(s.db, s'.db, id);
    } else {
      assert CancelNext(s, e.c, s');
      hide Next;
    }
  }

  // ---------------------------------------------------------------- shutdown

  /** Nothing is claimed once the scheduler is stopped: no row starts running and no worker takes a job. */
  lemma NoClaimAfterStop(s: Sys, e: Event, s': Sys)
    requires Inv(s) && Next(s, e, s') && s.stopped
    ensures forall id <- s.db :: s.db[id].state == Queued ==> id in s'.db && (s'.db[id].state == Queued || s'.db[id].state == State.Cancelled)
    ensures forall w <- s'.ws :: HasJob(s'.ws[w]) ==> w in s.ws && HasJob(s.ws[w]) && s'.ws[w].id == s.ws[w].id
  {
    match e
    case Submit(jobs, stamp) =>
    case SubmitProposal(p, c, jobs, stamp) =>
    case Worker(w, we) => WorkerAfterStop(s, w, we, s');
    case Cancel(c) => CancelAfterStop(s, c, s');
    case _ =>
  }

  lemma WorkerAfterStop(s: Sys, w: WorkerId, e: WorkerEvent, s': Sys)
    requires WorkerNext(s, w, e, s') && s.stopped
    ensures forall id <- s.db :: s.db[id].state == Queued ==> id in s'.db && s'.db[id].state == Queued
    ensures forall v <- s'.ws :: HasJob(s'.ws[v]) ==> v in s.ws && HasJob(s.ws[v]) && s'.ws[v].id == s.ws[v].id
  {}

  lemma CancelAfterStop(s: Sys, e: CancelEvent, s': Sys)
    requires InvRunning(s.ws, s.running) && CancelNext(s, e, s')
    ensures forall id <- s.db :: s.db[id].state == Queued ==> id in s'.db && (s'.db[id].state == Queued || s'.db[id].state == State.Cancelled)
    ensures forall v <- s'.ws :: HasJob(s'.ws[v]) ==> v in s.ws && HasJob(s.ws[v]) && s'.ws[v].id == s.ws[v].id
  {
    if e.CancelFinish? { NotifiedContexts(s.ws, s.running, s.cancelling.value.id); }
  }

  /** A worker's context, if it has one for the job, was cancelled by shutdown. */
  predicate StoppedFor(p: Phase, id: JobId) {
    HasContext(p) && p.id == id ==> p.cause == Some(ByShutdown)
  }

  lemma StoppedForStays(s: Sys, e: Event, s': Sys, w: WorkerId, id: JobId)
    requires (!s.up ==> !s.stopped) && InvRunning(s.ws, s.running) && Next(s, e, s') && !e.Crash? && s.stopped
    requires w in s.ws ==> StoppedFor(s.ws[w], id)
    ensures s'.stopped && (w in s'.ws ==> StoppedFor(s'.ws[w], id))
  {
    match e
    case Worker(v, we) => WorkerKeepsStopped(s, v, we, s', w, id);
    case Cancel(c) => if c.CancelFinish? { NotifiedContexts(s.ws, s.running, s.cancelling.value.id); }
    case _ =>
  }

  lemma WorkerKeepsStopped(s: Sys, v: WorkerId, e: WorkerEvent, s': Sys, w: WorkerId, id: JobId)
    requires WorkerNext(s, v, e, s') && s.stopped
    requires w in s.ws ==> StoppedFor(s.ws[w], id)
    ensures s'.stopped && (w in s'.ws ==> StoppedFor(s'.ws[w], id))
  {}

  lemma ShutdownMarks(s: Sys, s': Sys, w: WorkerId)
    requires InvRunning(s.ws, s.running) && ShutdownStep(s, s') && !s.stopped && w in s.ws
    requires s.ws[w].Claimed? || (HasContext(s.ws[w]) && s.ws[w].cause.None?)
    ensures s'.stopped && w in s'.ws && StoppedFor(s'.ws[w], s.ws[w].id)
  {
    hide InvRunning, Interrupted;
    ShutdownInterrupts(s.ws, s.running);
  }

  lemma ShutdownIsStep(s: Sys, e: Event, s': Sys)
    requires Next(s, e, s') && e.Shutdown?
    ensures ShutdownStep(s, s')
  {}

  lemma StoppedInProcess(s: Sys)
    requires Inv(s)
    ensures (!s.up ==> !s.stopped) && InvRunning(s.ws, s.running)
  {}

  /** A job in flight at shutdown, claimed or already registered and not yet cancelled, sees the shutdown as its
      cancellation cause for as long as its context lives, whatever happens next in this process. */
  lemma {:induction false} InFlightSeesShutdown(states: seq<Sys>, events: seq<Event>, i: nat, j: nat, w: WorkerId)
    requires IsRun(states, events) && i < j < |states|
    requires events[i].Shutdown? && !states[i].stopped && w in states[i].ws
    requires states[i].ws[w].Claimed? || (HasContext(states[i].ws[w]) && states[i].ws[w].cause.None?)
    requires forall k :: i < k < j ==> !events[k].Crash?
    ensures states[j].stopped
    ensures w in states[j].ws ==> StoppedFor(states[j].ws[w], states[i].ws[w].id)
    decreases j
  {
    hide Inv, InvRunning, Init, Next, Evolves, ShutdownStep;
    StepAt(states, events, j - 1);
    if j == i + 1 {
      StoppedInProcess(states[i]);
      ShutdownIsStep(states[i], events[i], states[j]);
      ShutdownMarks(states[i], states[j], w);
    } else {
      InFlightSeesShutdown(states, events, i, j - 1, w);
      StoppedInProcess(states[j - 1]);
      StoppedForStays(states[j - 1], events[j - 1], states[j], w, states[i].ws[w].id);
    }
  }

  /** How a finished run is judged: a produced result wins over everything, then shutdown, then a user's
      cancellation, and only then the runner's own word. */
  lemma TargetPrecedence(err: RunError, cause: Option<Cause>)
    ensures TerminalTarget(err, cause).state == Succeeded <==> err.ResultLost? || (err.Clean? && cause.None?)
    ensures TerminalTarget(err, cause).state == State.Cancelled <==> !err.ResultLost? && cause == Some(ByUser)
    ensures TerminalTarget(err, cause).code == Some("interrupted_by_restart") <==> !err.ResultLost? && cause == Some(ByShutdown)
    ensures TerminalTarget(err, cause).result == if err.ResultLost? then Some(err.result) else if err.Clean? && cause.None? then Some("{}") else None
    ensures TerminalTarget(err, cause).code == Some("source_changed") <==> err.SourceChanged? && cause.None?
    ensures TerminalTarget(err, cause).code == Some("job_failed") <==> err.OtherError? && cause.None?
    ensures TerminalTarget(err, cause).code.Some? <==> TerminalTarget(err, cause).state == Failed
  {
    assert cause.Some? ==> cause.value.ByShutdown? || cause.value.ByUser?;
    var a, b := "interrupted_by_restart", "source_changed";
    assert |a| == 22 && |b| == 14 && |"job_failed"| == 10;
    assert a != b && a != "job_failed" && b != "job_failed";
  }

  // ------------------------------------------------------------------ limits

  ghost function Busy(ws: Workers): set<WorkerId> {
    set w | w in ws && HasJob(ws[w])
  }

  /** Each claim leaves the jobs in flight within the worker limit then in force, under any history of limits. */
  lemma ClaimWithinLimit(s: Sys, w: WorkerId, id: JobId, reported: bool, s': Sys)
    requires Inv(s) && ClaimStep(s, w, id, reported, s')
    ensures |Busy(s'.ws)| <= s'.limit
  {
    assert s.started && !s.stopped;
    SubsetSize(Busy(s'.ws), s.ws.Keys);
  }

  predicate Owned(ws: Workers, id: JobId) {
    exists w <- ws :: HasJob(ws[w]) && ws[w].id == id
  }

  /** A claim always leaves the row running, but a worker owns it exactly when its commit was reported as done. */
  lemma ClaimOwnedIff(s: Sys, w: WorkerId, id: JobId, reported: bool, s': Sys)
    requires Inv(s) && ClaimStep(s, w, id, reported, s')
    ensures s'.db[id].state == Running && (Owned(s'.ws, id) <==> reported)
  {
    forall v | v in s.ws && HasJob(s.ws[v]) ensures s.ws[v].id != id {
      assert PhaseOk(s.db, s.cancelling, s.h, s.stopped, s.ws[v]);
    }
    if reported { assert HasJob(s'.ws[w]) && s'.ws[w].id == id; }
  }

  /** While the scheduler runs, the counter is the number of live workers and never below the limit; a worker
      may retire exactly while there are more of them than the limit. */
  lemma WorkerCount(states: seq<Sys>, events: seq<Event>, i: nat)
    requires IsRun(states, events) && i < |states| && states[i].started && !states[i].stopped
    ensures states[i].workers == |states[i].ws| >= states[i].limit >= 1
    ensures forall w, s' :: RetireStep(states[i], w, s') ==> s'.workers >= s'.limit && states[i].workers > states[i].limit
  {
    RunInv(states, events, i);
    assert |states[i].ws| == |states[i].ws.Keys|;
  }

  // --------------------------------------------------------------- admission

  lemma ActiveShrinks(t: Table, t': Table)
    requires Evolves(t, t') && t'.Keys == t.Keys
    ensures |ActiveIds(t')| <= |ActiveIds(t)|
  {
    assert ActiveIds(t') <= ActiveIds(t);
    SubsetSize(ActiveIds(t'), ActiveIds(t));
  }

  /** Any event that raises queued-plus-running leaves it within the capacity then in force. */
  lemma GrowthWithinCapacity(s: Sys, e: Event, s': Sys)
    requires Inv(s) && Next(s, e, s') && |ActiveIds(s'.db)| > |ActiveIds(s.db)|
    ensures e.Submit? || e.SubmitProposal?
    ensures |ActiveIds(s'.db)| <= s'.capacity
  {
    hide Inv, Evolves, InsertAll;
    match e
    case Submit(jobs, stamp) => if SubmitOutcome(s, jobs, stamp).Admitted? { InsertAllCounts(s.db, jobs, stamp); }
    case SubmitProposal(p, c, jobs, stamp) => if InsertAll(s.db, jobs, stamp).Some? { InsertAllCounts(s.db, jobs, stamp); }
    case _ =>
      hide Inv, Next, Evolves;
      NextInv(s, e, s');
      OnlyAdmissionAdds(s, e, s');
      ActiveShrinks(s.db, s'.db);
  }

  lemma OnlyAdmissionAdds(s: Sys, e: Event, s': Sys)
    requires Next(s, e, s') && !e.Submit? && !e.SubmitProposal?
    ensures s'.db.Keys == s.db.Keys
  {
    match e
    case Worker(w, we) => WorkerKeepsKeys(s, w, we, s');
    case Cancel(c) => CancelKeepsKeys(s, c, s');
    case Rebuild(id, r, fault) =>
    case Recover(c, l) =>
    case _ =>
  }

  lemma CancelKeepsKeys(s: Sys, e: CancelEvent, s': Sys)
    requires CancelNext(s, e, s')
    ensures s'.db.Keys == s.db.Keys
  {}

  lemma WorkerKeepsKeys(s: Sys, w: WorkerId, e: WorkerEvent, s': Sys)
    requires WorkerNext(s, w, e, s')
    ensures s'.db.Keys == s.db.Keys
  {}

  /** When a submission is admitted, and what it is told otherwise. */
  lemma SubmitAdmittedIff(s: Sys, jobs: seq<Job>, stamp: nat)
    ensures var o := SubmitOutcome(s, jobs, stamp);
      && (o.Admitted? <==> !s.stopped && jobs != [] && |ActiveIds(s.db)| + |jobs| <= s.capacity && BatchFits(s.db, jobs))
      && (o.Stopped? <==> s.stopped)
      && (o.Empty? <==> !s.stopped && jobs == [])
      && (o.QueueFull? <==> !s.stopped && jobs != [] && |ActiveIds(s.db)| + |jobs| > s.capacity)
  {
    hide BatchFits, InsertAll;
    InsertAllIff(s.db, jobs, stamp);
  }

  /** When a proposal is answered with the jobs it is bound to, when its batch is admitted, and what it is told otherwise. */
  lemma ProposalAdmittedIff(s: Sys, p: string, c: string, jobs: seq<Job>, stamp: nat)
    ensures var o := ProposalOutcome(s, p, c, jobs, stamp);
      var open := !s.stopped && p != "" && c != "" && jobs != [];
      var bound := exists id <- s.db :: s.db[id].proposal == p;
      && (o.Bound? <==> open && bound)
      && (o.Bound? ==> forall id :: id in o.ids <==> id in s.db && s.db[id].proposal == p)
      && (o.Fresh? && o.outcome.Stopped? <==> s.stopped)
      && (o.Fresh? && o.outcome.QueueFull? <==> open && !bound && |ActiveIds(s.db)| + |jobs| > s.capacity)
      && (o.Fresh? && o.outcome.Admitted? <==>
            && open && !bound && |ActiveIds(s.db)| + |jobs| <= s.capacity && BatchFits(s.db, jobs)
            && forall i :: 0 <= i < |jobs| ==> jobs[i].kind == Kind.Export && jobs[i].proposal == p && jobs[i].credential == c)
  {
    hide BatchFits, InsertAll;
    InsertAllIff(s.db, jobs, stamp);
    assert (exists id <- s.db :: s.db[id].proposal == p) <==> ProposalIds(s.db, p) != {} by {
      if id :| id in ProposalIds(s.db, p) { assert s.db[id].proposal == p; }
      if id :| id in s.db && s.db[id].proposal == p { assert id in ProposalIds(s.db, p); }
    }
    assert (exists i :: 0 <= i < |jobs| && !ProposalJob(jobs[i], p, c)) <==>
      !(forall i :: 0 <= i < |jobs| ==> jobs[i].kind == Kind.Export && jobs[i].proposal == p && jobs[i].credential == c);
  }

  /** A restart fails exactly what was still running. */
  lemma RestartInterrupts(states: seq<Sys>, events: seq<Event>, n: nat, id: JobId)
    requires IsRun(states, events) && n < |events| && events[n].Recover?
    ensures id in states[n + 1].db <==> id in states[n].db
    ensures id in states[n].db ==>
              states[n + 1].db[id] == if states[n].db[id].state == Running
                                      then states[n].db[id].(state := Failed, error := Some("interrupted_by_restart")) else states[n].db[id]
  {
    assert Next(states[n], events[n], states[n + 1]);
    RecoveredMeans(states[n].db, id);
  }

  /** A submission is all or nothing: either the table is untouched, or every requested row is queued under its
      own fields and nothing else changed. */
  lemma SubmitAllOrNothing(s: Sys, jobs: seq<Job>, stamp: nat, s': Sys)
    requires Inv(s) && SubmitStep(s, jobs, stamp, s')
    ensures s'.db == s.db ||
      (&& s'.db.Keys == s.db.Keys + NewIds(jobs) && NewIds(jobs) !! s.db.Keys && |NewIds(jobs)| == |jobs|
       && (forall id <- s.db :: s'.db[id] == s.db[id])
       && (forall i :: 0 <= i < |jobs| ==> jobs[i].id in s'.db && s'.db[jobs[i].id] == QueuedRow(jobs[i], stamp)))
  {
    if SubmitOutcome(s, jobs, stamp).Admitted? {
      InsertAllAddsExactly(s.db, jobs, stamp);
      forall i | 0 <= i < |jobs| ensures jobs[i].id in s'.db && s'.db[jobs[i].id] == QueuedRow(jobs[i], stamp) {
        InsertAllRow(s.db, jobs, stamp, i);
      }
    }
  }

  // --------------------------------------------------------------- proposals

  ghost predicate CarriesProposal(jobs: seq<Job>, p: string) {
    exists i :: 0 <= i < |jobs| && jobs[i].proposal == p
  }

  /** An admitted batch changes a proposal's jobs exactly when one of its jobs names the proposal. */
  lemma AdmissionProposalIff(t: Table, jobs: seq<Job>, stamp: nat, p: string)
    requires InsertAll(t, jobs, stamp).Some?
    ensures ProposalIds(InsertAll(t, jobs, stamp).value, p) == ProposalIds(t, p) <==> !CarriesProposal(jobs, p)
  {
    var t' := InsertAll(t, jobs, stamp).value;
    InsertAllAddsExactly(t, jobs, stamp);
    if CarriesProposal(jobs, p) {
      var i :| 0 <= i < |jobs| && jobs[i].proposal == p;
      InsertAllRow(t, jobs, stamp, i);
      NewIdsMember(jobs, i);
      assert jobs[i].id in ProposalIds(t', p) && jobs[i].id !in ProposalIds(t, p);
    } else {
      forall id | id in t' && id !in t ensures t'[id].proposal != p {
        var i := InsertAllOrigin(t, jobs, stamp, id);
      }
      assert ProposalIds(t', p) == ProposalIds(t, p);
    }
  }

  lemma EvolvesKeepsProposal(t: Table, t': Table, p: string)
    requires Evolves(t, t') && t'.Keys == t.Keys
    ensures ProposalIds(t', p) == ProposalIds(t, p)
  {}

  lemma ProposalStepKeepsOthers(s: Sys, q: string, c: string, jobs: seq<Job>, stamp: nat, s': Sys, p: string)
    requires ProposalStep(s, q, c, jobs, stamp, s') && ProposalIds(s.db, p) != {}
    ensures ProposalIds(s'.db, p) == ProposalIds(s.db, p)
  {
    var o := ProposalOutcome(s, q, c, jobs, stamp);
    if o.Fresh? && o.outcome.Admitted? {
      AdmissionProposalIff(s.db, jobs, stamp, p);
      assert forall i :: 0 <= i < |jobs| ==> ProposalJob(jobs[i], q, c);
    }
  }

  /** A bound proposal stays bound to the same jobs under every event, except a plain Submit of rows that
      name the proposal, and that one only if it is admitted. */
  lemma BoundProposalStepIff(s: Sys, e: Event, s': Sys, p: string)
    requires Inv(s) && Next(s, e, s') && ProposalIds(s.db, p) != {}
    ensures ProposalIds(s'.db, p) != ProposalIds(s.db, p) <==>
      e.Submit? && SubmitOutcome(s, e.jobs, e.stamp).Admitted? && CarriesProposal(e.jobs, p)
  {
    hide Inv, Evolves, InsertAll;
    match e
    case Submit(jobs, stamp) => if SubmitOutcome(s, jobs, stamp).Admitted? { AdmissionProposalIff(s.db, jobs, stamp, p); }
    case SubmitProposal(q, c, jobs, stamp) => ProposalStepKeepsOthers(s, q, c, jobs, stamp, s', p);
    case _ =>
      hide Next;
      NextInv(s, e, s');
      OnlyAdmissionAdds(s, e, s');
      EvolvesKeepsProposal(s.db, s'.db, p);
  }

  /** Once a proposal has jobs, every later SubmitProposal answers with that same set, for ever, as long as
      no plain submission names the proposal. */
  lemma {:induction false} ProposalBoundForever(states: seq<Sys>, events: seq<Event>, i: nat, j: nat, p: string,
                                                c: string, jobs: seq<Job>, stamp: nat)
    requires IsRun(states, events) && i <= j < |states| && ProposalIds(states[i].db, p) != {}
    requires forall k :: i <= k < j && events[k].Submit? ==> !CarriesProposal(events[k].jobs, p)
    requires p != "" && c != "" && jobs != [] && !states[j].stopped
    ensures ProposalOutcome(states[j], p, c, jobs, stamp) == Bound(ProposalIds(states[i].db, p))
  {
    ProposalSetConstant(states, events, i, j, p);
  }

  lemma {:induction false} ProposalSetConstant(states: seq<Sys>, events: seq<Event>, i: nat, j: nat, p: string)
    requires IsRun(states, events) && i <= j < |states| && ProposalIds(states[i].db, p) != {}
    requires forall k :: i <= k < j && events[k].Submit? ==> !CarriesProposal(events[k].jobs, p)
    ensures ProposalIds(states[j].db, p) == ProposalIds(states[i].db, p)
    decreases j
  {
    if i < j {
      ProposalSetConstant(states, events, i, j - 1, p);
      RunInv(states, events, j - 1);
      BoundProposalStepIff(states[j - 1], events[j - 1], states[j], p);
    }
  }
}
