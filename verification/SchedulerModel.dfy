/** The scheduler as a transition system.  Every critical section and every SQL statement or transaction
    is one atomic event; workers, cancellers, shutdown, restarts and failing writes interleave freely. */
module SchedulerModel {
  import opened Prelude
  import opened Jobs

  type WorkerId = nat

  const MAX_WORKER_LIMIT := 64
  const TERMINAL_ATTEMPTS := 3

  datatype Cause = ByShutdown | ByUser

  /** What a runner can return; ResultLost is the error that carries a produced result. */
  datatype RunError = Clean | ResultLost(result: string) | SourceChanged | OtherError

  datatype Target = Target(state: State, result: Option<string>, code: Option<string>)

  function TerminalTarget(err: RunError, cause: Option<Cause>): (r: Target) {
    if err.ResultLost? then Target(Succeeded, Some(err.result), None)
    else if cause == Some(ByShutdown) then Target(Failed, None, Some("interrupted_by_restart"))
    else if cause.Some? then Target(Cancelled, None, None)
    else if err.Clean? then Target(Succeeded, Some("{}"), None)
    else Target(Failed, None, Some(if err.SourceChanged? then "source_changed" else "job_failed"))
  }

  /** Where one worker goroutine stands in its loop. */
  datatype Phase =
    | Idle
    | Claimed(id: JobId)
    | Registered(id: JobId, cause: Option<Cause>)
    | Looked(id: JobId, cause: Option<Cause>, live: bool)
    | InRunner(id: JobId, cause: Option<Cause>, produced: Option<string>, acked: bool)
    | Returned(id: JobId, cause: Option<Cause>, err: RunError)
    | Deregistered(id: JobId, target: Target)
    | Settling(id: JobId, target: Target, tries: nat)

  predicate HasJob(p: Phase) { !p.Idle? }

  /** Phases between registration and deregistration, while the job context can still be cancelled. */
  predicate HasContext(p: Phase) { p.Registered? || p.Looked? || p.InRunner? || p.Returned? }

  predicate BeforeEntry(p: Phase) { p.Claimed? || p.Registered? || p.Looked? }

  /** The runner has been or is about to be entered on an uncancelled context. */
  predicate Unstopped(p: Phase) {
    (p.Looked? && p.live && p.cause.None?) || (p.InRunner? && p.cause.None?)
  }

  /** context.WithCancelCause: the first cause wins. */
  function Interrupt(p: Phase, c: Cause): Phase {
    if HasContext(p) && p.cause.None? then p.(cause := Some(c)) else p
  }

  /** Scheduler.Cancel between its row read, its conditional update and the context cancellation.
      While one is in progress it holds the lifecycle mutex. */
  datatype Canceller = Reading(id: JobId, seen: State) | Written(id: JobId)

  /** Observations that only the properties mention. */
  datatype History = History(
    entered: multiset<JobId>,        // runner entries
    produced: map<JobId, string>,    // result a runner produced, whether or not it reached the table
    rebuilt: map<JobId, string>,     // result restart recovery rebuilt from a manifest
    notified: set<JobId>,            // Scheduler.Cancel returned success
    silent: set<JobId>)              // cancelled in the table by a call that never reached the context

  datatype Sys = Sys(
    db: Table, capacity: int, limit: int, up: bool, started: bool, stopped: bool, workers: int,
    ws: map<WorkerId, Phase>, running: map<JobId, WorkerId>, cancelling: Option<Canceller>, h: History)

  predicate ValidLimits(capacity: int, limit: int) {
    capacity >= 1 && 1 <= limit <= MAX_WORKER_LIMIT
  }

  ghost predicate Init(s: Sys) {
    s == Sys(map[], s.capacity, s.limit, false, false, false, 0, map[], map[], None,
             History(multiset{}, map[], map[], {}, {}))
  }

  // ---------------------------------------------------------------- admission

  datatype Admission = Admitted(db: Table) | Stopped | Empty | QueueFull | Rejected

  ghost function SubmitOutcome(s: Sys, jobs: seq<Job>, stamp: nat): Admission {
    if s.stopped then Stopped
    else if jobs == [] then Empty
    else if |jobs| > s.capacity then QueueFull
    else if |ActiveIds(s.db)| + |jobs| > s.capacity then QueueFull
    else match InsertAll(s.db, jobs, stamp)
      case None => Rejected
      case Some(t) => Admitted(t)
  }

  predicate ProposalJob(j: Job, proposal: string, credential: string) {
    j.kind == Export && j.proposal == proposal && j.credential == credential
  }

  /** SubmitProposal either returns the rows already bound to the proposal or admits its exact batch. */
  datatype ProposalAdmission = Bound(ids: set<JobId>) | Fresh(outcome: Admission)

  ghost function ProposalOutcome(s: Sys, proposal: string, credential: string, jobs: seq<Job>, stamp: nat): ProposalAdmission {
    if s.stopped then Fresh(Stopped)
    else if proposal == "" || credential == "" || jobs == [] then Fresh(Empty)
    else if ProposalIds(s.db, proposal) != {} then Bound(ProposalIds(s.db, proposal))
    else if |ActiveIds(s.db)| + |jobs| > s.capacity then Fresh(QueueFull)
    else if exists i :: 0 <= i < |jobs| && !ProposalJob(jobs[i], proposal, credential) then Fresh(Rejected)
    else match InsertAll(s.db, jobs, stamp)
      case None => Fresh(Rejected)
      case Some(t) => Fresh(Admitted(t))
  }

  // -------------------------------------------------------------------- steps

  /** startWorkers: enough fresh goroutines to reach the limit. */
  ghost predicate Spawns(s: Sys, limit: int, spawn: set<WorkerId>) {
    spawn !! s.ws.Keys && |spawn| == (if s.workers < limit then limit - s.workers else 0)
  }

  function Spawned(ws: map<WorkerId, Phase>, spawn: set<WorkerId>): map<WorkerId, Phase> {
    map w | w in ws.Keys + spawn :: if w in ws then ws[w] else Idle
  }

  predicate MuFree(s: Sys) { s.up && s.cancelling.None? }

  predicate At(s: Sys, w: WorkerId) { s.up && w in s.ws }

  ghost predicate StartStep(s: Sys, spawn: set<WorkerId>, s': Sys) {
    && MuFree(s) && !s.started && !s.stopped && Spawns(s, s.limit, spawn)
    && s' == s.(started := true, ws := Spawned(s.ws, spawn), workers := s.workers + |spawn|)
  }

  ghost predicate SetLimitsStep(s: Sys, c: int, l: int, spawn: set<WorkerId>, s': Sys) {
    && MuFree(s) && ValidLimits(c, l) && !s.stopped
    && (if s.started then Spawns(s, l, spawn) else spawn == {})
    && s' == s.(capacity := c, limit := l, ws := Spawned(s.ws, spawn), workers := s.workers + |spawn|)
  }

  ghost predicate SubmitStep(s: Sys, jobs: seq<Job>, stamp: nat, s': Sys) {
    && MuFree(s)
    && s' == match SubmitOutcome(s, jobs, stamp) case Admitted(t) => s.(db := t) case _ => s
  }

  ghost predicate ProposalStep(s: Sys, p: string, c: string, jobs: seq<Job>, stamp: nat, s': Sys) {
    && MuFree(s)
    && s' == match ProposalOutcome(s, p, c, jobs, stamp) case Fresh(Admitted(t)) => s.(db := t) case _ => s
  }

  function Interrupted(ws: map<WorkerId, Phase>, running: map<JobId, WorkerId>, c: Cause): map<WorkerId, Phase> {
    map w | w in ws :: if HasContext(ws[w]) && ws[w].id in running && running[ws[w].id] == w then Interrupt(ws[w], c) else ws[w]
  }

  ghost predicate ShutdownStep(s: Sys, s': Sys) {
    && MuFree(s)
    && s' == if s.stopped then s else s.(stopped := true, ws := Interrupted(s.ws, s.running, ByShutdown))
  }

  /** Scheduler.Cancel takes the mutex and reads the row; it goes on only for an active one. */
  ghost predicate CancelReadStep(s: Sys, id: JobId, s': Sys) {
    && MuFree(s) && id in s.db && Active(s.db[id].state)
    && s' == s.(cancelling := Some(Reading(id, s.db[id].state)))
  }

  ghost predicate CancelWriteStep(s: Sys, fault: Fault, s': Sys) {
    && s.up && s.cancelling.Some? && s.cancelling.value.Reading?
    && var id := s.cancelling.value.id;
       var (t, reply) := Transition(s.db, id, s.cancelling.value.seen, State.Cancelled, None, None, fault);
       s' == s.(db := t,
                cancelling := if reply.Done? then Some(Written(id)) else None,
                h := if t != s.db && !reply.Done? then s.h.(silent := s.h.silent + {id}) else s.h)
  }

  function Notified(ws: map<WorkerId, Phase>, running: map<JobId, WorkerId>, id: JobId): map<WorkerId, Phase> {
    if id in running && running[id] in ws then ws[running[id] := Interrupt(ws[running[id]], ByUser)] else ws
  }

  ghost predicate CancelFinishStep(s: Sys, s': Sys) {
    && s.up && s.cancelling.Some? && s.cancelling.value.Written?
    && var id := s.cancelling.value.id;
       s' == s.(cancelling := None, ws := Notified(s.ws, s.running, id), h := s.h.(notified := s.h.notified + {id}))
  }

  /** JobsStore.Cancel called outside the scheduler, after a row read that may be stale. */
  ghost predicate StoreCancelStep(s: Sys, id: JobId, seen: State, fault: Fault, s': Sys) {
    && s.up && Active(seen)
    && var t := Transition(s.db, id, seen, State.Cancelled, None, None, fault).0;
       s' == s.(db := t, h := if t != s.db then s.h.(silent := s.h.silent + {id}) else s.h)
  }

  ghost predicate RetireStep(s: Sys, w: WorkerId, s': Sys) {
    && MuFree(s) && At(s, w) && s.ws[w].Idle? && (s.stopped || s.workers > s.limit)
    && s' == s.(ws := s.ws - {w}, workers := s.workers - 1)
  }

  /** An idle worker that sees the stop channel returns without touching the counter. */
  ghost predicate StopIdleStep(s: Sys, w: WorkerId, s': Sys) {
    && At(s, w) && s.stopped && s.ws[w].Idle?
    && s' == s.(ws := s.ws - {w})
  }

  /** The claim query takes the queued row least in (created_at, id). */
  ghost predicate IsNextQueued(t: Table, id: JobId) {
    && id in t && t[id].state == Queued
    && forall o <- t :: t[o].state == Queued ==>
         t[id].created < t[o].created || (t[id].created == t[o].created && LessEq(id, o))
  }

  function Started(t: Table, id: JobId): Table
    requires id in t
  {
    t[id := t[id].(state := Running)]
  }

  /** A claim whose commit is reported as failed leaves a running row that no worker owns. */
  ghost predicate ClaimStep(s: Sys, w: WorkerId, id: JobId, reported: bool, s': Sys) {
    && MuFree(s) && At(s, w) && s.ws[w].Idle? && !s.stopped && s.workers <= s.limit && IsNextQueued(s.db, id)
    && s' == s.(db := Started(s.db, id), ws := if reported then s.ws[w := Claimed(id)] else s.ws)
  }

  ghost predicate RegisterStep(s: Sys, w: WorkerId, s': Sys) {
    && MuFree(s) && At(s, w) && s.ws[w].Claimed?
    && s' == s.(ws := s.ws[w := Registered(s.ws[w].id, if s.stopped then Some(ByShutdown) else None)],
                running := s.running[s.ws[w].id := w])
  }

  function Found(t: Table, id: JobId, ok: bool): bool {
    ok && id in t && t[id].state == Running
  }

  ghost predicate LookStep(s: Sys, w: WorkerId, ok: bool, s': Sys) {
    && At(s, w) && s.ws[w].Registered?
    && s' == s.(ws := s.ws[w := Looked(s.ws[w].id, s.ws[w].cause, Found(s.db, s.ws[w].id, ok))])
  }

  /** Enter the runner only if the row was seen running and the context is still uncancelled. */
  ghost predicate EnterStep(s: Sys, w: WorkerId, s': Sys) {
    && At(s, w) && s.ws[w].Looked? && s.ws[w].cause.None? && s.ws[w].live
    && s' == s.(ws := s.ws[w := InRunner(s.ws[w].id, None, None, false)],
                h := s.h.(entered := s.h.entered + multiset{s.ws[w].id}))
  }

  ghost predicate SkipStep(s: Sys, w: WorkerId, s': Sys) {
    && At(s, w) && s.ws[w].Looked? && (s.ws[w].cause.Some? || !s.ws[w].live)
    && s' == s.(ws := s.ws[w := Returned(s.ws[w].id, s.ws[w].cause, OtherError)])
  }

  /** The runner's own terminal write of its result. */
  ghost predicate RunnerSucceedStep(s: Sys, w: WorkerId, r: string, fault: Fault, s': Sys) {
    && At(s, w) && s.ws[w].InRunner? && s.ws[w].produced.None?
    && var id := s.ws[w].id;
       var (t, reply) := Transition(s.db, id, Running, Succeeded, Some(r), None, fault);
       s' == s.(db := t, ws := s.ws[w := s.ws[w].(produced := Some(r), acked := reply.Done?)],
                h := s.h.(produced := s.h.produced[id := r]))
  }

  /** A library scan records its partial result with the failure. */
  ghost predicate RunnerFailStep(s: Sys, w: WorkerId, r: string, fault: Fault, s': Sys) {
    && At(s, w) && s.ws[w].InRunner? && s.ws[w].produced.None?
    && s.ws[w].id in s.db && s.db[s.ws[w].id].kind == LibraryScan
    && s' == s.(db := Transition(s.db, s.ws[w].id, Running, Failed, Some(r), Some("scan_failed"), fault).0)
  }

  /** What QueuedJobs.Run may return: nil only after its own acknowledged terminal write, and for an export
      whose write was not acknowledged, the error that carries the result. */
  predicate MayReturn(kind: Kind, produced: Option<string>, acked: bool, err: RunError) {
    if acked then err.Clean?
    else if kind == Export && produced.Some? then err == ResultLost(produced.value)
    else err.SourceChanged? || err.OtherError?
  }

  ghost predicate RunnerReturnStep(s: Sys, w: WorkerId, err: RunError, s': Sys) {
    && At(s, w) && s.ws[w].InRunner? && s.ws[w].id in s.db
    && MayReturn(s.db[s.ws[w].id].kind, s.ws[w].produced, s.ws[w].acked, err)
    && s' == s.(ws := s.ws[w := Returned(s.ws[w].id, s.ws[w].cause, err)])
  }

  ghost predicate DeregisterStep(s: Sys, w: WorkerId, s': Sys) {
    && MuFree(s) && At(s, w) && s.ws[w].Returned?
    && s' == s.(ws := s.ws[w := Deregistered(s.ws[w].id, TerminalTarget(s.ws[w].err, s.ws[w].cause))],
                running := s.running - {s.ws[w].id})
  }

  /** finalize reads the row (a failed read gives up) and only goes on while it is running. */
  ghost predicate ReadStateStep(s: Sys, w: WorkerId, ok: bool, s': Sys) {
    && At(s, w) && s.ws[w].Deregistered?
    && s' == s.(ws := s.ws[w := if Found(s.db, s.ws[w].id, ok) then Settling(s.ws[w].id, s.ws[w].target, 0) else Idle])
  }

  /** Only an unclassified failure is retried, three attempts in all. */
  function AfterTry(p: Phase, reply: Reply): Phase
    requires p.Settling?
  {
    if reply.Unavailable? && p.tries + 1 < TERMINAL_ATTEMPTS then p.(tries := p.tries + 1) else Idle
  }

  /** One attempt of persistTerminal. */
  ghost predicate PersistStep(s: Sys, w: WorkerId, fault: Fault, s': Sys) {
    && At(s, w) && s.ws[w].Settling?
    && var p := s.ws[w];
       var (t, reply) := Transition(s.db, p.id, Running, p.target.state, p.target.result, p.target.code, fault);
       s' == s.(db := t, ws := s.ws[w := AfterTry(p, reply)])
  }

  ghost predicate CrashStep(s: Sys, s': Sys) {
    s' == s.(up := false, started := false, stopped := false, workers := 0, ws := map[], running := map[], cancelling := None)
  }

  /** Restart: Reconcile may complete a running export from its manifest before Recover sweeps the rest. */
  ghost predicate RebuildStep(s: Sys, id: JobId, r: string, fault: Fault, s': Sys) {
    && !s.up
    && var t := Transition(s.db, id, Running, Succeeded, Some(r), None, fault).0;
       s' == s.(db := t, h := if t != s.db then s.h.(rebuilt := s.h.rebuilt[id := r]) else s.h)
  }

  ghost predicate RecoverStep(s: Sys, c: int, l: int, s': Sys) {
    && !s.up && ValidLimits(c, l)
    && s' == s.(db := Recovered(s.db), up := true, capacity := c, limit := l)
  }

  // ------------------------------------------------------------------- events

  datatype Event =
    | Start(spawn: set<WorkerId>)
    | SetLimits(capacity: int, limit: int, spawn: set<WorkerId>)
    | Submit(jobs: seq<Job>, stamp: nat)
    | SubmitProposal(proposal: string, credential: string, jobs: seq<Job>, stamp: nat)
    | Shutdown
    | Cancel(c: CancelEvent)
    | Worker(w: WorkerId, we: WorkerEvent)
    | Crash
    | Rebuild(id: JobId, result: string, fault: Fault)
    | Recover(capacity: int, limit: int)

  datatype CancelEvent =
    | CancelRead(id: JobId)
    | CancelWrite(fault: Fault)
    | CancelFinish
    | StoreCancel(id: JobId, seen: State, fault: Fault)

  datatype WorkerEvent =
    | Retire
    | StopIdle
    | Claim(id: JobId, reported: bool)
    | Register
    | Look(ok: bool)
    | Enter
    | Skip
    | RunnerSucceed(result: string, fault: Fault)
    | RunnerFail(result: string, fault: Fault)
    | RunnerReturn(err: RunError)
    | Deregister
    | ReadState(ok: bool)
    | Persist(fault: Fault)

  ghost predicate CancelNext(s: Sys, e: CancelEvent, s': Sys) {
    match e
    case CancelRead(id) => CancelReadStep(s, id, s')
    case CancelWrite(fault) => CancelWriteStep(s, fault, s')
    case CancelFinish => CancelFinishStep(s, s')
    case StoreCancel(id, seen, fault) => StoreCancelStep(s, id, seen, fault, s')
  }

  ghost predicate WorkerNext(s: Sys, w: WorkerId, e: WorkerEvent, s': Sys) {
    match e
    case Retire => RetireStep(s, w, s')
    case StopIdle => StopIdleStep(s, w, s')
    case Claim(id, reported) => ClaimStep(s, w, id, reported, s')
    case Register => RegisterStep(s, w, s')
    case Look(ok) => LookStep(s, w, ok, s')
    case Enter => EnterStep(s, w, s')
    case Skip => SkipStep(s, w, s')
    case RunnerSucceed(r, fault) => RunnerSucceedStep(s, w, r, fault, s')
    case RunnerFail(r, fault) => RunnerFailStep(s, w, r, fault, s')
    case RunnerReturn(err) => RunnerReturnStep(s, w, err, s')
    case Deregister => DeregisterStep(s, w, s')
    case ReadState(ok) => ReadStateStep(s, w, ok, s')
    case Persist(fault) => PersistStep(s, w, fault, s')
  }

  ghost predicate Next(s: Sys, e: Event, s': Sys) {
    match e
    case Start(spawn) => StartStep(s, spawn, s')
    case SetLimits(c, l, spawn) => SetLimitsStep(s, c, l, spawn, s')
    case Submit(jobs, stamp) => SubmitStep(s, jobs, stamp, s')
    case SubmitProposal(p, c, jobs, stamp) => ProposalStep(s, p, c, jobs, stamp, s')
    case Shutdown => ShutdownStep(s, s')
    case Cancel(c) => CancelNext(s, c, s')
    case Worker(w, we) => WorkerNext(s, w, we, s')
    case Crash => CrashStep(s, s')
    case Rebuild(id, r, fault) => RebuildStep(s, id, r, fault, s')
    case Recover(c, l) => RecoverStep(s, c, l, s')
  }

  /** The jobs that CancelBatch reads. */
  function ToCancel(db: Table, batch: string): set<JobId> {
    set id | id in db && db[id].batch == batch && Active(db[id].state)
  }

  /** A finite run: states joined by events, from the empty table of a process that has not started. */
  ghost predicate IsRun(states: seq<Sys>, events: seq<Event>) {
    && |states| == |events| + 1 && Init(states[0])
    && forall i :: 0 <= i < |events| ==> Next(states[i], events[i], states[i + 1])
  }
}
