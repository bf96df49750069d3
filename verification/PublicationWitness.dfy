/** Concrete runs that end where the code and its promises part: an orphan of a merge rollback, a stranded manifest,
    a cancelled job that keeps its outputs, and removals by path that hit somebody else's file. */
module PublicationWitness {
  import opened Prelude
  import opened Jobs
  import opened PublicationModel
  import opened PublicationTheorems

  const DIR := "d"
  const NAME := "out.mkv"
  const OUT := Path(DIR, NAME)

  /** A process that found nothing and serves. */
  function Empty(): St {
    St(map[], map[], map[], map[], 0, map[], map[], Down, {}, {}, {}, {}, {}, {}, {}, map[], {}, map[])
  }

  function Fresh(): St { Empty().(mode := Serving) }

  lemma Do(states: seq<St>, events: seq<Event>, s0: St, s: St, e: Event, s': St) returns (states': seq<St>, events': seq<Event>)
    requires ChainTo(states, events, s0, s) && Next(s, e, s')
    ensures states' == states + [s'] && events' == events + [e] && ChainTo(states', events', s0, s')
  {
    states', events' := states + [s'], events + [e];
    ChainOne(states, events, s0, s, e, s');
  }

  lemma Start() returns (states: seq<St>, events: seq<Event>)
    ensures ChainTo(states, events, Empty(), Fresh())
  {
    var s := Empty();
    var t := s.(mode := Reconciling({}, {}, None));
    var u := s.(mode := Reconciled({}));
    assert Within(s.manifests, {}) == {} && s.manifests.Keys == s.unregistered;
    assert Next(s, Restarting(Restart({})), t) && Next(t, Restarting(ReconcileDone), u);
    assert FailRunning(u.rows) == u.rows && Overlooked(u) == {};
    assert Next(u, Restarting(Recover), Fresh());
    hide ChainTo, Next;
    ChainNone(s);
    states, events := Do([s], [], s, s, Restarting(Restart({})), t);
    states, events := Do(states, events, s, t, Restarting(ReconcileDone), u);
    states, events := Do(states, events, s, u, Restarting(Recover), Fresh());
  }

  lemma RunOf(states: seq<St>, events: seq<Event>, s': St)
    requires ChainTo(states, events, Empty(), s')
    ensures IsRun(states, events) && states[|events|] == s'
  {
    hide Next;
  }

  // ------------------------------------------------------------ one export of one output

  function Mine(s: St): Owner { Owner(NAME, s.next) }

  function Queued1(s: St, j: JobId): St { s.(rows := s.rows[j := Queued]) }

  function Claimed1(s: St, j: JobId): St {
    var t := Queued1(s, j);
    t.(rows := t.rows[j := Running], runs := t.runs[j := Preparing])
  }

  function Begun1(s: St, j: JobId, merge: bool): St {
    var t := Claimed1(s, j);
    t.(next := t.next + 1, birth := Born(t.birth, t.next, 1, j), runs := t.runs[j := Publishing(merge, DIR, map[0 := Mine(s)], 1, {}, 0, false)])
  }

  function Announced1(s: St, j: JobId, merge: bool): St {
    var t := Begun1(s, j, merge);
    t.(manifests := t.manifests[j := Manifest(DIR, {Mine(s)}, false)], runs := t.runs[j := Publishing(merge, DIR, map[0 := Mine(s)], 1, {}, 0, true)])
  }

  function Published1(s: St, j: JobId, merge: bool): St {
    var t := Announced1(s, j, merge);
    t.(files := t.files[OUT := s.next], runs := t.runs[j := Publishing(merge, DIR, map[0 := Mine(s)], 1, {Mine(s)}, 1, false)])
  }

  predicate Unused(s: St, j: JobId) {
    s.mode.Serving? && j !in s.rows && j !in s.manifests && j !in s.runs && (forall i <- s.birth :: s.birth[i] != j) && OUT !in s.files
  }

  lemma Announces(s: St, j: JobId, merge: bool)
    requires Unused(s, j)
    ensures Next(Begun1(s, j, merge), Event.Export(j, WriteManifest), Announced1(s, j, merge))
    ensures Next(Announced1(s, j, merge), Event.Export(j, Publish), Published1(s, j, merge))
  {
    hide Born;
    var plan: map<nat, Owner> := map[0 := Mine(s)];
    assert plan[0] == Mine(s) && Mine(s) in plan.Values;
    assert plan.Values == {Mine(s)};
    assert {} + {Mine(s)} == {Mine(s)};
    assert WriteManifestStep(Begun1(s, j, merge), j, Announced1(s, j, merge));
    assert PublishStep(Announced1(s, j, merge), j, Published1(s, j, merge));
  }

  lemma Begins(s: St, j: JobId, merge: bool)
    requires Unused(s, j)
    ensures Next(s, Row(j, Enqueue), Queued1(s, j)) && Next(Queued1(s, j), Row(j, Claim), Claimed1(s, j))
    ensures Next(Claimed1(s, j), Event.Export(j, Begin(merge, DIR, map[0 := Mine(s)], 1)), Begun1(s, j, merge))
  {
    hide Born;
  }

  /** From any state: job j is queued, claimed and publishes its one output. */
  lemma Publishes(states: seq<St>, events: seq<Event>, s0: St, s: St, j: JobId, merge: bool) returns (states': seq<St>, events': seq<Event>)
    requires ChainTo(states, events, s0, s) && Unused(s, j)
    ensures ChainTo(states', events', s0, Published1(s, j, merge))
  {
    Begins(s, j, merge);
    Announces(s, j, merge);
    hide ChainTo, Next, Queued1, Claimed1, Begun1, Announced1, Published1;
    states', events' := Do(states, events, s0, s, Row(j, Enqueue), Queued1(s, j));
    states', events' := Do(states', events', s0, Queued1(s, j), Row(j, Claim), Claimed1(s, j));
    states', events' := Do(states', events', s0, Claimed1(s, j), Event.Export(j, Begin(merge, DIR, map[0 := Mine(s)], 1)), Begun1(s, j, merge));
    states', events' := Do(states', events', s0, Begun1(s, j, merge), Event.Export(j, WriteManifest), Announced1(s, j, merge));
    states', events' := Do(states', events', s0, Announced1(s, j, merge), Event.Export(j, Publish), Published1(s, j, merge));
  }

  /** The same state in one step. */
  lemma PublishedAtOnce(s: St, j: JobId, merge: bool)
    ensures Published1(s, j, merge) ==
      s.(rows := s.rows[j := Running], next := s.next + 1, birth := Born(s.birth, s.next, 1, j), files := s.files[OUT := s.next],
         manifests := s.manifests[j := Manifest(DIR, {Mine(s)}, false)],
         runs := s.runs[j := Publishing(merge, DIR, map[0 := Mine(s)], 1, {Mine(s)}, 1, false)])
  {
    hide Born;
  }

  function Finished1(s: St, j: JobId): St {
    var t := Published1(s, j, false);
    t.(manifests := t.manifests[j := Manifest(DIR, {Mine(s)}, false)], runs := t.runs[j := Produced(DIR, {Mine(s)})])
  }

  function Succeeded1(s: St, j: JobId): St {
    var t := Finished1(s, j);
    t.(rows := t.rows[j := Succeeded], results := t.results[j := {NAME}], runs := t.runs[j := Returned(DIR, {Mine(s)})])
  }

  lemma Finishes(s: St, j: JobId)
    requires Unused(s, j)
    ensures Next(Published1(s, j, false), Event.Export(j, Finish), Finished1(s, j))
    ensures Next(Finished1(s, j), After(j, Commit(NoFault)), Succeeded1(s, j))
  {
    hide Born;
    assert Mine(s) in {Mine(s)};
    assert FinishStep(Published1(s, j, false), j, Finished1(s, j));
    assert Names({Mine(s)}) == {NAME} by { assert Mine(s).name in Names({Mine(s)}); }
    assert CommitStep(Finished1(s, j), j, NoFault, Succeeded1(s, j));
  }

  /** From any state: job j exports its one output and succeeds. */
  lemma Succeeds(states: seq<St>, events: seq<Event>, s0: St, s: St, j: JobId) returns (states': seq<St>, events': seq<Event>)
    requires ChainTo(states, events, s0, s) && Unused(s, j)
    ensures ChainTo(states', events', s0, Succeeded1(s, j))
  {
    Finishes(s, j);
    hide ChainTo, Next, Published1, Finished1, Succeeded1;
    states', events' := Publishes(states, events, s0, s, j, false);
    states', events' := Do(states', events', s0, Published1(s, j, false), Event.Export(j, Finish), Finished1(s, j));
    states', events' := Do(states', events', s0, Finished1(s, j), After(j, Commit(NoFault)), Succeeded1(s, j));
  }

  // ------------------------------------------------------------------- the failures

  function RollingBack1(j: JobId, cleared: bool): St {
    var t := Published1(Fresh(), j, true);
    t.(manifests := if cleared then Drop(t.manifests, j) else t.manifests, runs := t.runs[j := RollingBack(true, DIR, {Mine(Fresh())}, cleared)])
  }

  function Orphaned1(j: JobId): St {
    RollingBack1(j, true).(runs := map[], mode := Down, orphans := {0})
  }

  lemma RollsBack(j: JobId)
    ensures Next(Published1(Fresh(), j, true), Event.Export(j, Abort), RollingBack1(j, false))
    ensures Next(RollingBack1(j, false), Event.Export(j, RollbackManifest), RollingBack1(j, true))
  {
    PublishedAtOnce(Fresh(), j, true);
    hide Published1, Born;
    assert AbortStep(Published1(Fresh(), j, true), j, RollingBack1(j, false));
    assert RollbackManifestStep(RollingBack1(j, false), j, RollingBack1(j, true));
  }

  lemma Orphans(j: JobId)
    ensures Next(RollingBack1(j, true), World(Crash), Orphaned1(j))
  {
    PublishedAtOnce(Fresh(), j, true);
    hide Published1, Drop;
    var s := RollingBack1(j, true);
    assert Mine(Fresh()) in s.runs[j].todo && Mine(Fresh()).inode == 0;
    assert Exposed(s.runs, j, 0);
    assert Abandoned(s) == {0};
    assert CrashStep(s, Orphaned1(j));
  }

  /** The publication invariant is false of merge mode: here is a run that ends with an unlisted output on disk. */
  lemma MergeOrphan() returns (states: seq<St>, events: seq<Event>, p: Path)
    ensures IsRun(states, events)
    ensures var s := states[|events|];
      p in s.files && s.files[p] in s.birth && s.manifests == map[] && s.mode == Down
  {
    var j := "j1";
    RollsBack(j);
    Orphans(j);
    assert Orphaned1(j).manifests == map[] && OUT in Orphaned1(j).files && Orphaned1(j).files[OUT] in Orphaned1(j).birth;
    assert Orphaned1(j).mode == Down;
    hide ChainTo, Next, IsRun, Published1, RollingBack1, Orphaned1;
    p := OUT;
    states, events := Start();
    states, events := Publishes(states, events, Empty(), Fresh(), j, true);
    states, events := Do(states, events, Empty(), Published1(Fresh(), j, true), Event.Export(j, Abort), RollingBack1(j, false));
    states, events := Do(states, events, Empty(), RollingBack1(j, false), Event.Export(j, RollbackManifest), RollingBack1(j, true));
    states, events := Do(states, events, Empty(), RollingBack1(j, true), World(Crash), Orphaned1(j));
    RunOf(states, events, Orphaned1(j));
  }

  function Crashed1(j: JobId): St {
    Published1(Fresh(), j, false).(mode := Down, runs := map[])
  }

  function Walked1(j: JobId, mode: Mode): St {
    var t := Crashed1(j);
    t.(mode := mode, recorded := t.manifests, unregistered := t.manifests.Keys)
  }

  function Stranded1(j: JobId): St {
    var t := Walked1(j, Serving);
    t.(rows := FailRunning(t.rows), stranded := {j})
  }

  lemma Crashes(j: JobId)
    ensures Next(Published1(Fresh(), j, false), World(Crash), Crashed1(j))
    ensures Next(Crashed1(j), Restarting(Restart({})), Walked1(j, Reconciling({}, {}, None)))
  {
    PublishedAtOnce(Fresh(), j, false);
    hide Published1, Born;
    assert Abandoned(Published1(Fresh(), j, false)) == {};
    assert CrashStep(Published1(Fresh(), j, false), Crashed1(j));
    assert Within(Crashed1(j).manifests, {}) == {};
  }

  lemma Strands(j: JobId)
    ensures Next(Walked1(j, Reconciling({}, {}, None)), Restarting(ReconcileDone), Walked1(j, Reconciled({})))
    ensures Next(Walked1(j, Reconciled({})), Restarting(Recover), Stranded1(j))
  {
    PublishedAtOnce(Fresh(), j, false);
    hide Published1, Born;
    assert Overlooked(Walked1(j, Reconciled({}))) == {j};
    assert RecoverStep(Walked1(j, Reconciled({})), Stranded1(j));
  }

  lemma StrandedFacts(j: JobId)
    ensures var s := Walked1(j, Reconciled({}));
      s.mode.Reconciled? && j in s.rows && s.rows[j] == Running && j in s.recorded && s.recorded[j].dir !in s.mode.configured
    ensures var s := Stranded1(j); j in s.rows && s.rows[j] == Failed && j in s.manifests && RecordedOutput(s, OUT, j)
  {
    PublishedAtOnce(Fresh(), j, false);
    hide Published1, Born;
    var after := Stranded1(j);
    assert OUT in after.files && Owner(NAME, after.files[OUT]) in after.manifests[j].owners;
    assert OUT in Recorded(after.files, after.manifests[j]);
  }

  /** A destination that is dropped from the configuration after a crash: the job fails and keeps manifest and output. */
  lemma Stranded() returns (states: seq<St>, events: seq<Event>, j: JobId)
    ensures IsRun(states, events) && |events| > 0 && events[|events| - 1] == Restarting(Recover)
    ensures var s := states[|events| - 1];
      s.mode.Reconciled? && j in s.rows && s.rows[j] == Running && j in s.recorded && s.recorded[j].dir !in s.mode.configured
    ensures var s := states[|events|]; j in s.rows && s.rows[j] == Failed && j in s.manifests && RecordedOutput(s, OUT, j)
  {
    j := "j1";
    Crashes(j);
    Strands(j);
    StrandedFacts(j);
    var before, after := Walked1(j, Reconciled({})), Stranded1(j);
    hide ChainTo, Next, IsRun, Published1, Crashed1, Walked1, Stranded1, RecordedOutput;
    states, events := Start();
    states, events := Publishes(states, events, Empty(), Fresh(), j, false);
    states, events := Do(states, events, Empty(), Published1(Fresh(), j, false), World(Crash), Crashed1(j));
    states, events := Do(states, events, Empty(), Crashed1(j), Restarting(Restart({})), Walked1(j, Reconciling({}, {}, None)));
    states, events := Do(states, events, Empty(), Walked1(j, Reconciling({}, {}, None)), Restarting(ReconcileDone), before);
    RunOf(states, events, before);
    states, events := Do(states, events, Empty(), before, Restarting(Recover), after);
    RunOf(states, events, after);
  }

  function Unsure1(j: JobId): St {
    var t := Finished1(Fresh(), j);
    t.(faulted := {j}, runs := t.runs[j := Returned(DIR, {Mine(Fresh())})])
  }

  function Cancelled1(j: JobId): St {
    var t := Unsure1(j);
    t.(rows := t.rows[j := State.Cancelled])
  }

  lemma Cancels(j: JobId)
    ensures Next(Finished1(Fresh(), j), After(j, Commit(BeforeCommit)), Unsure1(j))
    ensures Next(Unsure1(j), Row(j, Cancel), Cancelled1(j))
  {
    assert CommitStep(Finished1(Fresh(), j), j, BeforeCommit, Unsure1(j));
    assert CancelStep(Unsure1(j), j, Cancelled1(j));
  }

  /** The terminal write fails, then a cancel arrives: a cancelled job with output and manifest in place. */
  lemma CancelledWithOutputs() returns (states: seq<St>, events: seq<Event>, j: JobId)
    ensures IsRun(states, events)
    ensures var s := states[|events|];
      && j in s.runs && s.runs[j].Returned? && j in s.rows && s.rows[j] == State.Cancelled && s.gone == {}
      && j in s.manifests && RecordedOutput(s, OUT, j)
  {
    j := "j1";
    Cancels(j);
    Finishes(Fresh(), j);
    var s := Cancelled1(j);
    assert OUT in s.files && Owner(NAME, s.files[OUT]) in s.manifests[j].owners;
    assert OUT in Recorded(s.files, s.manifests[j]);
    assert j in s.runs && s.runs[j].Returned? && j in s.rows && s.rows[j] == State.Cancelled && s.gone == {} && RecordedOutput(s, OUT, j);
    assert j in s.manifests;
    hide ChainTo, Next, IsRun, Published1, Finished1, Unsure1, Cancelled1, RecordedOutput;
    states, events := Start();
    states, events := Publishes(states, events, Empty(), Fresh(), j, false);
    states, events := Do(states, events, Empty(), Published1(Fresh(), j, false), Event.Export(j, Finish), Finished1(Fresh(), j));
    states, events := Do(states, events, Empty(), Finished1(Fresh(), j), After(j, Commit(BeforeCommit)), Unsure1(j));
    states, events := Do(states, events, Empty(), Unsure1(j), Row(j, Cancel), s);
    RunOf(states, events, s);
  }

  // ------------------------------------------------------------------ removals by path

  function Expired1(j: JobId): St {
    var t := Succeeded1(Fresh(), j);
    t.(files := t.files - {OUT}, gone := {0}, manifests := Drop(t.manifests, j), loose := Drop(t.loose, j))
  }

  /** A client asks for the expired download again. */
  function Asked1(j: JobId): St {
    var t := Expired1(j);
    t.(loose := t.loose[j := {OUT}])
  }

  lemma SucceededFacts(s: St, j: JobId)
    ensures Succeeded1(s, j) ==
      s.(rows := s.rows[j := Succeeded], results := s.results[j := {NAME}], next := s.next + 1, birth := Born(s.birth, s.next, 1, j),
         files := s.files[OUT := s.next], manifests := s.manifests[j := Manifest(DIR, {Mine(s)}, false)], runs := s.runs[j := Returned(DIR, {Mine(s)})])
  {
    PublishedAtOnce(s, j, false);
    hide Published1, Born;
  }

  lemma Expires(j: JobId)
    ensures Next(Succeeded1(Fresh(), j), World(Expire(j)), Expired1(j))
  {
    SucceededFacts(Fresh(), j);
    hide Succeeded1, Born;
    var s := Succeeded1(Fresh(), j);
    assert Owner(NAME, s.files[OUT]) in s.manifests[j].owners;
    assert Recorded(s.files, s.manifests[j]) == {OUT};
    assert (set p | p in {OUT} :: s.files[p]) == {0} by { assert s.files[OUT] == 0 && OUT in {OUT}; }
    assert ExpireStep(s, j, Expired1(j));
  }

  lemma AsksAgain(j: JobId)
    ensures Next(Expired1(j), World(Download(j, DIR)), Asked1(j))
  {
    SucceededFacts(Fresh(), j);
    hide Succeeded1, Born;
    assert Paths(DIR, {NAME}) == {OUT} by { assert Path(DIR, NAME) in Paths(DIR, {NAME}); }
    assert DownloadStep(Expired1(j), j, DIR, Asked1(j));
  }

  lemma Asks(j: JobId) returns (states: seq<St>, events: seq<Event>)
    ensures ChainTo(states, events, Empty(), Asked1(j))
  {
    Expires(j);
    AsksAgain(j);
    assert Unused(Fresh(), j);
    hide ChainTo, Next, Succeeded1, Expired1, Asked1;
    states, events := Start();
    states, events := Succeeds(states, events, Empty(), Fresh(), j);
    states, events := Do(states, events, Empty(), Succeeded1(Fresh(), j), World(Expire(j)), Expired1(j));
    states, events := Do(states, events, Empty(), Expired1(j), World(Download(j, DIR)), Asked1(j));
  }

  function SweptOut(s: St, j: JobId): St
    requires j in s.loose
  {
    Taken(s, OUT).(loose := s.loose[j := s.loose[j] - {OUT}])
  }

  function Replaced1(j: JobId): St {
    var t := Asked1(j);
    t.(next := t.next + 1, files := t.files[OUT := t.next])
  }

  lemma ReplacedFacts(j: JobId)
    ensures var s := Replaced1(j); j in s.loose && OUT in s.files && s.files[OUT] !in s.birth && OUT !in SweptOut(s, j).files
  {
    SucceededFacts(Fresh(), j);
    hide Succeeded1;
  }

  lemma Replaces(j: JobId)
    ensures Next(Asked1(j), World(External(OUT, true)), Replaced1(j))
    ensures j in Replaced1(j).loose && Next(Replaced1(j), World(Sweep(j, OUT)), SweptOut(Replaced1(j), j))
  {
    assert ExternalStep(Asked1(j), OUT, true, Replaced1(j));
    assert SweepStep(Replaced1(j), j, OUT, SweptOut(Replaced1(j), j));
  }

  /** An expired download is asked for again; an outside process takes the free name; retention removes its file. */
  lemma ForeignFileTaken() returns (states: seq<St>, events: seq<Event>, p: Path)
    ensures IsRun(states, events) && |events| > 0 && ByPath(states[|events| - 1], events[|events| - 1], p)
    ensures p in states[|events| - 1].files && states[|events| - 1].files[p] !in states[|events| - 1].birth
    ensures p !in states[|events|].files
  {
    var j := "j1";
    p := OUT;
    Replaces(j);
    ReplacedFacts(j);
    var before := Replaced1(j);
    var after := SweptOut(before, j);
    hide ChainTo, Next, IsRun, Asked1, Replaced1, SweptOut;
    states, events := Asks(j);
    states, events := Do(states, events, Empty(), Asked1(j), World(External(OUT, true)), before);
    RunOf(states, events, before);
    states, events := Do(states, events, Empty(), before, World(Sweep(j, OUT)), after);
    RunOf(states, events, after);
  }

  lemma SweepsOther(i: JobId, j: JobId)
    requires i != j
    ensures Unused(Asked1(i), j)
    ensures var s := Succeeded1(Asked1(i), j);
      && i in s.loose && Next(s, World(Sweep(i, OUT)), SweptOut(s, i))
      && OUT in s.files && s.files[OUT] in s.birth && s.birth[s.files[OUT]] == j
      && j in s.rows && s.rows[j] == Succeeded && j in s.manifests && OUT !in SweptOut(s, i).files
  {
    assert OUT !in Asked1(i).files;
    var s := Succeeded1(Asked1(i), j);
    assert SweepStep(s, i, OUT, SweptOut(s, i));
  }

  /** The same, with another job exporting under the free name: retention of the first job removes the output of the
      second, which has succeeded and whose manifest stands. */
  lemma OtherJobsOutputTaken() returns (states: seq<St>, events: seq<Event>, p: Path, j: JobId)
    ensures IsRun(states, events) && |events| > 0 && ByPath(states[|events| - 1], events[|events| - 1], p)
    ensures var s := states[|events| - 1];
      p in s.files && s.files[p] in s.birth && s.birth[s.files[p]] == j && j in s.rows && s.rows[j] == Succeeded && j in s.manifests
    ensures p !in states[|events|].files
  {
    var i := "j1";
    j := "j2";
    p := OUT;
    assert |i| == |j| == 2 && i[1] != j[1];
    SweepsOther(i, j);
    hide ChainTo, Next, IsRun, Asked1, Succeeded1, SweptOut, Unused;
    var before := Succeeded1(Asked1(i), j);
    var after := SweptOut(before, i);
    states, events := Asks(i);
    states, events := Succeeds(states, events, Empty(), Asked1(i), j);
    RunOf(states, events, before);
    states, events := Do(states, events, Empty(), before, World(Sweep(i, OUT)), after);
    RunOf(states, events, after);
  }
}
