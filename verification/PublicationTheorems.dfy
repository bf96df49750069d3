/** What holds over every run of export publication, with crashes and outside interference anywhere. */
module PublicationTheorems {
  import opened Prelude
  import opened Jobs
  import opened PublicationModel
  import opened PublicationInvariants
  import opened PublicationSteps

  lemma {:induction false} RunInv(states: seq<St>, events: seq<Event>, n: nat)
    requires IsRun(states, events) && n < |states|
    ensures Inv(states[n])
  {
    hide Inv, Next;
    if n == 0 {
      InitInv(states[0]);
    } else {
      RunInv(states, events, n - 1);
      NextInv(states[n - 1], events[n - 1], states[n]);
    }
  }

  // ------------------------------------------------------------------ restart

  /** What is left of manifest m, found at start-up in a configured directory: it stands for an archive, a succeeded
      job, or one that an earlier start-up stranded; otherwise none of its outputs is left. */
  ghost predicate Settled(s': St, stranded: set<JobId>, j: JobId, m: Manifest) {
    if j in s'.manifests then
      s'.manifests[j] == m && (m.archive || (j in s'.rows && (s'.rows[j] == Succeeded || (s'.rows[j] == Failed && j in stranded))))
    else OutputsGone(s', m)
  }

  ghost predicate Intentional(s': St, j: JobId) {
    j in s'.rows && s'.rows[j] == Succeeded
  }

  lemma RecoverSettles(s: St, s': St)
    requires Inv(s) && RecoverStep(s, s')
    ensures Inv(s') && Running !in s'.rows.Values
    ensures forall j <- s.adopted :: AdoptedOk(s', j)
    ensures forall j <- s.recorded :: s.recorded[j].dir in s.mode.configured ==> Settled(s', s.stranded, j, s.recorded[j])
  {
    RecoverInv(s, s');
    forall j | j in s.recorded && s.recorded[j].dir in s.mode.configured ensures Settled(s', s.stranded, j, s.recorded[j]) {
      assert Resolved(s, j, s.recorded[j]);
      if j in s.manifests { assert ManifestOk(s, j, s.manifests[j]); }
    }
    forall j | j in s.adopted ensures AdoptedOk(s', j) { assert AdoptedOk(s, j); }
  }

  /** After Reconcile and Recover, whatever state the crash left and however often recovery itself crashed:
      nothing is running; a manifest that is still in a configured directory belongs to an archive or a
      succeeded job (or to one an earlier restart stranded); every job that this restart completed has its listed
      outputs in place, valid, and named in its result; and of a failed, cancelled or unknown job no
      recorded output is left. */
  lemma RestartTheorem(states: seq<St>, events: seq<Event>, n: nat)
    requires IsRun(states, events) && n < |events| && events[n] == Restarting(Recover)
    ensures Running !in states[n + 1].rows.Values
    ensures forall j <- states[n].recorded :: states[n].recorded[j].dir in states[n].mode.configured ==>
              Settled(states[n + 1], states[n].stranded, j, states[n].recorded[j])
    ensures forall j <- states[n + 1].manifests :: j in states[n].recorded && states[n].recorded[j] == states[n + 1].manifests[j]
    ensures forall j <- states[n].adopted ::
              AdoptedOk(states[n + 1], j)
    ensures forall j <- states[n].recorded ::
              states[n].recorded[j].dir in states[n].mode.configured && !states[n].recorded[j].archive
              && !Intentional(states[n + 1], j) && j !in states[n].stranded ==>
              j !in states[n + 1].manifests && OutputsGone(states[n + 1], states[n].recorded[j])
  {
    var s, s' := states[n], states[n + 1];
    RunInv(states, events, n);
    assert Next(s, events[n], s');
    assert RecoverStep(s, s');
    RecoverSettles(s, s');
  }

  /** A restart fails a running job of which it found a manifest, and leaves that manifest and its outputs behind,
      exactly when the manifest lies outside the directories the restart was configured with. */
  lemma StrandedIffUnconfigured(states: seq<St>, events: seq<Event>, n: nat, j: JobId)
    requires IsRun(states, events) && n < |events| && events[n] == Restarting(Recover)
    requires j in states[n].rows && states[n].rows[j] == Running && j in states[n].recorded
    ensures j in states[n + 1].rows && states[n + 1].rows[j] == Failed && states[n + 1].files == states[n].files
    ensures j in states[n + 1].manifests <==> states[n].recorded[j].dir !in states[n].mode.configured
  {
    RunInv(states, events, n);
    var s := states[n];
    assert Next(s, events[n], states[n + 1]);
    assert RecoverStep(s, states[n + 1]);
    StrandedHere(s, j);
  }

  lemma StrandedHere(s: St, j: JobId)
    requires Inv(s) && s.mode.Reconciled? && j in s.rows && s.rows[j] == Running && j in s.recorded
    ensures j in s.manifests <==> s.recorded[j].dir !in s.mode.configured
  {
    assert s.recorded[j].dir in s.mode.configured ==> Resolved(s, j, s.recorded[j]);
    assert j in s.manifests ==> ManifestOk(s, j, s.manifests[j]);
  }

  /** No restart of the run was given fewer directories than it found manifests in. */
  ghost predicate KeepsDirectories(states: seq<St>, events: seq<Event>)
    requires |states| == |events| + 1
  {
    forall i :: 0 <= i < |events| && events[i].Restarting? && events[i].v.Restart? ==>
      forall j <- states[i].manifests :: states[i].manifests[j].dir in events[i].v.configured
  }

  ghost predicate AllConfigured(s: St) {
    && s.stranded == {}
    && ((s.mode.Reconciling? || s.mode.Reconciled?) ==> forall j <- s.recorded :: s.recorded[j].dir in s.mode.configured)
  }

  /** What serving never touches: the records of the last recovery. */
  ghost predicate SameRecovery(s: St, s': St) {
    s'.stranded == s.stranded && s'.recorded == s.recorded && (s'.mode == s.mode || s'.mode.Down?)
  }

  lemma ServingKeepsRecovery(s: St, e: Event, s': St)
    requires Next(s, e, s') && !e.Restarting?
    ensures SameRecovery(s, s')
  {
    hide SameRecovery, RowNext, ExportNext, AfterNext, WorldNext;
    match e
    case Row(j, r) => RowKeepsRecovery(s, j, r, s');
    case Export(j, x) => ExportKeepsRecovery(s, j, x, s');
    case After(j, a) => AfterKeepsRecovery(s, j, a, s');
    case World(w) => WorldKeepsRecovery(s, w, s');
  }

  lemma RowKeepsRecovery(s: St, j: JobId, r: RowEvent, s': St)
    requires RowNext(s, j, r, s')
    ensures SameRecovery(s, s') && s'.files == s.files && s'.birth == s.birth && s'.orphans == s.orphans
    ensures s'.next == s.next && s'.loose == s.loose
    ensures NoMerge(s) ==> NoMerge(s')
  {}

  lemma AfterKeepsRecovery(s: St, j: JobId, a: AfterEvent, s': St)
    requires AfterNext(s, j, a, s')
    ensures SameRecovery(s, s') && s'.birth == s.birth && s'.next == s.next && s'.loose == s.loose
  {}

  lemma WorldKeepsRecovery(s: St, w: WorldEvent, s': St)
    requires WorldNext(s, w, s')
    ensures SameRecovery(s, s')
    ensures s'.next >= s.next && forall i <- s'.birth :: i in s.birth || i == s.next
  {}

  lemma ExportKeepsRecovery(s: St, j: JobId, x: ExportEvent, s': St)
    requires ExportNext(s, j, x, s')
    ensures SameRecovery(s, s')
    ensures s'.rows == s.rows && s'.orphans == s.orphans && s'.loose == s.loose && s'.unregistered == s.unregistered
    ensures s'.results == s.results
  {}

  lemma RecoveryKeepsConfigured(s: St, v: RecoveryEvent, s': St)
    requires Inv(s) && AllConfigured(s) && RecoveryNext(s, v, s')
    requires v.Restart? ==> forall j <- s.manifests :: s.manifests[j].dir in v.configured
    ensures AllConfigured(s')
  {
    if v.Recover? {
      forall j | j in s.manifests && j in s.rows ensures s.rows[j] != Running {
        assert Resolved(s, j, s.recorded[j]);
      }
    }
  }

  lemma KeepsConfigured(s: St, e: Event, s': St)
    requires Inv(s) && AllConfigured(s) && Next(s, e, s')
    requires e.Restarting? && e.v.Restart? ==> forall j <- s.manifests :: s.manifests[j].dir in e.v.configured
    ensures AllConfigured(s')
  {
    hide Inv, RowNext, ExportNext, AfterNext, WorldNext, RecoveryNext;
    if e.Restarting? {
      RecoveryKeepsConfigured(s, e.v, s');
    } else {
      ServingKeepsRecovery(s, e, s');
    }
  }

  /** While the configuration keeps its directories, a failed or queued job never has a manifest, at any point of the run. */
  lemma {:induction false} FailedHasNoManifest(states: seq<St>, events: seq<Event>, n: nat)
    requires IsRun(states, events) && KeepsDirectories(states, events) && n < |states|
    ensures AllConfigured(states[n])
    ensures forall j <- states[n].manifests :: j in states[n].rows ==> states[n].rows[j] != Failed && states[n].rows[j] != Queued
  {
    RunInv(states, events, n);
    if n > 0 {
      FailedHasNoManifest(states, events, n - 1);
      RunInv(states, events, n - 1);
      assert Next(states[n - 1], events[n - 1], states[n]);
      hide Inv, Next;
      KeepsConfigured(states[n - 1], events[n - 1], states[n]);
    }
    forall j | j in states[n].manifests && j in states[n].rows
      ensures states[n].rows[j] != Failed && states[n].rows[j] != Queued
    {
      ManifestMeaning(states[n], j);
    }
  }

  lemma ManifestMeaning(s: St, j: JobId)
    requires Inv(s) && j in s.manifests
    ensures ManifestOk(s, j, s.manifests[j])
  {}

  /** A succeeded job whose manifest still stands reports exactly the names that the manifest lists. */
  lemma SucceededReportsItsManifest(states: seq<St>, events: seq<Event>, n: nat, j: JobId)
    requires IsRun(states, events) && n < |states|
    requires j in states[n].manifests && j in states[n].rows && states[n].rows[j] == Succeeded
    ensures j in states[n].results && states[n].results[j] == Names(states[n].manifests[j].owners)
  {
    RunInv(states, events, n);
    ManifestMeaning(states[n], j);
  }

  /** Whoever reads succeeded has a result to show. */
  ghost predicate Reported(s: St) {
    forall j <- s.rows :: s.rows[j] == Succeeded ==> j in s.results
  }

  lemma ReportedStep(s: St, e: Event, s': St)
    requires Next(s, e, s') && Reported(s)
    ensures Reported(s')
  {
    hide Reported, RowNext, ExportNext, AfterNext, WorldNext, RecoveryNext;
    match e
    case Row(j, r) => ReportedRow(s, j, r, s');
    case Export(j, x) => ExportKeepsRecovery(s, j, x, s'); ReportedSame(s, s');
    case After(j, a) => ReportedAfter(s, j, a, s');
    case World(w) => ReportedWorld(s, w, s'); ReportedSame(s, s');
    case Restarting(v) => ReportedRecovery(s, v, s');
  }

  lemma ReportedSame(s: St, s': St)
    requires Reported(s) && s'.rows == s.rows && s'.results == s.results
    ensures Reported(s')
  {}

  lemma ReportedRow(s: St, j: JobId, r: RowEvent, s': St)
    requires RowNext(s, j, r, s') && Reported(s)
    ensures Reported(s')
  {}

  lemma ReportedAfter(s: St, j: JobId, a: AfterEvent, s': St)
    requires AfterNext(s, j, a, s') && Reported(s)
    ensures Reported(s')
  {}

  lemma ReportedWorld(s: St, w: WorldEvent, s': St)
    requires WorldNext(s, w, s')
    ensures s'.rows == s.rows && s'.results == s.results
  {}

  lemma ReportedRecovery(s: St, v: RecoveryEvent, s': St)
    requires RecoveryNext(s, v, s') && Reported(s)
    ensures Reported(s')
  {}

  /** In every state of every run a succeeded job has a result: an export that was rolled back never reads succeeded. */
  lemma {:induction false} SucceededHasResult(states: seq<St>, events: seq<Event>, n: nat, j: JobId)
    requires IsRun(states, events) && n < |states| && j in states[n].rows && states[n].rows[j] == Succeeded
    ensures j in states[n].results
  {
    AlwaysReported(states, events, n);
    hide IsRun;
  }

  lemma {:induction false} AlwaysReported(states: seq<St>, events: seq<Event>, n: nat)
    requires IsRun(states, events) && n < |states|
    ensures Reported(states[n])
  {
    hide Next, Reported;
    if n == 0 {
      NothingToReport(states[0]);
    } else {
      AlwaysReported(states, events, n - 1);
      ReportedStep(states[n - 1], events[n - 1], states[n]);
    }
  }

  lemma NothingToReport(s: St)
    requires Init(s)
    ensures Reported(s)
  {}

  // ------------------------------------------------------- publication invariant

  /** Wherever a run stands, a visible output is listed with its inode in its owner's manifest on disk; the only
      exceptions are outputs of a merge rollback that has already dropped the manifest, and what a crash
      in that window left. */
  lemma VisibleIsListed(states: seq<St>, events: seq<Event>, n: nat, p: Path)
    requires IsRun(states, events) && n < |states| && p in states[n].files && states[n].files[p] in states[n].birth
    ensures var s, i := states[n], states[n].files[p];
      ListedInManifest(s, s.birth[i], p, i) || Exposed(s.runs, s.birth[i], i) || i in s.orphans
  {
    RunInv(states, events, n);
    assert Tracked(states[n], p, states[n].files[p]);
  }

  ghost predicate SeparateOnly(events: seq<Event>) {
    forall i :: 0 <= i < |events| ==> !(events[i].Export? && events[i].x.Begin? && events[i].x.merge)
  }

  ghost predicate NoMerge(s: St) {
    s.orphans == {} && forall j <- s.runs :: MergeFree(s.runs[j])
  }

  predicate MergeFree(r: Run) {
    !(r.Publishing? && r.merge) && !(r.RollingBack? && r.merge)
  }

  lemma SeparateExport(s: St, j: JobId, x: ExportEvent, s': St)
    requires NoMerge(s) && ExportNext(s, j, x, s') && !(x.Begin? && x.merge)
    ensures NoMerge(s')
  {
    ExportKeepsRecovery(s, j, x, s');
    var r' := ExportRun(s, j, x, s');
    ExportModes(s, j, x, s');
    hide ExportNext, MergeFree;
    forall k | k in s'.runs ensures MergeFree(s'.runs[k]) {}
  }

  lemma ExportRun(s: St, j: JobId, x: ExportEvent, s': St) returns (r': Run)
    requires ExportNext(s, j, x, s')
    ensures j in s.runs && s'.runs == s.runs[j := r']
  {
    hide Born, Drop, RemoveOwned;
    r' := s'.runs[j];
  }

  lemma ExportModes(s: St, j: JobId, x: ExportEvent, s': St)
    requires ExportNext(s, j, x, s') && !(x.Begin? && x.merge)
    ensures j in s.runs && j in s'.runs && (MergeFree(s.runs[j]) ==> MergeFree(s'.runs[j]))
  {}

  lemma SeparateAfter(s: St, j: JobId, a: AfterEvent, s': St)
    requires NoMerge(s) && AfterNext(s, j, a, s')
    ensures NoMerge(s')
  {}

  lemma SeparateWorld(s: St, w: WorldEvent, s': St)
    requires NoMerge(s) && WorldNext(s, w, s')
    ensures NoMerge(s')
  {
    assert s'.runs == s.runs || s'.runs == map[];
  }

  lemma SeparateRecovery(s: St, v: RecoveryEvent, s': St)
    requires NoMerge(s) && RecoveryNext(s, v, s')
    ensures NoMerge(s')
  {
    assert s'.runs == s.runs;
  }

  lemma SeparateStep(s: St, e: Event, s': St)
    requires NoMerge(s) && Next(s, e, s') && !(e.Export? && e.x.Begin? && e.x.merge)
    ensures NoMerge(s')
  {
    hide NoMerge, RowNext, ExportNext, AfterNext, WorldNext, RecoveryNext;
    match e
    case Export(j, x) => SeparateExport(s, j, x, s');
    case After(j, a) => SeparateAfter(s, j, a, s');
    case Row(j, r) => RowKeepsRecovery(s, j, r, s');
    case World(w) => SeparateWorld(s, w, s');
    case Restarting(v) => SeparateRecovery(s, v, s');
  }

  lemma {:induction false} SeparateRun(states: seq<St>, events: seq<Event>, n: nat)
    requires IsRun(states, events) && SeparateOnly(events) && n < |states|
    ensures NoMerge(states[n])
  {
    if n > 0 {
      SeparateRun(states, events, n - 1);
      assert Next(states[n - 1], events[n - 1], states[n]);
      hide Next;
      SeparateStep(states[n - 1], events[n - 1], states[n]);
    }
  }

  /** In separate mode the invariant has no exception: every visible output is listed, in every state of every run. */
  lemma SeparateAlwaysListed(states: seq<St>, events: seq<Event>, n: nat, p: Path)
    requires IsRun(states, events) && SeparateOnly(events) && n < |states|
    requires p in states[n].files && states[n].files[p] in states[n].birth
    ensures ListedInManifest(states[n], states[n].birth[states[n].files[p]], p, states[n].files[p])
  {
    VisibleIsListed(states, events, n, p);
    SeparateRun(states, events, n);
  }

  ghost predicate Unlisted(s: St, j: JobId) {
    exists p <- s.files :: s.files[p] in s.birth && s.birth[s.files[p]] == j && !ListedInManifest(s, j, p, s.files[p])
  }

  /** Clearing the manifest during rollback exposes an output exactly in merge mode with its output still visible. */
  lemma RollbackExposesIff(s: St, j: JobId, s': St)
    requires Inv(s) && RollbackManifestStep(s, j, s')
    ensures Unlisted(s', j) <==> s.runs[j].merge && !Hidden(s, j)
  {
    RunHasRow(s, j);
    assert Listed(s, j, s.runs[j].dir, s.runs[j].todo);
  }

  // ------------------------------------------------------ cancellation against publication

  /** Once the runner of a job has returned without meeting a transient failure, the compare-and-swap has decided:
      the job succeeded, its result names its outputs and they are kept, or it was cancelled and
      neither an output nor the manifest is left. */
  lemma CancelVersusPublish(states: seq<St>, events: seq<Event>, n: nat, j: JobId)
    requires IsRun(states, events) && n < |states| && j in states[n].runs && states[n].runs[j].Returned?
    requires j !in states[n].faulted
    ensures var s, r := states[n], states[n].runs[j];
      && j in s.rows
      && ((s.rows[j] == Succeeded && Kept(s, r.dir, r.owners) && j in s.results && s.results[j] == Names(r.owners))
          || (s.rows[j] == State.Cancelled && j !in s.manifests && Hidden(s, j)))
  {
    RunInv(states, events, n);
    assert RunOk(states[n], j, states[n].runs[j]);
  }

  /** After a transient failure of the terminal write or of the read that follows it the verdict can be mixed: of a
      job that ends up cancelled once its runner has returned, an output that nobody else took is still there, with
      the manifest that lists it, exactly when there was such a failure. */
  lemma CancelledKeepsOutputsIff(states: seq<St>, events: seq<Event>, n: nat, j: JobId, o: Owner)
    requires IsRun(states, events) && n < |states| && j in states[n].runs && states[n].runs[j].Returned?
    requires j in states[n].rows && states[n].rows[j] == State.Cancelled
    requires o in states[n].runs[j].owners && o.inode !in states[n].gone
    ensures Visible(states[n].files, states[n].runs[j].dir, o) <==> j in states[n].faulted
    ensures j in states[n].manifests && o in states[n].manifests[j].owners <==> j in states[n].faulted
  {
    RunInv(states, events, n);
    var s := states[n];
    var r := s.runs[j];
    assert RunOk(s, j, r);
    hide Inv, RunOk;
    assert Own(s, j, r.owners);
    if j in s.faulted {
      assert Kept(s, r.dir, r.owners) && Stands(s, j, r.owners) && ManifestIs(s, j, r.dir, r.owners);
    } else {
      assert Hidden(s, j) && NoManifest(s, j);
    }
  }

  // ------------------------------------------------------------ what may be deleted

  /** The job for which a step handles files. */
  ghost function Actor(s: St, e: Event): JobId {
    match e
    case Row(j, _) => j
    case Export(j, _) => j
    case After(j, _) => j
    case World(Expire(j)) => j
    case World(Sweep(j, _)) => j
    case World(ArchiveDiscard(b, _)) => b
    case Restarting(CleanOutput(_)) => if s.mode.Reconciling? && s.mode.busy.Some? then s.mode.busy.value.id else ""
    case _ => ""
  }

  ghost predicate BornFor(s: St, p: Path, j: JobId) {
    p in s.files && s.files[p] in s.birth && s.birth[s.files[p]] == j
  }

  /** The entry is recorded by name and inode as an output of j: in its manifest, or in what its run has left to remove. */
  ghost predicate RecordedOutput(s: St, p: Path, j: JobId) {
    && p in s.files
    && ((j in s.manifests && p in Recorded(s.files, s.manifests[j]))
        || (j in s.runs && (s.runs[j].RollingBack? || s.runs[j].Removing?) && p.dir == s.runs[j].dir && Owner(p.name, s.files[p]) in s.runs[j].todo))
  }

  /** A removal that looks at the path alone: retention of a job without registered manifest, and the removal of an
      archive that could not be opened. */
  ghost predicate ByPath(s: St, e: Event, p: Path) {
    match e
    case World(Sweep(_, q)) => p == q
    case World(ArchiveDiscard(b, o)) => b in s.manifests && p == Path(s.manifests[b].dir, o.name)
    case _ => false
  }

  predicate External(e: Event) { e.World? && e.w.External? }

  ghost predicate Untouched(s: St, s': St, p: Path)
    requires p in s.files
  {
    p in s'.files && s'.files[p] == s.files[p]
  }

  ghost predicate OwnTaken(s: St, s': St, p: Path, j: JobId) {
    p !in s'.files && BornFor(s, p, j) && RecordedOutput(s, p, j)
  }

  lemma ExportFiles(s: St, j: JobId, x: ExportEvent, s': St, p: Path)
    requires Inv(s) && ExportNext(s, j, x, s') && p in s.files
    ensures Untouched(s, s', p) ||
      (x.RollbackOutput? && j in s.rows && (s.rows[j] == Running || s.rows[j] == State.Cancelled) && OwnTaken(s, s', p, j))
  {
    RunHasRow(s, j);
    if x.RollbackOutput? {
      assert Own(s, j, s.runs[j].todo);
    }
    hide Inv, RunOk;
  }

  lemma AfterFiles(s: St, j: JobId, a: AfterEvent, s': St, p: Path)
    requires Inv(s) && AfterNext(s, j, a, s') && p in s.files
    ensures Untouched(s, s', p) || (a.RemoveOutput? && j in s.rows && s.rows[j] == State.Cancelled && OwnTaken(s, s', p, j))
  {
    RunHasRow(s, j);
    if a.RemoveOutput? {
      assert Own(s, j, s.runs[j].owners);
    }
    hide Inv, RunOk;
  }

  lemma WorldFiles(s: St, w: WorldEvent, s': St, p: Path)
    requires Inv(s) && WorldNext(s, w, s') && p in s.files && !w.External?
    ensures if ByPath(s, World(w), p) then p !in s'.files else Untouched(s, s', p) || (w.Expire? && OwnTaken(s, s', p, w.j))
  {
    if w.Expire? {
      assert ManifestOk(s, w.j, s.manifests[w.j]);
    }
    hide Inv, ManifestOk;
  }

  lemma RecoveryFiles(s: St, v: RecoveryEvent, s': St, p: Path)
    requires Inv(s) && RecoveryNext(s, v, s') && p in s.files
    ensures Untouched(s, s', p) || (v.CleanOutput? && s.mode.Reconciling? && s.mode.busy.Some? && OwnTaken(s, s', p, s.mode.busy.value.id))
  {
    if v.CleanOutput? {
      var id := s.mode.busy.value.id;
      assert CleaningOk(s, s.mode.busy.value, s.mode.pending);
      assert ManifestOk(s, id, s.manifests[id]);
    }
    hide Inv, ManifestOk, CleaningOk;
  }

  /** No step of the program replaces a directory entry.  One that it removes was born for the very job that the step
      is about and is recorded for it by name and inode, unless the step goes by path; that one removes whatever it
      finds there. */
  lemma DeletesOnlyRecorded(s: St, e: Event, s': St, p: Path)
    requires Inv(s) && Next(s, e, s') && !External(e) && p in s.files
    ensures p in s'.files ==> s'.files[p] == s.files[p]
    ensures p !in s'.files ==> ByPath(s, e, p) || (BornFor(s, p, Actor(s, e)) && RecordedOutput(s, p, Actor(s, e)))
    ensures ByPath(s, e, p) ==> p !in s'.files
  {
    hide Inv, RowNext, ExportNext, AfterNext, WorldNext, RecoveryNext, RecordedOutput, BornFor;
    match e
    case Row(j, r) => RowKeepsRecovery(s, j, r, s');
    case Export(j, x) => ExportFiles(s, j, x, s', p);
    case After(j, a) => AfterFiles(s, j, a, s', p);
    case World(w) => WorldFiles(s, w, s', p);
    case Restarting(v) => RecoveryFiles(s, v, s', p);
  }

  /** A step takes somebody else's entry exactly when it goes by path and finds somebody else's file. */
  lemma TakesForeignIff(s: St, e: Event, s': St, p: Path)
    requires Inv(s) && Next(s, e, s') && !External(e) && p in s.files
    ensures p !in s'.files && !BornFor(s, p, Actor(s, e)) <==> ByPath(s, e, p) && !BornFor(s, p, Actor(s, e))
  {
    hide Inv, Next, BornFor, RecordedOutput, ByPath, Actor;
    DeletesOnlyRecorded(s, e, s', p);
  }

  /** Over any stretch of a run without outside steps a file of an outside process stays exactly when no removal by
      path hits its entry. */
  lemma {:induction false} ForeignFilesSurvive(states: seq<St>, events: seq<Event>, a: nat, b: nat, p: Path)
    requires IsRun(states, events) && a <= b < |states|
    requires forall i :: a <= i < b ==> !External(events[i])
    requires p in states[a].files && states[a].files[p] !in states[a].birth
    ensures states[a].files[p] < states[b].next && states[a].files[p] !in states[b].birth
    ensures p in states[b].files && states[b].files[p] == states[a].files[p] <==> forall i :: a <= i < b ==> !ByPath(states[i], events[i], p)
  {
    hide Inv, Next, ByPath, Init;
    RunInv(states, events, a);
    FilesBelow(states[a], p);
    if a < b {
      ForeignFilesSurvive(states, events, a, b - 1, p);
      RunInv(states, events, b - 1);
      ForeignStep(states[b - 1], events[b - 1], states[b], p, states[a].files[p]);
    }
  }

  lemma FilesBelow(s: St, p: Path)
    requires Inv(s) && p in s.files
    ensures s.files[p] < s.next
  {}

  /** The entry p holds the foreign inode i. */
  ghost predicate Holds(s: St, p: Path, i: Inode) {
    p in s.files && s.files[p] == i
  }

  lemma ForeignStep(s: St, e: Event, s': St, p: Path, i: Inode)
    requires Inv(s) && Next(s, e, s') && !External(e) && i < s.next && i !in s.birth
    ensures i < s'.next && i !in s'.birth
    ensures Holds(s', p, i) <==> Holds(s, p, i) && !ByPath(s, e, p)
  {
    hide Inv, Next, ByPath;
    ForeignStaysForeign(s, e, s', i);
    if Holds(s, p, i) {
      DeletesOnlyRecorded(s, e, s', p);
    } else if p in s'.files {
      NewEntriesAreBorn(s, e, s', p);
    }
  }

  /** The program only ever creates entries for files born for a job. */
  lemma NewEntriesAreBorn(s: St, e: Event, s': St, p: Path)
    requires Inv(s) && Next(s, e, s') && !External(e) && p in s'.files
    ensures (p in s.files && s.files[p] == s'.files[p]) || s'.files[p] in s.birth
  {
    hide Inv, RowNext, ExportNext, AfterNext, WorldNext, RecoveryNext;
    match e
    case Row(j, r) => RowKeepsRecovery(s, j, r, s');
    case Export(j, x) => ExportEntries(s, j, x, s', p);
    case After(j, a) => AfterEntries(s, j, a, s', p);
    case World(w) => WorldEntries(s, w, s', p);
    case Restarting(v) => RecoveryEntries(s, v, s', p);
  }

  lemma ExportEntries(s: St, j: JobId, x: ExportEvent, s': St, p: Path)
    requires Inv(s) && ExportNext(s, j, x, s') && p in s'.files
    ensures (p in s.files && s.files[p] == s'.files[p]) || s'.files[p] in s.birth
  {
    if x.Publish? {
      hide ExportNext;
      PublishEntries(s, j, s', p);
    } else {
      hide Inv;
      OthersShrink(s, j, x, s', p);
    }
  }

  lemma PublishEntries(s: St, j: JobId, s': St, p: Path)
    requires Inv(s) && PublishStep(s, j, s') && p in s'.files
    ensures (p in s.files && s.files[p] == s'.files[p]) || s'.files[p] in s.birth
  {
    RunHasRow(s, j);
    var r := s.runs[j];
    assert r.plan[r.i] in r.plan.Values;
    assert Own(s, j, r.plan.Values);
    hide Inv, RunOk;
  }

  lemma OthersShrink(s: St, j: JobId, x: ExportEvent, s': St, p: Path)
    requires ExportNext(s, j, x, s') && !x.Publish? && p in s'.files
    ensures p in s.files && s.files[p] == s'.files[p]
  {}

  lemma AfterEntries(s: St, j: JobId, a: AfterEvent, s': St, p: Path)
    requires AfterNext(s, j, a, s') && p in s'.files
    ensures p in s.files && s.files[p] == s'.files[p]
  {}

  lemma WorldEntries(s: St, w: WorldEvent, s': St, p: Path)
    requires Inv(s) && WorldNext(s, w, s') && !w.External? && p in s'.files
    ensures (p in s.files && s.files[p] == s'.files[p]) || s'.files[p] in s.birth
  {
    if w.ArchivePublish? {
      assert ManifestOk(s, w.b, s.manifests[w.b]);
    }
    hide Inv, ManifestOk;
  }

  lemma RecoveryEntries(s: St, v: RecoveryEvent, s': St, p: Path)
    requires RecoveryNext(s, v, s') && p in s'.files
    ensures p in s.files && s.files[p] == s'.files[p]
  {}

  /** The requests after which an artifact is known by path alone. */
  predicate RegistersPath(e: Event) {
    e.World? && (e.w.Download? || e.w.Reopen? || e.w.ArchiveDiscard?)
  }

  lemma {:induction false} NothingLoose(states: seq<St>, events: seq<Event>, n: nat)
    requires IsRun(states, events) && n < |states| && forall i :: 0 <= i < n ==> !RegistersPath(events[i])
    ensures states[n].loose == map[]
  {
    hide Next;
    if n > 0 {
      NothingLoose(states, events, n - 1);
      StaysEmpty(states[n - 1], events[n - 1], states[n]);
    }
  }

  lemma StaysEmpty(s: St, e: Event, s': St)
    requires Next(s, e, s') && s.loose == map[] && !RegistersPath(e)
    ensures s'.loose == map[]
  {
    hide RowNext, ExportNext, AfterNext, WorldNext, RecoveryNext;
    match e
    case Row(j, r) => RowKeepsRecovery(s, j, r, s');
    case Export(j, x) => ExportKeepsRecovery(s, j, x, s');
    case After(j, a) => AfterKeepsRecovery(s, j, a, s');
    case World(w) => WorldStaysEmpty(s, w, s');
    case Restarting(v) => RecoveryKeepsBirth(s, v, s');
  }

  lemma WorldStaysEmpty(s: St, w: WorldEvent, s': St)
    requires WorldNext(s, w, s') && s.loose == map[] && !RegistersPath(World(w))
    ensures s'.loose == map[]
  {}

  /** Without download requests nothing goes by path, and outside files always survive. */
  lemma ForeignFilesSurviveWithoutDownloads(states: seq<St>, events: seq<Event>, a: nat, b: nat, p: Path)
    requires IsRun(states, events) && a <= b < |states|
    requires forall i :: a <= i < b ==> !External(events[i])
    requires forall i :: 0 <= i < b ==> !RegistersPath(events[i])
    requires p in states[a].files && states[a].files[p] !in states[a].birth
    ensures p in states[b].files && states[b].files[p] == states[a].files[p]
  {
    ForeignFilesSurvive(states, events, a, b, p);
    forall i | a <= i < b ensures !ByPath(states[i], events[i], p) {
      NothingLoose(states, events, i);
      assert Next(states[i], events[i], states[i + 1]);
      hide IsRun;
    }
  }

  /** Inodes are born fresh, so an existing foreign one is never claimed later. */
  lemma ForeignStaysForeign(s: St, e: Event, s': St, i: Inode)
    requires Next(s, e, s') && i < s.next && i !in s.birth
    ensures i !in s'.birth && i < s'.next
  {
    hide RowNext, ExportNext, AfterNext, WorldNext, RecoveryNext;
    match e
    case Row(j, r) => RowKeepsRecovery(s, j, r, s');
    case Export(j, x) => ForeignExport(s, j, x, s', i);
    case After(j, a) => AfterKeepsRecovery(s, j, a, s');
    case World(w) => WorldKeepsRecovery(s, w, s');
    case Restarting(v) => RecoveryKeepsBirth(s, v, s');
  }

  lemma ForeignExport(s: St, j: JobId, x: ExportEvent, s': St, i: Inode)
    requires ExportNext(s, j, x, s') && i < s.next && i !in s.birth
    ensures i !in s'.birth && i < s'.next
  {}

  lemma RecoveryKeepsBirth(s: St, v: RecoveryEvent, s': St)
    requires RecoveryNext(s, v, s')
    ensures s'.birth == s.birth && s'.next == s.next && s'.loose == s.loose
  {}

  /** Apart from retention of their own job, outside processes and restart cleanup, an output of a succeeded job
      leaves exactly by a removal by path. */
  lemma SucceededOutputsStayIff(s: St, e: Event, s': St, p: Path)
    requires Inv(s) && Next(s, e, s') && p in s.files && s.files[p] in s.birth
    requires var j := s.birth[s.files[p]]; j in s.rows && s.rows[j] == Succeeded
    requires !(e.World? && (e.w.External? || e.w.Expire?)) && !(e.Restarting? && e.v.CleanOutput?)
    ensures p in s'.files && s'.files[p] == s.files[p] <==> !ByPath(s, e, p)
  {
    hide Inv, RowNext, ExportNext, AfterNext, WorldNext, RecoveryNext;
    match e
    case Row(j, r) => RowKeepsRecovery(s, j, r, s');
    case Export(j, x) => ExportFiles(s, j, x, s', p);
    case After(j, a) => AfterFiles(s, j, a, s', p);
    case World(w) => WorldFiles(s, w, s', p);
    case Restarting(v) => RecoveryFiles(s, v, s', p);
  }

  // ------------------------------------------------------------ who goes by path

  /** Only a manifest that the last restart found can be unregistered; no run is under way for its job. */
  ghost predicate OldUnregistered(s: St) {
    forall j <- s.unregistered :: j in s.manifests && j !in s.runs && j in s.recorded && s.recorded[j] == s.manifests[j]
  }

  lemma {:induction false} UnregisteredIsOld(states: seq<St>, events: seq<Event>, n: nat)
    requires IsRun(states, events) && n < |states|
    ensures OldUnregistered(states[n])
  {
    hide Inv, Next;
    if n > 0 {
      UnregisteredIsOld(states, events, n - 1);
      RunInv(states, events, n - 1);
      UnregisteredStep(states[n - 1], events[n - 1], states[n]);
    }
  }

  lemma UnregisteredStep(s: St, e: Event, s': St)
    requires Inv(s) && Next(s, e, s') && OldUnregistered(s)
    ensures OldUnregistered(s')
  {
    hide Inv, OldUnregistered, RowNext, ExportNext, AfterNext, WorldNext, RecoveryNext;
    match e
    case Row(j, r) => UnregisteredRow(s, j, r, s');
    case Export(j, x) => UnregisteredExport(s, j, x, s');
    case After(j, a) => UnregisteredAfter(s, j, a, s');
    case World(w) => UnregisteredWorld(s, w, s');
    case Restarting(v) => UnregisteredRecovery(s, v, s');
  }

  lemma UnregisteredRow(s: St, j: JobId, r: RowEvent, s': St)
    requires Inv(s) && RowNext(s, j, r, s') && OldUnregistered(s)
    ensures OldUnregistered(s')
  {
    if r.Claim? { QueuedIsClean(s, j); }
    hide Inv;
  }

  lemma UnregisteredExport(s: St, j: JobId, x: ExportEvent, s': St)
    requires ExportNext(s, j, x, s') && OldUnregistered(s)
    ensures OldUnregistered(s')
  {
    var r' := ExportRun(s, j, x, s');
    ExportManifests(s, j, x, s');
    ExportKeepsRecovery(s, j, x, s');
    hide ExportNext;
  }

  lemma ExportManifests(s: St, j: JobId, x: ExportEvent, s': St)
    requires ExportNext(s, j, x, s')
    ensures forall k <- s.manifests :: k != j ==> k in s'.manifests && s'.manifests[k] == s.manifests[k]
  {
    if x.WriteManifest? || x.Finish? || x.RollbackManifest? {
      assert x.WriteManifest? ==> WriteManifestStep(s, j, s');
      assert x.Finish? ==> FinishStep(s, j, s');
      assert x.RollbackManifest? ==> RollbackManifestStep(s, j, s');
      hide ExportNext;
    } else {
      OthersKeepManifests(s, j, x, s');
    }
  }

  lemma OthersKeepManifests(s: St, j: JobId, x: ExportEvent, s': St)
    requires ExportNext(s, j, x, s') && !x.WriteManifest? && !x.Finish? && !x.RollbackManifest?
    ensures s'.manifests == s.manifests
  {}

  lemma UnregisteredAfter(s: St, j: JobId, a: AfterEvent, s': St)
    requires AfterNext(s, j, a, s') && OldUnregistered(s)
    ensures OldUnregistered(s')
  {
    assert j in s.runs;
  }

  lemma UnregisteredWorld(s: St, w: WorldEvent, s': St)
    requires WorldNext(s, w, s') && OldUnregistered(s)
    ensures OldUnregistered(s')
  {}

  lemma UnregisteredRecovery(s: St, v: RecoveryEvent, s': St)
    requires Inv(s) && RecoveryNext(s, v, s') && OldUnregistered(s)
    ensures OldUnregistered(s')
  {
    assert s'.runs == s.runs == map[];
    hide Inv;
  }

  /** Retention goes by path only for a job that has no manifest on disk, or one that the last restart found and has
      not registered; a manifest that this process wrote makes it go by identity. */
  lemma SweepMeans(states: seq<St>, events: seq<Event>, n: nat, j: JobId, p: Path)
    requires IsRun(states, events) && n < |events| && events[n] == World(Sweep(j, p))
    ensures j in states[n].manifests ==>
              j in states[n].unregistered && j !in states[n].runs && j in states[n].recorded && states[n].recorded[j] == states[n].manifests[j]
  {
    UnregisteredIsOld(states, events, n);
    assert Next(states[n], events[n], states[n + 1]);
    hide IsRun;
  }
}
