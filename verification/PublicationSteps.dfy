/** Every event of the publication system keeps its invariant. */
module PublicationSteps {
  import opened Prelude
  import opened Jobs
  import opened PublicationModel
  import opened PublicationInvariants

  /** A run exists only for a job that has a row and has left the queue. */
  lemma RunHasRow(s: St, j: JobId)
    requires Inv(s) && j in s.runs
    ensures j in s.rows && s.rows[j] != Queued && s.rows[j] != Failed && RunOk(s, j, s.runs[j]) && s.mode.Serving?
    ensures j in s.manifests ==> !s.manifests[j].archive
  {
    assert RunOk(s, j, s.runs[j]);
    if j in s.manifests {
      assert ManifestOk(s, j, s.manifests[j]);
    }
  }

  /** The tracking obligation of JobStepInv: j's visible outputs are within todo, and todo is still accounted for. */
  ghost predicate TrackedOf(s: St, s': St, j: JobId) {
    forall p <- s'.files :: s'.files[p] in s'.birth && s'.birth[s'.files[p]] == j ==> Tracked(s', p, s'.files[p])
  }

  lemma ListedIsTracked(s': St, j: JobId, dir: Dir, owners: set<Owner>)
    requires Listed(s', j, dir, owners)
    requires owners == {} || (j in s'.manifests && s'.manifests[j].dir == dir && owners <= s'.manifests[j].owners)
    ensures TrackedOf(s', s', j)
  {
    forall p | p in s'.files && s'.files[p] in s'.birth && s'.birth[s'.files[p]] == j ensures Tracked(s', p, s'.files[p]) {
      assert Owner(p.name, s'.files[p]) in owners;
    }
  }

  // --------------------------------------------------------------------- rows

  lemma ClaimInv(s: St, j: JobId, s': St)
    requires Inv(s) && ClaimStep(s, j, s')
    ensures Inv(s')
  {
    QueuedIsClean(s, j);
    assert Hidden(s, j);
    OutputsFrameSame(s, s', j, "", {});
    assert RunOk(s', j, Preparing);
    StillStepInv(s, s', j);
  }

  lemma RowInv(s: St, j: JobId, e: RowEvent, s': St)
    requires Inv(s) && RowNext(s, j, e, s')
    ensures Inv(s')
  {
    match e
    case Enqueue => EnqueueInv(s, j, s');
    case Claim => ClaimInv(s, j, s');
    case Cancel => CancelInv(s, j, s');
  }

  // ------------------------------------------------------------- the exporter

  lemma BeginInv(s: St, j: JobId, merge: bool, dir: Dir, plan: map<nat, Owner>, size: nat, s': St)
    requires Inv(s) && BeginStep(s, j, merge, dir, plan, size, s')
    ensures Inv(s')
  {
    RunHasRow(s, j);
    forall k | k != j ensures SameOutputs(s, s', k) {}
    assert Own(s', j, plan.Values);
    assert Hidden(s, j);
    assert Listed(s', j, dir, {});
    assert RunOk(s', j, s'.runs[j]);
    JobStepInv(s, s', j);
  }

  lemma SkipInv(s: St, j: JobId, s': St)
    requires Inv(s) && SkipStep(s, j, s')
    ensures Inv(s')
  {
    RunHasRow(s, j);
    var r := s.runs[j];
    OutputsFrameSame(s, s', j, r.dir, r.published);
    OutputsFrameSame(s, s', j, r.dir, r.plan.Values);
    assert RunOk(s', j, s'.runs[j]);
    RunReplacedInv(s, j, s'.runs[j], s');
  }

  lemma WriteManifestInv(s: St, j: JobId, s': St)
    requires Inv(s) && WriteManifestStep(s, j, s')
    ensures Inv(s')
  {
    RunHasRow(s, j);
    var r := s.runs[j];
    OutputsFrameSame(s, s', j, r.dir, r.published);
    OutputsFrameSame(s, s', j, r.dir, r.plan.Values);
    PlannedAreValues(r.plan, r.published, r.i);
    assert RunOk(s', j, s'.runs[j]);
    assert ManifestOk(s', j, s'.manifests[j]);
    ListedIsTracked(s', j, r.dir, r.published);
    StillStepInv(s, s', j);
  }

  lemma PlannedAreValues(plan: map<nat, Owner>, published: set<Owner>, i: nat)
    requires Planned(plan, published, i)
    ensures published <= plan.Values
  {}

  lemma PublishRun(s: St, j: JobId, s': St)
    requires j in s.runs && RunOk(s, j, s.runs[j]) && PublishStep(s, j, s')
    ensures RunOk(s', j, s'.runs[j])
    ensures Listed(s', j, s'.runs[j].dir, s'.runs[j].published)
  {
    var r := s.runs[j];
    var o := r.plan[r.i];
    PlannedAreValues(r.plan, r.published, r.i);
    assert Listed(s', j, r.dir, r.published + {o});
    assert Kept(s', r.dir, r.published + {o});
    assert Planned(r.plan, r.published + {o}, r.i + 1);
  }

  lemma PublishInv(s: St, j: JobId, s': St)
    requires Inv(s) && PublishStep(s, j, s')
    ensures Inv(s')
  {
    RunHasRow(s, j);
    var r := s.runs[j];
    var o := r.plan[r.i];
    assert o in r.plan.Values;
    PlannedAreValues(r.plan, r.published, r.i);
    PublishRun(s, j, s');
    hide RunOk, Kept;
    forall k | k != j ensures SameOutputs(s, s', k) {}
    assert ManifestOk(s, j, s.manifests[j]);
    ListedIsTracked(s', j, r.dir, r.published + {o});
    JobStepInv(s, s', j);
  }

  lemma CollideInv(s: St, j: JobId, name: Name, s': St)
    requires Inv(s) && CollideStep(s, j, name, s')
    ensures Inv(s')
  {
    RunHasRow(s, j);
    var r := s.runs[j];
    OutputsFrameSame(s, s', j, r.dir, r.published);
    var plan' := r.plan[r.i := Owner(name, r.plan[r.i].inode)];
    assert r.plan[r.i] in r.plan.Values;
    assert Own(s', j, plan'.Values);
    assert Planned(plan', r.published, r.i) by {
      forall o | o in r.published ensures exists k <- plan' :: k < r.i && plan'[k] == o {
        var k :| k in r.plan && k < r.i && r.plan[k] == o;
        assert plan'[k] == o;
      }
    }
    assert RunOk(s', j, s'.runs[j]);
    RunReplacedInv(s, j, s'.runs[j], s');
  }

  lemma FinishInv(s: St, j: JobId, s': St)
    requires Inv(s) && FinishStep(s, j, s')
    ensures Inv(s')
  {
    RunHasRow(s, j);
    var r := s.runs[j];
    OutputsFrameSame(s, s', j, r.dir, r.published);
    assert RunOk(s', j, s'.runs[j]);
    assert ManifestOk(s', j, s'.manifests[j]);
    ListedIsTracked(s', j, r.dir, r.published);
    StillStepInv(s, s', j);
  }

  lemma AbortRun(s: St, j: JobId, s': St)
    requires j in s.runs && RunOk(s, j, s.runs[j]) && AbortStep(s, j, s')
    ensures RunOk(s', j, s'.runs[j])
  {
    var r := s.runs[j];
    if r.Preparing? {
      OutputsFrameSame(s, s', j, "", {});
    } else {
      OutputsFrameSame(s, s', j, r.dir, r.published);
    }
  }

  lemma AbortInv(s: St, j: JobId, s': St)
    requires Inv(s) && AbortStep(s, j, s')
    ensures Inv(s')
  {
    RunHasRow(s, j);
    AbortRun(s, j, s');
    RunReplacedInv(s, j, s'.runs[j], s');
  }

  /** Replacing j's run by another state of the run. */
  lemma RunReplacedInv(s: St, j: JobId, r: Run, s': St)
    requires Inv(s) && s.mode.Serving? && j in s.runs && !s.runs[j].RollingBack? && s' == s.(runs := s.runs[j := r]) && RunOk(s', j, r)
    ensures Inv(s')
  {
    if j in s.manifests { assert ManifestOk(s, j, s.manifests[j]); OutputsFrameSame(s, s', j, "", s.manifests[j].owners); }
    TrackedStays(s, s', j);
    StillStepInv(s, s', j);
  }

  /** Removing one recorded file of job j. */
  lemma RemovedFrame(s: St, s': St, j: JobId, dir: Dir, o: Owner)
    requires s'.files == RemoveOwned(s.files, dir, o) && s'.birth == s.birth && s'.gone == s.gone
    requires o.inode in s.birth && s.birth[o.inode] == j
    ensures forall k {:trigger SameOutputs(s, s', k)} :: k != j ==> SameOutputs(s, s', k)
    ensures forall todo {:trigger Listed(s, j, dir, todo)} :: Listed(s, j, dir, todo) ==> Listed(s', j, dir, todo - {o})
    ensures forall owners {:trigger Own(s, j, owners)} :: Own(s, j, owners) ==> Own(s', j, owners)
  {}

  lemma RollbackOutputInv(s: St, j: JobId, o: Owner, s': St)
    requires Inv(s) && RollbackOutputStep(s, j, o, s')
    ensures Inv(s')
  {
    RunHasRow(s, j);
    var r := s.runs[j];
    RemovedFrame(s, s', j, r.dir, o);
    assert Listed(s', j, r.dir, r.todo - {o});
    assert Own(s, j, r.todo);
    assert RunOk(s', j, s'.runs[j]);
    if j in s.manifests { assert ManifestOk(s, j, s.manifests[j]); assert Own(s, j, s.manifests[j].owners); }
    forall p | p in s'.files && s'.files[p] in s'.birth && s'.birth[s'.files[p]] == j ensures Tracked(s', p, s'.files[p]) {
      assert Owner(p.name, s'.files[p]) in r.todo - {o};
    }
    JobStepInv(s, s', j);
  }

  lemma RollbackManifestInv(s: St, j: JobId, s': St)
    requires Inv(s) && RollbackManifestStep(s, j, s')
    ensures Inv(s')
  {
    RunHasRow(s, j);
    var r := s.runs[j];
    OutputsFrameSame(s, s', j, r.dir, r.todo);
    assert RunOk(s', j, s'.runs[j]);
    forall p | p in s'.files && s'.files[p] in s'.birth && s'.birth[s'.files[p]] == j ensures Tracked(s', p, s'.files[p]) {
      assert Owner(p.name, s'.files[p]) in r.todo;
    }
    StillStepInv(s, s', j);
  }

  lemma RollbackEndInv(s: St, j: JobId, s': St)
    requires Inv(s) && RollbackEndStep(s, j, s')
    ensures Inv(s')
  {
    RunHasRow(s, j);
    OutputsFrameSame(s, s', j, s.runs[j].dir, {});
    assert Hidden(s', j);
    StillStepInv(s, s', j);
  }

  lemma ExportInv(s: St, j: JobId, e: ExportEvent, s': St)
    requires Inv(s) && ExportNext(s, j, e, s')
    ensures Inv(s')
  {
    hide Inv;
    match e
    case Begin(merge, dir, plan, size) => BeginInv(s, j, merge, dir, plan, size, s');
    case Skip => SkipInv(s, j, s');
    case WriteManifest => WriteManifestInv(s, j, s');
    case Publish => PublishInv(s, j, s');
    case Collide(name) => CollideInv(s, j, name, s');
    case Finish => FinishInv(s, j, s');
    case Abort => AbortInv(s, j, s');
    case RollbackOutput(o) => RollbackOutputInv(s, j, o, s');
    case RollbackManifest => RollbackManifestInv(s, j, s');
    case RollbackEnd => RollbackEndInv(s, j, s');
  }

  // ------------------------------------------------- the compare-and-swap on the row

  lemma CommitInv(s: St, j: JobId, fault: Fault, s': St)
    requires Inv(s) && CommitStep(s, j, fault, s')
    ensures Inv(s')
  {
    RunHasRow(s, j);
    var r := s.runs[j];
    OutputsFrameSame(s, s', j, r.dir, r.owners);
    assert RunOk(s', j, s'.runs[j]);
    if j in s.manifests { assert ManifestOk(s, j, s.manifests[j]); assert ManifestOk(s', j, s'.manifests[j]); }
    TrackedStays(s, s', j);
    StillStepInv(s, s', j);
  }

  lemma UnreadableInv(s: St, j: JobId, s': St)
    requires Inv(s) && UnreadableStep(s, j, s')
    ensures Inv(s')
  {
    RunHasRow(s, j);
    var r := s.runs[j];
    OutputsFrameSame(s, s', j, r.dir, r.owners);
    assert RunOk(s', j, s'.runs[j]);
    if j in s.manifests { assert ManifestOk(s, j, s.manifests[j]); assert ManifestOk(s', j, s'.manifests[j]); }
    TrackedStays(s, s', j);
    StillStepInv(s, s', j);
  }

  lemma RemoveOutputInv(s: St, j: JobId, o: Owner, s': St)
    requires Inv(s) && RemoveOutputStep(s, j, o, s')
    ensures Inv(s')
  {
    RunHasRow(s, j);
    var r := s.runs[j];
    RemovedFrame(s, s', j, r.dir, o);
    assert Listed(s', j, r.dir, r.todo - {o});
    assert Own(s, j, r.owners);
    assert RunOk(s', j, s'.runs[j]);
    if j in s.manifests { assert ManifestOk(s, j, s.manifests[j]); assert Own(s, j, s.manifests[j].owners); }
    forall p | p in s'.files && s'.files[p] in s'.birth && s'.birth[s'.files[p]] == j ensures Tracked(s', p, s'.files[p]) {
      assert Tracked(s, p, s.files[p]);
    }
    JobStepInv(s, s', j);
  }

  lemma RemoveManifestInv(s: St, j: JobId, s': St)
    requires Inv(s) && RemoveManifestStep(s, j, s')
    ensures Inv(s')
  {
    RunHasRow(s, j);
    var r := s.runs[j];
    OutputsFrameSame(s, s', j, r.dir, r.owners);
    OutputsFrameSame(s, s', j, r.dir, {});
    assert Hidden(s', j);
    assert Listed(s', j, r.dir, r.owners);
    assert RunOk(s', j, s'.runs[j]);
    StillStepInv(s, s', j);
  }

  lemma SettleInv(s: St, j: JobId, ok: bool, s': St)
    requires Inv(s) && SettleStep(s, j, ok, s')
    ensures Inv(s')
  {
    RunHasRow(s, j);
    var r := s.runs[j];
    if r.Returned? {
      OutputsFrameSame(s, s', j, r.dir, r.owners);
      assert RunOk(s', j, s'.runs[j]);
    } else {
      OutputsFrameSame(s, s', j, "", {});
    }
    if j in s.manifests { assert ManifestOk(s, j, s.manifests[j]); OutputsFrameSame(s, s', j, "", s.manifests[j].owners); }
    TrackedStays(s, s', j);
    StillStepInv(s, s', j);
  }

  lemma AfterInv(s: St, j: JobId, e: AfterEvent, s': St)
    requires Inv(s) && AfterNext(s, j, e, s')
    ensures Inv(s')
  {
    hide Inv;
    match e
    case Commit(fault) => CommitInv(s, j, fault, s');
    case Unreadable => UnreadableInv(s, j, s');
    case RemoveOutput(o) => RemoveOutputInv(s, j, o, s');
    case RemoveManifest => RemoveManifestInv(s, j, s');
    case Settle(ok) => SettleInv(s, j, ok, s');
  }

  // ------------------------------------------------------------ everything else

  /** A step that touches one entry, replacing it by a new foreign file or by none, and else only the registry. */
  ghost predicate EntryStep(s: St, p: Path, s': St) {
    && s'.next >= s.next && s' == s.(next := s'.next, files := s'.files, gone := s'.gone, lately := s'.lately, loose := s'.loose)
    && s.lately <= s'.lately && (!s.mode.Serving? && p in s.files ==> s.files[p] in s'.lately)
    && (s'.files == s.files - {p} || (s'.files == s.files[p := s.next] && s'.next > s.next))
    && s'.gone == (if p in s.files then s.gone + {s.files[p]} else s.gone)
  }

  lemma EntryInv(s: St, p: Path, s': St)
    requires Inv(s) && EntryStep(s, p, s')
    ensures Inv(s')
  {
    EntryOutputs(s, p, s');
    EntryFiles(s, p, s');
    EntryMode(s, p, s');
    hide EntryStep, InvMode, InvFiles, InvFresh, InvFaulted, SameOutputs, RunOk, ManifestOk;
    forall k | k in s.runs ensures RunOk(s', k, s.runs[k]) { RunFrame(s, s', k, s.runs[k]); }
    forall k | k in s.manifests ensures ManifestOk(s', k, s.manifests[k]) { ManifestFrame(s, s', k, s.manifests[k]); }
  }

  lemma EntryOutputs(s: St, p: Path, s': St)
    requires InvFresh(s) && EntryStep(s, p, s')
    ensures s'.runs == s.runs && s'.manifests == s.manifests && s'.mode == s.mode
    ensures forall k {:trigger Frame(s, s', k)} :: Frame(s, s', k)
    ensures forall k {:trigger SameOutputs(s, s', k)} :: SameOutputs(s, s', k)
  {}

  lemma EntryFiles(s: St, p: Path, s': St)
    requires InvFiles(s) && InvFresh(s) && InvFaulted(s) && EntryStep(s, p, s')
    ensures InvFiles(s') && InvFresh(s') && InvFaulted(s')
  {
    forall q | q in s'.files ensures Tracked(s', q, s'.files[q]) {
      if q in s.files && s.files[q] == s'.files[q] { assert Tracked(s, q, s.files[q]); }
    }
  }

  lemma EntryMode(s: St, p: Path, s': St)
    requires InvMode(s) && InvManifests(s) && InvFresh(s) && EntryStep(s, p, s')
    ensures InvMode(s')
  {
    match s.mode {
      case Reconciling(configured, pending, busy) =>
        EntryWalk(s, p, s', configured, pending);
        if busy.Some? { EntryCleaning(s, p, s', busy.value, pending); }
      case Reconciled(configured) => EntryWalk(s, p, s', configured, {});
      case _ =>
    }
  }

  /** What an outsider's file cannot do: bring a recorded output back. */
  lemma EntryWalk(s: St, p: Path, s': St, configured: set<Dir>, pending: set<JobId>)
    requires !s.mode.Serving? && InvFresh(s) && WalkOk(s, configured, pending) && EntryStep(s, p, s')
    ensures WalkOk(s', configured, pending)
  {
    forall j | j in s.recorded
      ensures Own(s', j, s.recorded[j].owners) && (OutputsGone(s, s.recorded[j]) ==> OutputsGone(s', s.recorded[j]))
    {
      assert Own(s, j, s.recorded[j].owners);
    }
    forall j | j in s.adopted ensures AdoptedOk(s', j) {
      assert AdoptedOk(s, j);
    }
    hide Own, OutputsGone, AdoptedOk, InvFresh;
    forall j | j in s.recorded && s.recorded[j].dir in configured && j !in pending ensures Resolved(s', j, s.recorded[j]) {
      assert Resolved(s, j, s.recorded[j]);
    }
  }

  lemma EntryCleaning(s: St, p: Path, s': St, c: Cleaning, pending: set<JobId>)
    requires InvFresh(s) && InvManifests(s) && CleaningOk(s, c, pending) && EntryStep(s, p, s')
    ensures CleaningOk(s', c, pending)
  {
    assert ManifestOk(s, c.id, s.manifests[c.id]);
  }

  lemma ExternalInv(s: St, p: Path, create: bool, s': St)
    requires Inv(s) && ExternalStep(s, p, create, s')
    ensures Inv(s')
  {
    hide Inv;
    EntryInv(s, p, s');
  }

  lemma SweepInv(s: St, j: JobId, p: Path, s': St)
    requires Inv(s) && SweepStep(s, j, p, s')
    ensures Inv(s')
  {
    hide Inv;
    EntryInv(s, p, s');
  }

  /** The registry is not part of the invariant. */
  lemma RegistryInv(s: St, s': St)
    requires Inv(s) && s' == s.(loose := s'.loose, unregistered := s'.unregistered)
    ensures Inv(s')
  {
    forall k ensures SameOutputs(s, s', k) {}
    forall k | k in s.runs ensures RunOk(s', k, s.runs[k]) { RunFrame(s, s', k, s.runs[k]); }
    forall k | k in s.manifests ensures ManifestOk(s', k, s.manifests[k]) { ManifestFrame(s, s', k, s.manifests[k]); }
    forall q | q in s'.files ensures Tracked(s', q, s'.files[q]) { assert Tracked(s, q, s.files[q]); }
    assert InvMode(s') by { RegistryMode(s, s'); }
  }

  lemma RegistryMode(s: St, s': St)
    requires InvMode(s) && s' == s.(loose := s'.loose, unregistered := s'.unregistered)
    ensures InvMode(s')
  {
    forall j | j in s.recorded && Resolved(s, j, s.recorded[j]) ensures Resolved(s', j, s.recorded[j]) {}
    forall j | j in s.adopted && AdoptedOk(s, j) ensures AdoptedOk(s', j) {}
    forall j | j in s.recorded && Own(s, j, s.recorded[j].owners) ensures Own(s', j, s.recorded[j].owners) {}
  }

  lemma ExpireInv(s: St, j: JobId, s': St)
    requires Inv(s) && ExpireStep(s, j, s')
    ensures Inv(s')
  {
    var m := s.manifests[j];
    ExpireOutputs(s, j, s');
    assert ManifestOk(s, j, m);
    hide ManifestOk, RunOk, SameOutputs, Frame;
    if j in s.runs { RunHasRow(s, j); ExpireRun(s, j, s'); }
    forall p | p in s'.files && s'.files[p] in s'.birth && s'.birth[s'.files[p]] == j ensures Tracked(s', p, s'.files[p]) {
      assert Tracked(s, p, s.files[p]);
      assert j in s.runs ==> !s.runs[j].RollingBack?;
    }
    assert OnlyJob(s, s', j) by { ExpireFrame(s, j, s'); }
    JobStepInv(s, s', j);
  }

  lemma ExpireFrame(s: St, j: JobId, s': St)
    requires ExpireStep(s, j, s')
    ensures forall k {:trigger Frame(s, s', k)} :: k != j ==> Frame(s, s', k)
  {}

  lemma ExpireOutputs(s: St, j: JobId, s': St)
    requires ExpireStep(s, j, s')
    ensures forall k {:trigger SameOutputs(s, s', k)} :: SameOutputs(s, s', k)
  {
    forall p | p in s.files && p !in s'.files ensures s.files[p] in s'.gone {
      assert p in Recorded(s.files, s.manifests[j]);
    }
  }

  lemma ExpireRun(s: St, j: JobId, s': St)
    requires j in s.runs && RunOk(s, j, s.runs[j]) && ExpireStep(s, j, s') && SameOutputs(s, s', j)
    ensures RunOk(s', j, s.runs[j])
  {
    var r := s.runs[j];
    assert r.Produced? || r.Returned?;
    OutputsFrame(s, s', j, r.dir, r.owners);
    if Kept(s, r.dir, r.owners) && ManifestIs(s, j, r.dir, r.owners) {
      forall o | o in r.owners ensures o.inode in s'.gone {
        if Visible(s.files, r.dir, o) { assert Path(r.dir, o.name) in Recorded(s.files, s.manifests[j]); }
      }
    }
  }

  lemma ArchiveManifestInv(s: St, b: JobId, dir: Dir, name: Name, s': St)
    requires Inv(s) && ArchiveManifestStep(s, b, dir, name, s')
    ensures Inv(s')
  {
    forall k | k != b ensures SameOutputs(s, s', k) {}
    assert ManifestOk(s', b, s'.manifests[b]);
    forall p | p in s'.files && s'.files[p] in s'.birth && s'.birth[s'.files[p]] == b ensures Tracked(s', p, s'.files[p]) {
      assert Tracked(s, p, s.files[p]);
    }
    JobStepInv(s, s', b);
  }

  lemma ArchivePublishInv(s: St, b: JobId, o: Owner, s': St)
    requires Inv(s) && ArchivePublishStep(s, b, o, s')
    ensures Inv(s')
  {
    assert ManifestOk(s, b, s.manifests[b]);
    if b in s.runs { RunHasRow(s, b); }
    forall k | k != b ensures SameOutputs(s, s', k) {}
    assert ManifestOk(s', b, s'.manifests[b]);
    forall p | p in s'.files && s'.files[p] in s'.birth && s'.birth[s'.files[p]] == b ensures Tracked(s', p, s'.files[p]) {
      assert p in s.files && s.files[p] == s'.files[p] ==> Tracked(s, p, s.files[p]);
    }
    JobStepInv(s, s', b);
  }

  lemma ArchiveWithdrawInv(s: St, b: JobId, s': St)
    requires Inv(s) && ArchiveWithdrawStep(s, b, s')
    ensures Inv(s')
  {
    NoArchiveRun(s, b);
    StillOutputs(s, s');
    forall p | p in s'.files && s'.files[p] in s'.birth && s'.birth[s'.files[p]] == b ensures Tracked(s', p, s'.files[p]) {
      assert Tracked(s, p, s.files[p]);
      assert p !in Recorded(s.files, s.manifests[b]);
    }
    JobStepInv(s, s', b);
  }

  lemma NoArchiveRun(s: St, b: JobId)
    requires Inv(s) && b in s.manifests && s.manifests[b].archive
    ensures b !in s.runs && b !in s.rows
  {
    assert ManifestOk(s, b, s.manifests[b]);
    if b in s.runs { RunHasRow(s, b); }
  }

  lemma ArchiveDiscardInv(s: St, b: JobId, o: Owner, s': St)
    requires Inv(s) && ArchiveDiscardStep(s, b, o, s')
    ensures Inv(s')
  {
    NoArchiveRun(s, b);
    var p, mid := Path(s.manifests[b].dir, o.name), Taken(s, Path(s.manifests[b].dir, o.name));
    EntryInv(s, p, mid);
    assert s'.files == mid.files;
    StillOutputs(mid, s');
    forall q | q in s'.files && s'.files[q] in s'.birth && s'.birth[s'.files[q]] == b ensures Tracked(s', q, s'.files[q]) {
      assert Tracked(mid, q, mid.files[q]);
    }
    JobStepInv(mid, s', b);
  }

  lemma CrashInv(s: St, s': St)
    requires Inv(s) && CrashStep(s, s')
    ensures Inv(s')
  {
    forall k | k in s.manifests ensures ManifestOk(s', k, s.manifests[k]) {
      assert ManifestOk(s, k, s.manifests[k]);
    }
    forall p | p in s'.files ensures Tracked(s', p, s'.files[p]) {
      assert Tracked(s, p, s.files[p]);
    }
  }

  lemma WorldInv(s: St, e: WorldEvent, s': St)
    requires Inv(s) && WorldNext(s, e, s')
    ensures Inv(s')
  {
    hide Inv;
    match e
    case External(p, create) => ExternalInv(s, p, create, s');
    case Expire(j) => ExpireInv(s, j, s');
    case ArchiveManifest(b, dir, name) => ArchiveManifestInv(s, b, dir, name, s');
    case ArchivePublish(b, o) => ArchivePublishInv(s, b, o, s');
    case ArchiveWithdraw(b) => ArchiveWithdrawInv(s, b, s');
    case ArchiveDiscard(b, o) => ArchiveDiscardInv(s, b, o, s');
    case Download(_, _) => RegistryInv(s, s');
    case Reopen(_, _) => RegistryInv(s, s');
    case Sweep(j, p) => SweepInv(s, j, p, s');
    case Crash => CrashInv(s, s');
  }

  // ----------------------------------------------------------------- recovery

  /** A recovery step that leaves files, births and manifests alone. */
  lemma RecoveryFrame(s: St, s': St)
    requires Inv(s) && !s.mode.Serving? && !s'.mode.Serving? && s'.runs == s.runs
    requires s'.files == s.files && s'.birth == s.birth && s'.next == s.next && s'.gone == s.gone && s'.orphans == s.orphans
    requires s'.manifests == s.manifests && s'.rows.Keys == s.rows.Keys
    requires forall k <- s.rows :: s'.rows[k] == Queued ==> s.rows[k] == Queued
    requires s'.faulted == s.faulted
    requires forall k <- s.manifests :: ManifestOk(s', k, s.manifests[k])
    requires InvMode(s')
    ensures Inv(s')
  {
    forall p | p in s'.files ensures Tracked(s', p, s'.files[p]) {
      assert Tracked(s, p, s.files[p]);
    }
  }

  lemma RestartInv(s: St, configured: set<Dir>, s': St)
    requires Inv(s) && RestartStep(s, configured, s')
    ensures Inv(s')
  {
    forall k | k in s.manifests ensures ManifestOk(s', k, s.manifests[k]) && Own(s', k, s.manifests[k].owners) {
      assert ManifestOk(s, k, s.manifests[k]);
    }
    RecoveryFrame(s, s');
  }

  lemma AdoptInv(s: St, j: JobId, s': St)
    requires Inv(s) && AdoptStep(s, j, s')
    ensures Inv(s')
  {
    forall k | k in s.manifests ensures ManifestOk(s', k, s.manifests[k]) {
      assert ManifestOk(s, k, s.manifests[k]);
    }
    var configured, pending := s.mode.configured, s.mode.pending;
    forall k | k in s.recorded && s.recorded[k].dir in configured && k !in pending - {j} ensures Resolved(s', k, s.recorded[k]) {
      assert k !in pending ==> Resolved(s, k, s.recorded[k]);
    }
    forall k | k in s'.adopted ensures AdoptedOk(s', k) {
      assert k != j ==> AdoptedOk(s, k);
    }
    forall k | k in s.recorded ensures Own(s', k, s.recorded[k].owners) { assert Own(s, k, s.recorded[k].owners); }
    RecoveryFrame(s, s');
  }

  lemma VisitInv(s: St, j: JobId, registered: bool, s': St)
    requires Inv(s) && (LeaveStep(s, j, registered, s') || CleanStep(s, j, s'))
    ensures Inv(s')
  {
    assert ManifestOk(s, j, s.manifests[j]);
    forall k | k in s.manifests ensures ManifestOk(s', k, s.manifests[k]) {
      assert ManifestOk(s, k, s.manifests[k]);
    }
    var configured, pending := s.mode.configured, s.mode.pending;
    forall k | k in s.recorded && s.recorded[k].dir in configured && k !in s'.mode.pending ensures Resolved(s', k, s.recorded[k]) {
      assert k !in pending ==> Resolved(s, k, s.recorded[k]);
    }
    forall k | k in s'.adopted ensures AdoptedOk(s', k) { assert AdoptedOk(s, k); }
    forall k | k in s.recorded ensures Own(s', k, s.recorded[k].owners) { assert Own(s, k, s.recorded[k].owners); }
    RecoveryFrame(s, s');
  }

  lemma CleanOutputInv(s: St, o: Owner, s': St)
    requires Inv(s) && CleanOutputStep(s, o, s')
    ensures Inv(s')
  {
    var c, configured, pending := s.mode.busy.value, s.mode.configured, s.mode.pending;
    var m := s.manifests[c.id];
    assert ManifestOk(s, c.id, m);
    forall k | k in s.manifests ensures ManifestOk(s', k, s.manifests[k]) {
      assert ManifestOk(s, k, s.manifests[k]);
    }
    forall p | p in s'.files ensures Tracked(s', p, s'.files[p]) {
      assert Tracked(s, p, s.files[p]);
    }
    forall k | k in s.recorded && s.recorded[k].dir in configured && k !in pending ensures Resolved(s', k, s.recorded[k]) {
      assert Resolved(s, k, s.recorded[k]);
    }
    forall k | k in s.adopted ensures AdoptedOk(s', k) {
      assert AdoptedOk(s, k) && ManifestOk(s, k, s.manifests[k]);
    }
    forall k | k in s.recorded ensures Own(s', k, s.recorded[k].owners) { assert Own(s, k, s.recorded[k].owners); }
  }

  lemma CleanManifestInv(s: St, s': St)
    requires Inv(s) && CleanManifestStep(s, s')
    ensures Inv(s')
  {
    var c, configured, pending := s.mode.busy.value, s.mode.configured, s.mode.pending;
    forall k | k in s'.manifests ensures ManifestOk(s', k, s'.manifests[k]) {
      assert ManifestOk(s, k, s.manifests[k]);
    }
    forall p | p in s'.files ensures Tracked(s', p, s'.files[p]) {
      assert Tracked(s, p, s.files[p]);
    }
    assert OutputsGone(s, s.manifests[c.id]);
    forall k | k in s.recorded && s.recorded[k].dir in configured && k !in s'.mode.pending ensures Resolved(s', k, s.recorded[k]) {
      assert k !in pending ==> Resolved(s, k, s.recorded[k]);
    }
    forall k | k in s.adopted ensures AdoptedOk(s', k) { assert AdoptedOk(s, k); }
    forall k | k in s.recorded ensures Own(s', k, s.recorded[k].owners) { assert Own(s, k, s.recorded[k].owners); }
  }

  lemma ReconciledInv(s: St, s': St)
    requires Inv(s) && ReconciledStep(s, s')
    ensures Inv(s')
  {
    forall k | k in s.manifests ensures ManifestOk(s', k, s.manifests[k]) {
      assert ManifestOk(s, k, s.manifests[k]);
    }
    forall k | k in s.recorded && s.recorded[k].dir in s.mode.configured ensures Resolved(s', k, s.recorded[k]) {
      assert Resolved(s, k, s.recorded[k]);
    }
    forall k | k in s.adopted ensures AdoptedOk(s', k) { assert AdoptedOk(s, k); }
    forall k | k in s.recorded ensures Own(s', k, s.recorded[k].owners) { assert Own(s, k, s.recorded[k].owners); }
    RecoveryFrame(s, s');
  }

  lemma RecoverInv(s: St, s': St)
    requires Inv(s) && RecoverStep(s, s')
    ensures Inv(s')
  {
    forall k | k in s.manifests ensures ManifestOk(s', k, s.manifests[k]) {
      assert ManifestOk(s, k, s.manifests[k]);
    }
    forall p | p in s'.files ensures Tracked(s', p, s'.files[p]) {
      assert Tracked(s, p, s.files[p]);
    }
  }

  lemma RecoveryInv(s: St, e: RecoveryEvent, s': St)
    requires Inv(s) && RecoveryNext(s, e, s')
    ensures Inv(s')
  {
    hide Inv;
    match e
    case Restart(configured) => RestartInv(s, configured, s');
    case Adopt(j) => AdoptInv(s, j, s');
    case Leave(j, registered) => VisitInv(s, j, registered, s');
    case Clean(j) => VisitInv(s, j, false, s');
    case CleanOutput(o) => CleanOutputInv(s, o, s');
    case CleanManifest => CleanManifestInv(s, s');
    case ReconcileDone => ReconciledInv(s, s');
    case Recover => RecoverInv(s, s');
  }

  lemma NextInv(s: St, e: Event, s': St)
    requires Inv(s) && Next(s, e, s')
    ensures Inv(s')
  {
    hide Inv, RowNext, ExportNext, AfterNext, WorldNext, RecoveryNext;
    match e
    case Row(j, r) => RowInv(s, j, r, s');
    case Export(j, x) => ExportInv(s, j, x, s');
    case After(j, a) => AfterInv(s, j, a, s');
    case World(w) => WorldInv(s, w, s');
    case Restarting(v) => RecoveryInv(s, v, s');
  }
}
