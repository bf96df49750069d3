/** Invariants of export publication and their preservation by every event, crashes and recovery included. */
module PublicationInvariants {
  import opened Prelude
  import opened Jobs
  import opened PublicationModel

  /** Every visible output of job j is one of owners in dir. */
  ghost predicate Listed(s: St, j: JobId, dir: Dir, owners: set<Owner>) {
    forall p <- s.files :: s.files[p] in s.birth && s.birth[s.files[p]] == j ==> p.dir == dir && Owner(p.name, s.files[p]) in owners
  }

  ghost predicate Hidden(s: St, j: JobId) {
    forall p <- s.files :: s.files[p] in s.birth ==> s.birth[s.files[p]] != j
  }

  /** Each owner is visible unless its entry was taken, at any time, by an outsider, by retention or by a removal by
      path: the program's own publication, rollback and recovery never took it. */
  ghost predicate Kept(s: St, dir: Dir, owners: set<Owner>) {
    forall o <- owners :: Visible(s.files, dir, o) || o.inode in s.gone
  }

  /** The manifest stands unless every owner's entry was taken. */
  ghost predicate Stands(s: St, j: JobId, owners: set<Owner>) {
    j in s.manifests || forall o <- owners :: o.inode in s.gone
  }

  ghost predicate Own(s: St, j: JobId, owners: set<Owner>) {
    forall o <- owners :: o.inode in s.birth && s.birth[o.inode] == j
  }

  predicate RowLive(s: St, j: JobId) {
    j in s.rows && (s.rows[j] == Running || s.rows[j] == State.Cancelled)
  }

  predicate NoManifest(s: St, j: JobId) { j !in s.manifests }

  predicate ManifestIs(s: St, j: JobId, dir: Dir, owners: set<Owner>) {
    j in s.manifests ==> s.manifests[j] == Manifest(dir, owners, false)
  }

  /** The manifest on disk, if any, is in dir and covers owners; it exists once there is something to cover. */
  ghost predicate Covered(s: St, j: JobId, dir: Dir, owners: set<Owner>) {
    && (owners != {} ==> j in s.manifests)
    && (j in s.manifests ==> s.manifests[j].dir == dir && !s.manifests[j].archive && owners <= s.manifests[j].owners)
  }

  ghost predicate Planned(plan: map<nat, Owner>, published: set<Owner>, i: nat) {
    forall o <- published :: exists k <- plan :: k < i && plan[k] == o
  }

  /** The verdict of the compare-and-swap. */
  ghost predicate Verdict(s: St, j: JobId, dir: Dir, owners: set<Owner>) {
    && j in s.rows
    && ((s.rows[j] == Succeeded && Kept(s, dir, owners) && Stands(s, j, owners) && j in s.results && s.results[j] == Names(owners))
        || (s.rows[j] == State.Cancelled && NoManifest(s, j) && Hidden(s, j)))
  }

  ghost predicate PublishingOk(s: St, j: JobId, r: Run)
    requires r.Publishing?
  {
    && RowLive(s, j) && Listed(s, j, r.dir, r.published) && Kept(s, r.dir, r.published)
    && Own(s, j, r.plan.Values) && Own(s, j, r.published) && Planned(r.plan, r.published, r.i) && Covered(s, j, r.dir, r.published)
    && (r.written ==> j in s.manifests && s.manifests[j] == Manifest(r.dir, r.plan.Values, false))
  }

  ghost predicate RollingBackOk(s: St, j: JobId, r: Run)
    requires r.RollingBack?
  {
    && RowLive(s, j) && Listed(s, j, r.dir, r.todo) && Own(s, j, r.todo)
    && (if r.cleared then NoManifest(s, j) && (r.merge || r.todo == {}) else Covered(s, j, r.dir, r.todo))
  }

  ghost predicate ReturnedOk(s: St, j: JobId, r: Run)
    requires r.Returned?
  {
    && j in s.rows && (s.rows[j] == Running || s.rows[j] == Succeeded || s.rows[j] == State.Cancelled)
    && Own(s, j, r.owners) && Listed(s, j, r.dir, r.owners) && ManifestIs(s, j, r.dir, r.owners)
    && (if j in s.faulted then Kept(s, r.dir, r.owners) && Stands(s, j, r.owners) else Verdict(s, j, r.dir, r.owners))
  }

  ghost predicate ProducedOk(s: St, j: JobId, r: Run)
    requires r.Produced?
  {
    && RowLive(s, j) && Listed(s, j, r.dir, r.owners) && Kept(s, r.dir, r.owners) && Own(s, j, r.owners)
    && ManifestIs(s, j, r.dir, r.owners) && Stands(s, j, r.owners)
  }

  ghost predicate RemovingOk(s: St, j: JobId, r: Run)
    requires r.Removing?
  {
    && j in s.rows && s.rows[j] == State.Cancelled && Listed(s, j, r.dir, r.todo) && Own(s, j, r.owners) && r.todo <= r.owners
    && ManifestIs(s, j, r.dir, r.owners)
  }

  /** A transient failure of the terminal write is met only by a run that has then returned. */
  ghost predicate RunOk(s: St, j: JobId, r: Run) {
    && (j in s.faulted ==> r.Returned?)
    && match r
       case Preparing => RowLive(s, j) && NoManifest(s, j) && Hidden(s, j)
       case Publishing(_, _, _, _, _, _, _) => PublishingOk(s, j, r)
       case RollingBack(_, _, _, _) => RollingBackOk(s, j, r)
       case Produced(_, _) => ProducedOk(s, j, r)
       case Removing(_, _, _) => RemovingOk(s, j, r)
       case Returned(_, _) => ReturnedOk(s, j, r)
       case Errored => RowLive(s, j) && NoManifest(s, j) && Hidden(s, j)
  }

  ghost predicate InvRuns(s: St) {
    && (forall j <- s.runs :: RunOk(s, j, s.runs[j]))
    && (!s.mode.Serving? ==> s.runs == map[])
  }

  /** A manifest belongs to a started job that has not failed, unless a restart stranded it, or to an archive;
      a succeeded row reports exactly the names in it. */
  ghost predicate ManifestOk(s: St, j: JobId, m: Manifest) {
    && Own(s, j, m.owners)
    && (if m.archive then j !in s.rows
        else && j in s.rows && s.rows[j] != Queued
             && (s.rows[j] == Failed ==> j in s.stranded)
             && (s.rows[j] == Succeeded ==> j in s.results && s.results[j] == Names(m.owners)))
  }

  ghost predicate InvManifests(s: St) {
    forall j <- s.manifests :: ManifestOk(s, j, s.manifests[j])
  }

  predicate ListedInManifest(s: St, j: JobId, p: Path, inode: Inode) {
    j in s.manifests && s.manifests[j].dir == p.dir && Owner(p.name, inode) in s.manifests[j].owners
  }

  /** The publication invariant for one directory entry. */
  ghost predicate Tracked(s: St, p: Path, inode: Inode) {
    inode in s.birth ==>
      || ListedInManifest(s, s.birth[inode], p, inode)
      || Exposed(s.runs, s.birth[inode], inode)
      || inode in s.orphans
  }

  ghost predicate InvFiles(s: St) {
    forall p <- s.files :: Tracked(s, p, s.files[p])
  }

  /** Inodes are handed out once, and only to jobs that have left the queue. */
  ghost predicate InvFresh(s: St) {
    && (forall i <- s.birth :: i < s.next && (s.birth[i] in s.rows ==> s.rows[s.birth[i]] != Queued))
    && (forall p <- s.files :: s.files[p] < s.next)
  }

  /** Whoever met a transient failure has left the queue. */
  ghost predicate InvFaulted(s: St) {
    forall j <- s.faulted :: j in s.rows && s.rows[j] != Queued
  }

  // ----------------------------------------------------- invariants of a restart

  ghost predicate OutputsGone(s: St, m: Manifest) {
    forall o <- m.owners :: !Visible(s.files, m.dir, o)
  }

  /** A manifest found at restart and already handled. */
  ghost predicate Resolved(s: St, j: JobId, m: Manifest) {
    if j in s.manifests then s.manifests[j] == m && (m.archive || (j in s.rows && (s.rows[j] == Succeeded || s.rows[j] == Failed)))
    else OutputsGone(s, m)
  }

  /** Completed by this recovery: its outputs are in place, unless an outsider took one during this very recovery. */
  ghost predicate AdoptedOk(s: St, j: JobId) {
    && j in s.rows && s.rows[j] == Succeeded && j in s.manifests
    && (forall o <- s.manifests[j].owners :: Visible(s.files, s.manifests[j].dir, o) || o.inode in s.lately)
    && (forall o <- s.manifests[j].owners :: o.inode in s.valid)
    && j in s.results && s.results[j] == Names(s.manifests[j].owners)
  }

  ghost predicate CleaningOk(s: St, c: Cleaning, pending: set<JobId>) {
    && c.id in pending && c.id in s.manifests && c.id !in s.adopted && c.todo <= s.manifests[c.id].owners
    && forall o <- s.manifests[c.id].owners :: o !in c.todo ==> !Visible(s.files, s.manifests[c.id].dir, o)
  }

  /** What holds while the configured directories are being walked; nothing outside them is visited. */
  ghost predicate WalkOk(s: St, configured: set<Dir>, pending: set<JobId>) {
    && (forall j <- s.recorded :: Own(s, j, s.recorded[j].owners))
    && (forall j <- s.manifests :: j in s.recorded && s.recorded[j] == s.manifests[j])
    && (forall j <- pending :: j in s.manifests && j !in s.adopted)
    && (forall j <- s.recorded :: s.recorded[j].dir in configured && j !in pending ==> Resolved(s, j, s.recorded[j]))
    && (forall j <- s.recorded :: s.recorded[j].dir !in configured ==> j in s.manifests && j !in pending)
    && (forall j <- s.adopted :: AdoptedOk(s, j))
  }

  ghost predicate InvMode(s: St) {
    match s.mode
    case Reconciling(configured, pending, busy) =>
      WalkOk(s, configured, pending) && (busy.Some? ==> CleaningOk(s, busy.value, pending))
    case Reconciled(configured) => WalkOk(s, configured, {})
    case _ => true
  }

  ghost predicate Inv(s: St) {
    InvRuns(s) && InvManifests(s) && InvFiles(s) && InvFresh(s) && InvFaulted(s) && InvMode(s)
  }

  lemma InitInv(s: St)
    requires Init(s)
    ensures Inv(s)
  {}

  // ------------------------------------------------------------------ framing

  /** Nothing about job k changed: not its row, manifest, run or visible outputs. */
  ghost predicate Frame(s: St, s': St, k: JobId) {
    && (k in s.rows <==> k in s'.rows) && (k in s.rows ==> s'.rows[k] == s.rows[k])
    && (k in s.manifests <==> k in s'.manifests) && (k in s.manifests ==> s'.manifests[k] == s.manifests[k])
    && (k in s.results ==> k in s'.results && s'.results[k] == s.results[k])
    && (k in s.runs <==> k in s'.runs) && (k in s.runs ==> s'.runs[k] == s.runs[k])
    && (k in s'.faulted <==> k in s.faulted) && (k in s.stranded ==> k in s'.stranded)
  }

  /** No output of k appeared, and one that disappeared is accounted for. */
  ghost predicate SameOutputs(s: St, s': St, k: JobId) {
    && (forall i <- s.birth :: i in s'.birth && s'.birth[i] == s.birth[i])
    && (forall i <- s'.birth :: s'.birth[i] == k ==> i in s.birth)
    && (forall p <- s'.files :: s'.files[p] in s.birth && s.birth[s'.files[p]] == k ==> p in s.files && s.files[p] == s'.files[p])
    && (forall p <- s.files :: s.files[p] in s.birth && s.birth[s.files[p]] == k ==>
         (p in s'.files && s'.files[p] == s.files[p]) || s.files[p] in s'.gone)
    && s.gone <= s'.gone
  }

  lemma OutputsFrame(s: St, s': St, k: JobId, dir: Dir, owners: set<Owner>)
    requires SameOutputs(s, s', k)
    ensures Listed(s, k, dir, owners) ==> Listed(s', k, dir, owners)
    ensures Hidden(s, k) ==> Hidden(s', k)
    ensures Own(s, k, owners) ==> Own(s', k, owners)
    ensures Own(s, k, owners) && Kept(s, dir, owners) ==> Kept(s', dir, owners)
    ensures (k in s.manifests ==> k in s'.manifests) && Stands(s, k, owners) ==> Stands(s', k, owners)
  {}

  lemma RunFrame(s: St, s': St, k: JobId, r: Run)
    requires RunOk(s, k, r) && Frame(s, s', k) && SameOutputs(s, s', k)
    ensures RunOk(s', k, r)
  {
    match r
    case Preparing => OutputsFrame(s, s', k, "", {});
    case Publishing(_, dir, plan, _, published, _, _) => OutputsFrame(s, s', k, dir, published); OutputsFrame(s, s', k, dir, plan.Values);
    case RollingBack(_, dir, todo, _) => OutputsFrame(s, s', k, dir, todo);
    case Produced(dir, owners) => OutputsFrame(s, s', k, dir, owners);
    case Removing(dir, owners, todo) => OutputsFrame(s, s', k, dir, owners); OutputsFrame(s, s', k, dir, todo);
    case Returned(dir, owners) => OutputsFrame(s, s', k, dir, owners);
    case Errored => OutputsFrame(s, s', k, "", {});
  }

  lemma ManifestFrame(s: St, s': St, k: JobId, m: Manifest)
    requires ManifestOk(s, k, m) && Frame(s, s', k) && SameOutputs(s, s', k)
    ensures ManifestOk(s', k, m)
  {
    OutputsFrame(s, s', k, m.dir, m.owners);
  }

  /** A step on job j alone: everyone else is framed. */
  ghost predicate OnlyJob(s: St, s': St, j: JobId) {
    && (forall k {:trigger Frame(s, s', k)} :: k != j ==> Frame(s, s', k))
    && (forall k {:trigger SameOutputs(s, s', k)} :: k != j ==> SameOutputs(s, s', k))
  }

  lemma JobStepInv(s: St, s': St, j: JobId)
    requires Inv(s) && s.mode.Serving? && s'.mode.Serving? && OnlyJob(s, s', j) && InvFresh(s') && InvFaulted(s')
    requires j in s'.runs ==> RunOk(s', j, s'.runs[j])
    requires j in s'.manifests ==> ManifestOk(s', j, s'.manifests[j])
    requires s.orphans <= s'.orphans
    requires forall p <- s'.files :: s'.files[p] in s'.birth && s'.birth[s'.files[p]] == j ==> Tracked(s', p, s'.files[p])
    ensures Inv(s')
  {
    forall k | k in s'.runs ensures RunOk(s', k, s'.runs[k]) {
      if k != j { assert Frame(s, s', k); RunFrame(s, s', k, s.runs[k]); }
    }
    forall k | k in s'.manifests ensures ManifestOk(s', k, s'.manifests[k]) {
      if k != j { assert Frame(s, s', k); ManifestFrame(s, s', k, s.manifests[k]); }
    }
    forall p | p in s'.files ensures Tracked(s', p, s'.files[p]) {
      var i := s'.files[p];
      if i in s'.birth && s'.birth[i] != j {
        assert Frame(s, s', s'.birth[i]) && SameOutputs(s, s', s'.birth[i]);
        assert Tracked(s, p, i);
      }
    }
  }

  // --------------------------------------------------------------------- rows

  /** No file moved and no inode was born. */
  predicate Still(s: St, s': St) {
    s'.files == s.files && s'.birth == s.birth && s'.next >= s.next && s.gone == s'.gone && s'.orphans == s.orphans && s'.mode == s.mode
  }

  lemma StillOutputs(s: St, s': St)
    requires Still(s, s')
    ensures forall k {:trigger SameOutputs(s, s', k)} :: SameOutputs(s, s', k)
  {}

  /** A step that leaves files alone and changes only j's row, manifest or run. */
  lemma StillStepInv(s: St, s': St, j: JobId)
    requires Inv(s) && s.mode.Serving? && Still(s, s')
    requires forall k {:trigger Frame(s, s', k)} :: k != j ==> Frame(s, s', k)
    requires j in s.rows && s.rows[j] != Queued && j in s'.rows ==> s'.rows[j] != Queued
    requires j in s'.rows && j !in s.rows ==> forall i <- s.birth :: s.birth[i] != j
    requires j in s'.faulted ==> j in s'.rows && s'.rows[j] != Queued
    requires j in s'.runs ==> RunOk(s', j, s'.runs[j])
    requires j in s'.manifests ==> ManifestOk(s', j, s'.manifests[j])
    requires forall p <- s.files :: s.files[p] in s.birth && s.birth[s.files[p]] == j ==> Tracked(s', p, s.files[p])
    ensures Inv(s')
  {
    StillOutputs(s, s');
    assert InvFresh(s') by {
      forall i | i in s'.birth && s'.birth[i] in s'.rows ensures s'.rows[s'.birth[i]] != Queued {
        assert s'.birth[i] != j ==> Frame(s, s', s'.birth[i]);
      }
    }
    assert InvFaulted(s') by {
      forall k | k in s'.faulted && k != j ensures k in s'.rows && s'.rows[k] != Queued { assert Frame(s, s', k); }
    }
    JobStepInv(s, s', j);
  }

  lemma TrackedStays(s: St, s': St, j: JobId)
    requires InvFiles(s) && s'.files == s.files && s'.birth == s.birth && s'.orphans == s.orphans
    requires j in s.manifests ==> j in s'.manifests && s'.manifests[j].dir == s.manifests[j].dir && s.manifests[j].owners <= s'.manifests[j].owners
    requires j in s.runs && s.runs[j].RollingBack? ==> j in s'.runs && s'.runs[j] == s.runs[j]
    ensures forall p <- s.files :: s.files[p] in s.birth && s.birth[s.files[p]] == j ==> Tracked(s', p, s.files[p])
  {
    forall p | p in s.files && s.files[p] in s.birth && s.birth[s.files[p]] == j ensures Tracked(s', p, s.files[p]) {
      assert Tracked(s, p, s.files[p]);
    }
  }

  lemma EnqueueInv(s: St, j: JobId, s': St)
    requires Inv(s) && EnqueueStep(s, j, s')
    ensures Inv(s')
  {
    assert j in s.runs ==> RunOk(s, j, s.runs[j]);
    TrackedStays(s, s', j);
    StillStepInv(s, s', j);
  }

  /** A queued job has never been run and has no manifest, so nothing of it is visible. */
  lemma QueuedIsClean(s: St, j: JobId)
    requires Inv(s) && j in s.rows && s.rows[j] == Queued
    ensures j !in s.runs && NoManifest(s, j)
  {
    assert j in s.runs ==> RunOk(s, j, s.runs[j]);
    assert j in s.manifests ==> ManifestOk(s, j, s.manifests[j]);
  }

  lemma CancelInv(s: St, j: JobId, s': St)
    requires Inv(s) && CancelStep(s, j, s')
    ensures Inv(s')
  {
    if j in s.manifests { assert ManifestOk(s, j, s.manifests[j]); OutputsFrameSame(s, s', j, s.manifests[j].dir, s.manifests[j].owners); }
    if j in s.runs { assert RunOk(s, j, s.runs[j]); CancelRun(s, s', j, s.runs[j]); }
    TrackedStays(s, s', j);
    StillStepInv(s, s', j);
  }

  lemma OutputsFrameSame(s: St, s': St, j: JobId, dir: Dir, owners: set<Owner>)
    requires s'.files == s.files && s'.birth == s.birth && s'.gone == s.gone
    ensures Listed(s', j, dir, owners) <==> Listed(s, j, dir, owners)
    ensures Hidden(s', j) <==> Hidden(s, j)
    ensures Own(s', j, owners) <==> Own(s, j, owners)
    ensures Kept(s', dir, owners) <==> Kept(s, dir, owners)
    ensures (j in s.manifests <==> j in s'.manifests) ==> (Stands(s', j, owners) <==> Stands(s, j, owners))
  {}

  /** Cancelling the row under a live run keeps the run's own facts; after a fault-free verdict the row is terminal. */
  lemma CancelRun(s: St, s': St, j: JobId, r: Run)
    requires RunOk(s, j, r) && j in s.rows && Active(s.rows[j]) && s' == s.(rows := s.rows[j := State.Cancelled])
    ensures RunOk(s', j, r)
  {
    match r
    case Publishing(_, dir, plan, _, published, _, _) => OutputsFrameSame(s, s', j, dir, published); OutputsFrameSame(s, s', j, dir, plan.Values);
    case RollingBack(_, dir, todo, _) => OutputsFrameSame(s, s', j, dir, todo);
    case Produced(dir, owners) => OutputsFrameSame(s, s', j, dir, owners);
    case Removing(dir, owners, todo) =>
    case Returned(dir, owners) => OutputsFrameSame(s, s', j, dir, owners);
    case _ => OutputsFrameSame(s, s', j, "", {});
  }
}
