/** Crash-safe export publication as a transition system: durable job rows, the published directory entries,
    on-disk manifests, one runner per job, and the restart that reconciles them.  A crash may fall between
    any two events, including inside rollback and inside recovery. */
module PublicationModel {
  import opened Prelude
  import opened Jobs

  type Inode = nat
  type Name = string
  type Dir = string

  datatype Path = Path(dir: Dir, name: Name)
  datatype Owner = Owner(name: Name, inode: Inode)

  /** archive: a batch archive, owned by a batch rather than by a job row. */
  datatype Manifest = Manifest(dir: Dir, owners: set<Owner>, archive: bool)

  /** One run of the exporter for a job, and what follows it in RunQueuedSnapshot. */
  datatype Run =
    | Preparing
    | Publishing(merge: bool, dir: Dir, plan: map<nat, Owner>, size: nat, published: set<Owner>, i: nat, written: bool)
    | RollingBack(merge: bool, dir: Dir, todo: set<Owner>, cleared: bool)
    | Produced(dir: Dir, owners: set<Owner>)
    | Removing(dir: Dir, owners: set<Owner>, todo: set<Owner>)
    | Returned(dir: Dir, owners: set<Owner>)     // with a result, acknowledged or carried by the error
    | Errored                                    // rolled back

  datatype Mode =
    | Serving
    | Down
    | Reconciling(configured: set<Dir>, pending: set<JobId>, busy: Option<Cleaning>)
    | Reconciled(configured: set<Dir>)

  datatype Cleaning = Cleaning(id: JobId, todo: set<Owner>)

  datatype St = St(
    rows: map<JobId, State>, results: map<JobId, set<Name>>,
    files: map<Path, Inode>, manifests: map<JobId, Manifest>,
    next: Inode, birth: map<Inode, JobId>,
    runs: map<JobId, Run>, mode: Mode,
    valid: set<Inode>,                 // what the media validator accepts
    gone: set<Inode>,                  // files taken from their entry by outsiders, by retention or by a removal by path
    lately: set<Inode>,                // of these, the ones taken by outsiders since the last restart began
    orphans: set<Inode>,               // outputs whose manifest went first when a crash hit
    faulted: set<JobId>,               // jobs whose terminal write met a transient failure
    stranded: set<JobId>,              // failed jobs that kept their manifest
    adopted: set<JobId>,               // turned succeeded by this recovery
    recorded: map<JobId, Manifest>,    // manifests found by this recovery
    unregistered: set<JobId>,          // of these, the ones this process has not registered
    loose: map<JobId, set<Path>>)      // artifacts put into the registry by path alone

  function Names(owners: set<Owner>): set<Name> {
    set o | o in owners :: o.name
  }

  function Drop<K, V>(m: map<K, V>, k: K): map<K, V> {
    m - {k}
  }

  /** size fresh inodes from lo on, all born for job j. */
  function Born(birth: map<Inode, JobId>, lo: Inode, size: nat, j: JobId): (r: map<Inode, JobId>)
    ensures forall x :: x in r <==> x in birth || lo <= x < lo + size
    ensures forall x <- r :: r[x] == if lo <= x < lo + size then j else birth[x]
  {
    if size == 0 then birth else Born(birth, lo, size - 1, j)[lo + size - 1 := j]
  }

  predicate Visible(files: map<Path, Inode>, dir: Dir, o: Owner) {
    Path(dir, o.name) in files && files[Path(dir, o.name)] == o.inode
  }

  /** removeOwned: the directory entry goes only if it still is the recorded file. */
  function RemoveOwned(files: map<Path, Inode>, dir: Dir, o: Owner): map<Path, Inode> {
    if Visible(files, dir, o) then files - {Path(dir, o.name)} else files
  }

  ghost predicate Init(s: St) {
    && s.rows == map[] && s.results == map[] && s.manifests == map[] && s.birth == map[] && s.runs == map[]
    && s.files == map[] && s.mode == Down && s.gone == {} && s.lately == {} && s.orphans == {} && s.faulted == {} && s.stranded == {}
    && s.adopted == {} && s.recorded == map[] && s.unregistered == {} && s.loose == map[]
  }

  // -------------------------------------------------------------------- rows

  predicate Live(s: St, j: JobId) { s.mode.Serving? && j in s.rows }

  /** A new job id was never used: neither for a row nor for a file. */
  ghost predicate EnqueueStep(s: St, j: JobId, s': St) {
    && s.mode.Serving? && j !in s.rows && j !in s.manifests && (forall i <- s.birth :: s.birth[i] != j)
    && s' == s.(rows := s.rows[j := Queued])
  }

  ghost predicate ClaimStep(s: St, j: JobId, s': St) {
    && Live(s, j) && s.rows[j] == Queued
    && s' == s.(rows := s.rows[j := Running], runs := s.runs[j := Preparing])
  }

  ghost predicate CancelStep(s: St, j: JobId, s': St) {
    && Live(s, j) && Active(s.rows[j])
    && s' == s.(rows := s.rows[j := State.Cancelled])
  }

  // ------------------------------------------------------------- the exporter

  predicate At(s: St, j: JobId) { s.mode.Serving? && j in s.runs }

  /** Temporary outputs exist outside the published names; each gets a fresh inode. */
  ghost predicate BeginStep(s: St, j: JobId, merge: bool, dir: Dir, plan: map<nat, Owner>, size: nat, s': St) {
    && At(s, j) && s.runs[j].Preparing?
    && (forall k <- plan :: k < size && s.next <= plan[k].inode < s.next + size)
    && (merge ==> size == 1 && 0 in plan)
    && s' == s.(next := s.next + size,
                birth := Born(s.birth, s.next, size, j),
                runs := s.runs[j := Publishing(merge, dir, plan, size, {}, 0, false)])
  }

  /** An output that failed to generate, to validate or to publish is passed over. */
  ghost predicate SkipStep(s: St, j: JobId, s': St) {
    && At(s, j) && s.runs[j].Publishing? && s.runs[j].i < s.runs[j].size && !s.runs[j].merge
    && s' == s.(runs := s.runs[j := s.runs[j].(i := s.runs[j].i + 1, written := false)])
  }

  /** The manifest lists every planned output with its inode before the next name appears. */
  ghost predicate WriteManifestStep(s: St, j: JobId, s': St) {
    && At(s, j) && s.runs[j].Publishing? && s.runs[j].i < s.runs[j].size && s.runs[j].i in s.runs[j].plan && !s.runs[j].written
    && s' == s.(manifests := s.manifests[j := Manifest(s.runs[j].dir, s.runs[j].plan.Values, false)],
                runs := s.runs[j := s.runs[j].(written := true)])
  }

  /** No-replace rename: succeeds only on a free name. */
  ghost predicate PublishStep(s: St, j: JobId, s': St) {
    && At(s, j) && s.runs[j].Publishing? && s.runs[j].written && s.runs[j].i < s.runs[j].size && s.runs[j].i in s.runs[j].plan
    && var r := s.runs[j];
       var o := r.plan[r.i];
       && Path(r.dir, o.name) !in s.files
       && s' == s.(files := s.files[Path(r.dir, o.name) := o.inode],
                   runs := s.runs[j := r.(published := r.published + {o}, i := r.i + 1, written := false)])
  }

  /** A taken name is replaced by another candidate. */
  ghost predicate CollideStep(s: St, j: JobId, name: Name, s': St) {
    && At(s, j) && s.runs[j].Publishing? && s.runs[j].written && s.runs[j].i < s.runs[j].size && s.runs[j].i in s.runs[j].plan
    && var r := s.runs[j];
       && Path(r.dir, r.plan[r.i].name) in s.files
       && s' == s.(runs := s.runs[j := r.(plan := r.plan[r.i := Owner(name, r.plan[r.i].inode)], written := false)])
  }

  /** All outputs handled: the manifest is rewritten to what was really published. */
  ghost predicate FinishStep(s: St, j: JobId, s': St) {
    && At(s, j) && s.runs[j].Publishing? && s.runs[j].i >= s.runs[j].size && s.runs[j].published != {}
    && s' == s.(manifests := s.manifests[j := Manifest(s.runs[j].dir, s.runs[j].published, false)],
                runs := s.runs[j := Produced(s.runs[j].dir, s.runs[j].published)])
  }

  /** Any error during publication. */
  ghost predicate AbortStep(s: St, j: JobId, s': St) {
    && At(s, j)
    && ((s.runs[j].Preparing? && s' == s.(runs := s.runs[j := Errored]))
        || (s.runs[j].Publishing? && s' == s.(runs := s.runs[j := RollingBack(s.runs[j].merge, s.runs[j].dir, s.runs[j].published, false)])))
  }

  /** Deferred cleanup.  Separate mode removes its outputs first; merge mode clears the manifest first. */
  ghost predicate RollbackOutputStep(s: St, j: JobId, o: Owner, s': St) {
    && At(s, j) && s.runs[j].RollingBack? && o in s.runs[j].todo && (s.runs[j].merge ==> s.runs[j].cleared)
    && var r := s.runs[j];
       s' == s.(files := RemoveOwned(s.files, r.dir, o), runs := s.runs[j := RollingBack(r.merge, r.dir, r.todo - {o}, r.cleared)])
  }

  ghost predicate RollbackManifestStep(s: St, j: JobId, s': St) {
    && At(s, j) && s.runs[j].RollingBack? && !s.runs[j].cleared && (s.runs[j].merge || s.runs[j].todo == {})
    && s' == s.(manifests := Drop(s.manifests, j), runs := s.runs[j := s.runs[j].(cleared := true)])
  }

  ghost predicate RollbackEndStep(s: St, j: JobId, s': St) {
    && At(s, j) && s.runs[j].RollingBack? && s.runs[j].cleared && s.runs[j].todo == {}
    && s' == s.(runs := s.runs[j := Errored])
  }

  // ------------------------------------------------- the compare-and-swap on the row

  /** The runner's terminal write decides between publication and cancellation. */
  ghost predicate CommitStep(s: St, j: JobId, fault: Fault, s': St) {
    && At(s, j) && j in s.rows && s.runs[j].Produced?
    && var r := s.runs[j];
       var hit := fault != BeforeCommit && s.rows[j] == Running;
       s' == s.(rows := if hit then s.rows[j := Succeeded] else s.rows,
                results := if hit then s.results[j := Names(r.owners)] else s.results,
                faulted := if fault != NoFault then s.faulted + {j} else s.faulted,
                runs := s.runs[j := if fault == NoFault && !hit && s.rows[j] == State.Cancelled then Removing(r.dir, r.owners, r.owners)
                                    else Returned(r.dir, r.owners)])
  }

  /** The row read after a lost swap can fail as well; then nothing is removed. */
  ghost predicate UnreadableStep(s: St, j: JobId, s': St) {
    && At(s, j) && j in s.rows && s.runs[j].Produced? && s.rows[j] == State.Cancelled
    && s' == s.(faulted := s.faulted + {j}, runs := s.runs[j := Returned(s.runs[j].dir, s.runs[j].owners)])
  }

  ghost predicate RemoveOutputStep(s: St, j: JobId, o: Owner, s': St) {
    && At(s, j) && s.runs[j].Removing? && o in s.runs[j].todo
    && var r := s.runs[j];
       s' == s.(files := RemoveOwned(s.files, r.dir, o), runs := s.runs[j := Removing(r.dir, r.owners, r.todo - {o})])
  }

  ghost predicate RemoveManifestStep(s: St, j: JobId, s': St) {
    && At(s, j) && s.runs[j].Removing? && s.runs[j].todo == {}
    && s' == s.(manifests := Drop(s.manifests, j), runs := s.runs[j := Returned(s.runs[j].dir, s.runs[j].owners)])
  }

  /** The scheduler settles what the runner left running; the write may fail for good. */
  ghost predicate SettleStep(s: St, j: JobId, ok: bool, s': St) {
    && At(s, j) && j in s.rows && (s.runs[j].Returned? || s.runs[j].Errored?)
    && var hit := ok && s.rows[j] == Running;
       s' == s.(rows := if hit then s.rows[j := if s.runs[j].Returned? then Succeeded else Failed] else s.rows,
                results := if hit && s.runs[j].Returned? then s.results[j := Names(s.runs[j].owners)] else s.results,
                runs := if s.runs[j].Returned? then s.runs else Drop(s.runs, j))
  }

  // ------------------------------------------------------------ everything else

  /** Outside processes create, replace and delete directory entries; a new file has a new inode. */
  ghost predicate ExternalStep(s: St, p: Path, create: bool, s': St) {
    s' == s.(next := s.next + 1,
             files := if create then s.files[p := s.next] else s.files - {p},
             gone := if p in s.files then s.gone + {s.files[p]} else s.gone,
             lately := if p in s.files then s.lately + {s.files[p]} else s.lately)
  }

  /** The process has registered the manifest of j; only then does retention go by recorded identity. */
  predicate Registered(s: St, j: JobId) {
    j in s.manifests && j !in s.unregistered
  }

  ghost function Recorded(files: map<Path, Inode>, m: Manifest): set<Path> {
    set p | p in files && p.dir == m.dir && Owner(p.name, files[p]) in m.owners
  }

  /** Retention removes an expired job's outputs and then its manifest, and forgets the job. */
  ghost predicate ExpireStep(s: St, j: JobId, s': St) {
    && s.mode.Serving? && Registered(s, j)
    && (j in s.runs ==> s.runs[j].Produced? || s.runs[j].Returned?)
    && s' == s.(files := s.files - Recorded(s.files, s.manifests[j]),
                gone := s.gone + (set p | p in Recorded(s.files, s.manifests[j]) :: s.files[p]),
                manifests := Drop(s.manifests, j), loose := Drop(s.loose, j))
  }

  // ------------------------------------------------------------ the artifact registry

  /** A download request registers the paths that the result names, expired or not, without looking at manifest or
      files.  dir is where the destination lies today. */
  ghost predicate DownloadStep(s: St, j: JobId, dir: Dir, s': St) {
    && s.mode.Serving? && j in s.rows && s.rows[j] == Succeeded && j in s.results
    && s' == s.(loose := s.loose[j := Paths(dir, s.results[j])])
  }

  function Paths(dir: Dir, names: set<Name>): set<Path> {
    set n | n in names :: Path(dir, n)
  }

  /** Reusing an archive found on disk: its path is registered first, its manifest only once it could be opened. */
  ghost predicate ReopenStep(s: St, b: JobId, ok: bool, s': St) {
    && s.mode.Serving? && b in s.manifests && s.manifests[b].archive
    && s' == s.(loose := s.loose[b := Paths(s.manifests[b].dir, Names(s.manifests[b].owners))],
                unregistered := if ok then s.unregistered - {b} else s.unregistered)
  }

  /** Retention of a job without registered manifest removes whatever lies at a registered path. */
  ghost predicate SweepStep(s: St, j: JobId, p: Path, s': St) {
    && s.mode.Serving? && !Registered(s, j) && j in s.loose && p in s.loose[j]
    && s' == Taken(s, p).(loose := s.loose[j := s.loose[j] - {p}])
  }

  /** s after somebody removed the entry p. */
  function Taken(s: St, p: Path): St {
    s.(files := s.files - {p}, gone := if p in s.files then s.gone + {s.files[p]} else s.gone)
  }

  /** A batch archive: manifest first, then the rename. */
  ghost predicate ArchiveManifestStep(s: St, b: JobId, dir: Dir, name: Name, s': St) {
    && s.mode.Serving? && b !in s.rows && b !in s.manifests && b !in s.runs
    && s' == s.(next := s.next + 1, birth := s.birth[s.next := b],
                manifests := s.manifests[b := Manifest(dir, {Owner(name, s.next)}, true)])
  }

  ghost predicate ArchivePublishStep(s: St, b: JobId, o: Owner, s': St) {
    && s.mode.Serving? && b in s.manifests && s.manifests[b].archive && o in s.manifests[b].owners
    && Path(s.manifests[b].dir, o.name) !in s.files
    && s' == s.(files := s.files[Path(s.manifests[b].dir, o.name) := o.inode])
  }

  /** The rename of an archive failed: its manifest goes again. */
  ghost predicate ArchiveWithdrawStep(s: St, b: JobId, s': St) {
    && s.mode.Serving? && Registered(s, b) && s.manifests[b].archive && Recorded(s.files, s.manifests[b]) == {}
    && s' == s.(manifests := Drop(s.manifests, b))
  }

  /** A published archive that cannot be opened is removed by path; its manifest goes, its registered path stays. */
  ghost predicate ArchiveDiscardStep(s: St, b: JobId, o: Owner, s': St) {
    && s.mode.Serving? && Registered(s, b) && s.manifests[b].archive && s.manifests[b].owners == {o}
    && var p := Path(s.manifests[b].dir, o.name);
       s' == Taken(s, p).(manifests := Drop(s.manifests, b), loose := s.loose[b := {p}])
  }

  /** Merge rollback between its two deferred steps: the output has lost its manifest. */
  ghost predicate Exposed(runs: map<JobId, Run>, j: JobId, inode: Inode) {
    && j in runs && runs[j].RollingBack? && runs[j].merge && runs[j].cleared
    && exists o <- runs[j].todo :: o.inode == inode
  }

  ghost function Abandoned(s: St): set<Inode> {
    set i | i in s.birth && Exposed(s.runs, s.birth[i], i)
  }

  ghost predicate CrashStep(s: St, s': St) {
    s' == s.(mode := Down, runs := map[], orphans := s.orphans + Abandoned(s), loose := map[])
  }

  // ----------------------------------------------------------------- recovery

  ghost function Within(manifests: map<JobId, Manifest>, configured: set<Dir>): set<JobId> {
    set j | j in manifests && manifests[j].dir in configured
  }

  function FailRunning(rows: map<JobId, State>): map<JobId, State> {
    map j | j in rows :: if rows[j] == Running then Failed else rows[j]
  }

  ghost function Overlooked(s: St): set<JobId> {
    set j | j in s.manifests && j in s.rows && s.rows[j] == Running
  }

  /** Reconcile walks the configured destination directories and nothing else. */
  ghost predicate RestartStep(s: St, configured: set<Dir>, s': St) {
    && s.mode.Down?
    && s' == s.(mode := Reconciling(configured, Within(s.manifests, configured), None),
                adopted := {}, recorded := s.manifests, unregistered := s.manifests.Keys, lately := {})
  }

  predicate Visiting(s: St, j: JobId) {
    s.mode.Reconciling? && s.mode.busy.None? && j in s.mode.pending && j in s.manifests
  }

  /** Every listed output is present under its inode and passes the validator. */
  ghost predicate Intact(s: St, m: Manifest) {
    forall o <- m.owners :: Visible(s.files, m.dir, o) && o.inode in s.valid
  }

  function Visited(s: St, j: JobId): Mode
    requires s.mode.Reconciling?
  {
    s.mode.(pending := s.mode.pending - {j})
  }

  /** A running job with intact outputs is completed from its manifest. */
  ghost predicate AdoptStep(s: St, j: JobId, s': St) {
    && Visiting(s, j) && !s.manifests[j].archive && j in s.rows && s.rows[j] == Running && Intact(s, s.manifests[j])
    && s' == s.(rows := s.rows[j := Succeeded], results := s.results[j := Names(s.manifests[j].owners)],
                adopted := s.adopted + {j}, mode := Visited(s, j), unregistered := s.unregistered - {j})
  }

  /** An intact or uninspectable output of a succeeded job or an archive stays, registered only if it could be
      inspected; anything of a queued or failed job stays unregistered. */
  ghost predicate LeaveStep(s: St, j: JobId, registered: bool, s': St) {
    && Visiting(s, j)
    && (s.manifests[j].archive || (j in s.rows && (s.rows[j] == Succeeded || s.rows[j] == Queued || s.rows[j] == Failed)))
    && (registered ==> s.manifests[j].archive || s.rows[j] == Succeeded)
    && s' == s.(mode := Visited(s, j), unregistered := if registered then s.unregistered - {j} else s.unregistered)
  }

  /** Everything else is cleaned up: a cancelled or unknown owner, a running job whose outputs are not intact,
      a succeeded job or archive whose outputs are invalid, missing or expired. */
  ghost predicate CleanStep(s: St, j: JobId, s': St) {
    && Visiting(s, j)
    && (s.manifests[j].archive || j !in s.rows || s.rows[j] == State.Cancelled || s.rows[j] == Succeeded ||
        (s.rows[j] == Running && !Intact(s, s.manifests[j])))
    && s' == s.(mode := s.mode.(busy := Some(Cleaning(j, s.manifests[j].owners))))
  }

  ghost predicate CleanOutputStep(s: St, o: Owner, s': St) {
    && s.mode.Reconciling? && s.mode.busy.Some? && o in s.mode.busy.value.todo && s.mode.busy.value.id in s.manifests
    && var c := s.mode.busy.value;
       s' == s.(files := RemoveOwned(s.files, s.manifests[c.id].dir, o), mode := s.mode.(busy := Some(c.(todo := c.todo - {o}))))
  }

  ghost predicate CleanManifestStep(s: St, s': St) {
    && s.mode.Reconciling? && s.mode.busy.Some? && s.mode.busy.value.todo == {}
    && var c := s.mode.busy.value;
       s' == s.(manifests := Drop(s.manifests, c.id), mode := s.mode.(pending := s.mode.pending - {c.id}, busy := None),
                   unregistered := s.unregistered - {c.id})
  }

  ghost predicate ReconciledStep(s: St, s': St) {
    && s.mode.Reconciling? && s.mode.pending == {} && s.mode.busy.None?
    && s' == s.(mode := Reconciled(s.mode.configured))
  }

  /** Recover fails whatever is still running; a manifest outside the configured directories is left behind. */
  ghost predicate RecoverStep(s: St, s': St) {
    && s.mode.Reconciled?
    && s' == s.(rows := FailRunning(s.rows),
                stranded := s.stranded + Overlooked(s),
                mode := Serving)
  }

  // ------------------------------------------------------------------- events

  datatype Event =
    | Row(j: JobId, r: RowEvent)
    | Export(j: JobId, x: ExportEvent)
    | After(j: JobId, a: AfterEvent)
    | World(w: WorldEvent)
    | Restarting(v: RecoveryEvent)

  datatype RowEvent = Enqueue | Claim | Cancel
  datatype ExportEvent = Begin(merge: bool, dir: Dir, plan: map<nat, Owner>, size: nat) | Skip | WriteManifest | Publish
    | Collide(name: Name) | Finish | Abort | RollbackOutput(o: Owner) | RollbackManifest | RollbackEnd
  datatype AfterEvent = Commit(fault: Fault) | Unreadable | RemoveOutput(o: Owner) | RemoveManifest | Settle(ok: bool)
  datatype WorldEvent = External(p: Path, create: bool) | Expire(j: JobId) | ArchiveManifest(b: JobId, dir: Dir, name: Name)
    | ArchivePublish(b: JobId, o: Owner) | ArchiveWithdraw(b: JobId) | ArchiveDiscard(b: JobId, o: Owner)
    | Download(j: JobId, dir: Dir) | Reopen(b: JobId, ok: bool) | Sweep(j: JobId, p: Path) | Crash
  datatype RecoveryEvent = Restart(configured: set<Dir>) | Adopt(j: JobId) | Leave(j: JobId, registered: bool) | Clean(j: JobId)
    | CleanOutput(o: Owner) | CleanManifest | ReconcileDone | Recover

  ghost predicate RowNext(s: St, j: JobId, e: RowEvent, s': St) {
    match e
    case Enqueue => EnqueueStep(s, j, s')
    case Claim => ClaimStep(s, j, s')
    case Cancel => CancelStep(s, j, s')
  }

  ghost predicate ExportNext(s: St, j: JobId, e: ExportEvent, s': St) {
    match e
    case Begin(merge, dir, plan, size) => BeginStep(s, j, merge, dir, plan, size, s')
    case Skip => SkipStep(s, j, s')
    case WriteManifest => WriteManifestStep(s, j, s')
    case Publish => PublishStep(s, j, s')
    case Collide(name) => CollideStep(s, j, name, s')
    case Finish => FinishStep(s, j, s')
    case Abort => AbortStep(s, j, s')
    case RollbackOutput(o) => RollbackOutputStep(s, j, o, s')
    case RollbackManifest => RollbackManifestStep(s, j, s')
    case RollbackEnd => RollbackEndStep(s, j, s')
  }

  ghost predicate AfterNext(s: St, j: JobId, e: AfterEvent, s': St) {
    match e
    case Commit(fault) => CommitStep(s, j, fault, s')
    case Unreadable => UnreadableStep(s, j, s')
    case RemoveOutput(o) => RemoveOutputStep(s, j, o, s')
    case RemoveManifest => RemoveManifestStep(s, j, s')
    case Settle(ok) => SettleStep(s, j, ok, s')
  }

  ghost predicate WorldNext(s: St, e: WorldEvent, s': St) {
    match e
    case External(p, create) => ExternalStep(s, p, create, s')
    case Expire(j) => ExpireStep(s, j, s')
    case ArchiveManifest(b, dir, name) => ArchiveManifestStep(s, b, dir, name, s')
    case ArchivePublish(b, o) => ArchivePublishStep(s, b, o, s')
    case ArchiveWithdraw(b) => ArchiveWithdrawStep(s, b, s')
    case ArchiveDiscard(b, o) => ArchiveDiscardStep(s, b, o, s')
    case Download(j, dir) => DownloadStep(s, j, dir, s')
    case Reopen(b, ok) => ReopenStep(s, b, ok, s')
    case Sweep(j, p) => SweepStep(s, j, p, s')
    case Crash => CrashStep(s, s')
  }

  ghost predicate RecoveryNext(s: St, e: RecoveryEvent, s': St) {
    match e
    case Restart(configured) => RestartStep(s, configured, s')
    case Adopt(j) => AdoptStep(s, j, s')
    case Leave(j, registered) => LeaveStep(s, j, registered, s')
    case Clean(j) => CleanStep(s, j, s')
    case CleanOutput(o) => CleanOutputStep(s, o, s')
    case CleanManifest => CleanManifestStep(s, s')
    case ReconcileDone => ReconciledStep(s, s')
    case Recover => RecoverStep(s, s')
  }

  ghost predicate Next(s: St, e: Event, s': St) {
    match e
    case Row(j, r) => RowNext(s, j, r, s')
    case Export(j, x) => ExportNext(s, j, x, s')
    case After(j, a) => AfterNext(s, j, a, s')
    case World(w) => WorldNext(s, w, s')
    case Restarting(v) => RecoveryNext(s, v, s')
  }

  /** States joined by events, from anywhere. */
  ghost predicate Chain(states: seq<St>, events: seq<Event>) {
    && |states| == |events| + 1
    && forall i :: 0 <= i < |events| ==> Next(states[i], events[i], states[i + 1])
  }

  ghost predicate ChainTo(states: seq<St>, events: seq<Event>, s: St, s': St) {
    Chain(states, events) && states[0] == s && states[|events|] == s'
  }

  ghost predicate IsRun(states: seq<St>, events: seq<Event>) {
    Chain(states, events) && Init(states[0])
  }

  lemma ChainNone(s: St)
    ensures ChainTo([s], [], s, s)
  {}

  lemma ChainOne(states: seq<St>, events: seq<Event>, s: St, mid: St, e: Event, s': St)
    requires ChainTo(states, events, s, mid) && Next(mid, e, s')
    ensures ChainTo(states + [s'], events + [e], s, s')
  {
    hide Next;
    var t, f := states + [s'], events + [e];
    forall i | 0 <= i < |f| ensures Next(t[i], f[i], t[i + 1]) {
      if i < |events| {
        assert t[i] == states[i] && t[i + 1] == states[i + 1] && f[i] == events[i];
      }
    }
  }
}
