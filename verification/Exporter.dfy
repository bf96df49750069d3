/** Publication and recovery as loops over one object.  Every method is proved to be a chain of events of the
    publication system, so what holds of its runs holds of these loops, whatever ran before. */
module Exporter {
  import opened Prelude
  import opened Jobs
  import opened PublicationModel
  import opened PublicationInvariants
  import opened PublicationSteps
  import opened PublicationTheorems

  const ATTEMPTS := 100

  // -------------------------------------------------------------------- chains

  lemma {:induction false} ChainInv(states: seq<St>, events: seq<Event>, n: nat)
    requires Chain(states, events) && Inv(states[0]) && n < |states|
    ensures Inv(states[n])
  {
    hide Inv, Next;
    if n > 0 {
      ChainInv(states, events, n - 1);
      NextInv(states[n - 1], events[n - 1], states[n]);
    }
  }

  lemma ChainToInv(states: seq<St>, events: seq<Event>, s: St, s': St)
    requires ChainTo(states, events, s, s') && Inv(s)
    ensures Inv(s')
  {
    hide Inv, Next;
    ChainInv(states, events, |events|);
  }

  lemma ExportIsNext(s: St, j: JobId, x: ExportEvent, s': St)
    requires ExportNext(s, j, x, s')
    ensures Next(s, Event.Export(j, x), s')
  {}

  lemma BeginIsNext(s: St, j: JobId, merge: bool, dir: Dir, plan: map<nat, Owner>, size: nat, s': St)
    requires BeginStep(s, j, merge, dir, plan, size, s')
    ensures Next(s, Event.Export(j, Begin(merge, dir, plan, size)), s')
  {}

  lemma BegunThenPlaced(s: St, j: JobId, r: Run, s': St)
    requires At(s, j) && r.Publishing?
    requires s' == s.(next := s.next + r.size, birth := Born(s.birth, s.next, r.size, j), runs := s.runs[j := r])
    ensures At(Begun(s, j, r.size), j) && s' == Placed(Begun(s, j, r.size), j, r, s'.files, s'.manifests)
  {
    hide Born;
  }

  lemma AfterIsNext(s: St, j: JobId, a: AfterEvent, s': St)
    requires AfterNext(s, j, a, s')
    ensures Next(s, After(j, a), s')
  {}

  lemma RemoveOutputIsNext(s: St, j: JobId, o: Owner, s': St)
    requires RemoveOutputStep(s, j, o, s')
    ensures Next(s, After(j, RemoveOutput(o)), s')
  {}

  lemma RemoveManifestIsNext(s: St, j: JobId, s': St)
    requires RemoveManifestStep(s, j, s')
    ensures Next(s, After(j, RemoveManifest), s')
  {}

  lemma RecoveryIsNext(s: St, v: RecoveryEvent, s': St)
    requires RecoveryNext(s, v, s')
    ensures Next(s, Restarting(v), s')
  {}

  /** What one export was asked for, and what its outputs meet: good says which were generated and validated, fatal where
      a hard error strikes, intact whether a merged output still is our file right after the rename; spare names
      the candidates for a taken name. */
  datatype Request =
    | Separate(names: seq<Name>, good: seq<bool>, fatal: nat -> bool, spare: nat -> (nat -> Name))
    | Merged(name: Name, generated: bool, intact: bool, oneSpare: nat -> Name)

  predicate WellSized(r: Request) { r.Separate? ==> |r.good| == |r.names| }

  function Outputs(r: Request): nat { if r.Separate? then |r.names| else 1 }

  /** The names that an output is offered under, one attempt after the other. */
  function Candidate(first: Name, spare: nat -> Name, c: nat): Name {
    if c == 0 then first else spare(c - 1)
  }

  /** The planned outputs: those that are good, under their names and fresh inodes. */
  function PlannedOutputs(names: seq<Name>, good: seq<bool>, base: Inode): map<nat, Owner>
    requires |names| == |good|
  {
    map i: nat | i < |names| && good[i] :: Owner(names[i], base + i)
  }

  /** name is the first candidate that is not among taken. */
  ghost predicate FirstFree(taken: set<Name>, first: Name, spare: nat -> Name, name: Name) {
    exists c: nat :: c < ATTEMPTS && IsFirstFree(taken, first, spare, name, c)
  }

  ghost predicate IsFirstFree(taken: set<Name>, first: Name, spare: nat -> Name, name: Name, c: nat) {
    name == Candidate(first, spare, c) && name !in taken && forall b: nat :: b < c ==> Candidate(first, spare, b) in taken
  }

  ghost predicate NoneFree(taken: set<Name>, first: Name, spare: nat -> Name) {
    forall c: nat :: c < ATTEMPTS ==> Candidate(first, spare, c) in taken
  }

  /** The names in use in a directory. */
  function NamesIn(files: map<Path, Inode>, dir: Dir): set<Name> {
    set p | p in files && p.dir == dir :: p.name
  }

  lemma NameIn(files: map<Path, Inode>, dir: Dir, name: Name)
    ensures name in NamesIn(files, dir) <==> Path(dir, name) in files
  {
    if Path(dir, name) in files { assert Path(dir, name).name in NamesIn(files, dir); }
  }

  /** The names that the outputs before output k were given. */
  ghost function NamesBefore(placed: map<nat, Name>, k: nat): set<Name> {
    set h | h in placed && h < k :: placed[h]
  }

  /** What became of the first n outputs: each good one, in turn, got the first candidate that neither the directory nor
      an earlier output had, and stayed unpublished only when all its candidates were taken; a bad one never shows. */
  ghost predicate PlacedInTurn(taken: set<Name>, names: seq<Name>, good: seq<bool>, spare: nat -> (nat -> Name), placed: map<nat, Name>, n: nat)
    requires n <= |names| == |good|
  {
    && (forall k <- placed :: k < n && good[k])
    && forall k {:trigger good[k]} :: 0 <= k < n && good[k] ==>
         if k in placed then FirstFree(taken + NamesBefore(placed, k), names[k], spare(k), placed[k])
         else NoneFree(taken + NamesBefore(placed, k), names[k], spare(k))
  }

  ghost function OwnersOf(placed: map<nat, Name>, base: Inode): set<Owner> {
    set k | k in placed :: Owner(placed[k], base + k)
  }

  /** What a request publishes into a directory where taken are the names in use, and whether it succeeds at all: in
      separate mode when no hard error strikes and some good output finds a name, in merge mode when its output finds
      one and is intact afterwards.  The outputs have the inodes from base on. */
  ghost predicate RightOutputs(r: Request, taken: set<Name>, base: Inode, ok: bool, published: set<Owner>)
    requires WellSized(r)
  {
    match r
    case Separate(names, good, fatal, spare) =>
      && (ok <==> (forall i: nat :: i <= |names| ==> !fatal(i)) && exists k: nat, c: nat :: k < |names| && good[k] && c < ATTEMPTS && Candidate(names[k], spare(k), c) !in taken)
      && (ok ==> exists placed: map<nat, Name> :: PlacedInTurn(taken, names, good, spare, placed, |names|) && published == OwnersOf(placed, base))
    case Merged(name, generated, intact, spare) =>
      && (ok <==> generated && intact && exists c: nat :: c < ATTEMPTS && Candidate(name, spare, c) !in taken)
      && (ok ==> exists n: Name :: FirstFree(taken, name, spare, n) && published == {Owner(n, base)})
  }

  // -------------------------------------------------------------------- the store

  class Store {
    var rows: map<JobId, State>
    var results: map<JobId, set<Name>>
    var files: map<Path, Inode>
    var manifests: map<JobId, Manifest>
    var next: Inode
    ghost var rest: St                  // the other components: runs, recovery mode, history

    ghost function View(): St
      reads this
    {
      rest.(rows := rows, results := results, files := files, manifests := manifests, next := next)
    }

    constructor (s: St)
      ensures View() == s
    {
      rows, results, files, manifests, next := s.rows, s.results, s.files, s.manifests, s.next;
      rest := s;
    }

    /** removeOwned and manifestOutputOwned: the entry is removed only while it is the recorded file. */
    method RemoveOne(dir: Dir, o: Owner)
      modifies this`files
      ensures files == RemoveOwned(old(files), dir, o)
    {
      var path := Path(dir, o.name);
      if path in files && files[path] == o.inode {
        files := files - {path};
      }
    }

    /** cleanupManifest: the listed outputs that are still ours, then the manifest. */
    method CleanupManifest(j: JobId, ghost states: seq<St>, ghost events: seq<Event>, ghost s: St) returns (ghost states': seq<St>, ghost events': seq<Event>)
      requires ChainTo(states, events, s, View())
      requires Visiting(View(), j) && exists t :: CleanStep(View(), j, t)
      modifies this
      ensures ChainTo(states', events', s, View())
      ensures files == FilesWithout(old(files), old(manifests)[j].dir, old(manifests)[j].owners)
      ensures View() == old(View()).(files := files, manifests := Drop(old(manifests), j), mode := Visited(old(View()), j),
                                     unregistered := old(rest.unregistered) - {j})
    {
      hide ChainTo, Next, Intact, RemoveOwned, FilesWithout;
      var m := manifests[j];
      var todo := m.owners;
      ghost var before := View();
      rest := rest.(mode := rest.mode.(busy := Some(Cleaning(j, todo))));
      RecoveryIsNext(before, Clean(j), View());
      ChainOne(states, events, s, before, Restarting(Clean(j)), View());
      states', events' := states + [View()], events + [Restarting(Clean(j))];
      WithoutNone(files, m.dir);
      assert m.owners - todo == {};
      while todo != {}
        invariant todo <= m.owners && ChainTo(states', events', s, View())
        invariant files == FilesWithout(old(files), m.dir, m.owners - todo)
        invariant View() == before.(files := files, mode := before.mode.(busy := Some(Cleaning(j, todo))))
        decreases |todo|
      {
        var o :| o in todo;
        ghost var mid := View();
        WithoutOwner(old(files), m.dir, m.owners - todo, o);
        assert m.owners - (todo - {o}) == m.owners - todo + {o};
        RemoveOne(m.dir, o);
        todo := todo - {o};
        rest := rest.(mode := rest.mode.(busy := Some(Cleaning(j, todo))));
        RecoveryIsNext(mid, CleanOutput(o), View());
        ChainOne(states', events', s, mid, Restarting(CleanOutput(o)), View());
        states', events' := states' + [View()], events' + [Restarting(CleanOutput(o))];
      }
      assert m.owners - {} == m.owners;
      ghost var mid := View();
      manifests := manifests - {j};
      rest := rest.(mode := Visited(before, j), unregistered := rest.unregistered - {j});
      RecoveryIsNext(mid, CleanManifest, View());
      ChainOne(states', events', s, mid, Restarting(CleanManifest), View());
      states', events' := states' + [View()], events' + [Restarting(CleanManifest)];
    }

    /** The manifest stays; registered says whether the process knows it from now on. */
    method KeepManifest(j: JobId, registered: bool, ghost states: seq<St>, ghost events: seq<Event>, ghost s: St)
      returns (ghost states': seq<St>, ghost events': seq<Event>)
      requires ChainTo(states, events, s, View()) && Visiting(View(), j) && exists t :: LeaveStep(View(), j, registered, t)
      modifies this`rest
      ensures ChainTo(states', events', s, View())
      ensures View() == old(View()).(mode := Visited(old(View()), j),
                                     unregistered := if registered then old(rest.unregistered) - {j} else old(rest.unregistered))
    {
      hide ChainTo, Next;
      ghost var mid := View();
      rest := rest.(mode := Visited(mid, j), unregistered := if registered then rest.unregistered - {j} else rest.unregistered);
      RecoveryIsNext(mid, Leave(j, registered), View());
      ChainOne(states, events, s, mid, Restarting(Leave(j, registered)), View());
      states', events' := states + [View()], events + [Restarting(Leave(j, registered))];
    }

    /** A running job whose outputs are intact is completed from its manifest. */
    method CompleteJob(j: JobId, ghost states: seq<St>, ghost events: seq<Event>, ghost s: St)
      returns (ghost states': seq<St>, ghost events': seq<Event>)
      requires ChainTo(states, events, s, View()) && Visiting(View(), j) && exists t :: AdoptStep(View(), j, t)
      modifies this`results, this`rows, this`rest
      ensures ChainTo(states', events', s, View())
      ensures View() == old(View()).(rows := old(rows)[j := Succeeded], results := old(results)[j := Names(manifests[j].owners)],
                                     adopted := old(rest.adopted) + {j}, mode := Visited(old(View()), j), unregistered := old(rest.unregistered) - {j})
    {
      hide ChainTo, Next, Intact;
      ghost var mid := View();
      results := results[j := Names(manifests[j].owners)];
      rows := rows[j := Succeeded];
      rest := rest.(mode := Visited(mid, j), adopted := rest.adopted + {j}, unregistered := rest.unregistered - {j});
      RecoveryIsNext(mid, Adopt(j), View());
      ChainOne(states, events, s, mid, Restarting(Adopt(j)), View());
      states', events' := states + [View()], events + [Restarting(Adopt(j))];
    }

    /** The callback of the walk, for one manifest. */
    method HandleManifest(j: JobId, f: Findings, ghost states: seq<St>, ghost events: seq<Event>, ghost s: St)
      returns (action: Action, ghost states': seq<St>, ghost events': seq<Event>)
      requires ChainTo(states, events, s, View()) && Visiting(View(), j) && f.accepts == rest.valid
      modifies this
      ensures action.Remove? <==> ToClear(old(View()), j, f)
      ensures action.Complete? <==> ToComplete(old(View()), j, f)
      ensures action.Complete? || action == Keep(true) <==> ToRegister(old(View()), j, f)
      ensures ChainTo(states', events', s, View()) && Turn(old(View()), View(), j, action)
      ensures rest.mode == Visited(old(View()), j) && rest.valid == f.accepts && rest.stranded == old(rest.stranded) && rest.recorded == old(rest.recorded)
    {
      hide ChainTo, Next, Intact, FilesWithout, Decide, AdoptStep, LeaveStep, CleanStep, ToClear, ToComplete, ToRegister;
      DecideMeans(View(), j, f);
      DecideExactly(View(), j, f);
      action := Decide(rows, files, j, manifests[j], f);
      match action {
        case Keep(registered) => states', events' := KeepManifest(j, registered, states, events, s);
        case Complete => states', events' := CompleteJob(j, states, events, s);
        case Remove => states', events' := CleanupManifest(j, states, events, s);
      }
    }

    /** The walk begins: the manifests of the configured directories are pending. */
    method StartWalk(configured: set<Dir>) returns (pending: set<JobId>, ghost states: seq<St>, ghost events: seq<Event>)
      requires rest.mode.Down?
      modifies this`rest
      ensures ChainTo(states, events, old(View()), View()) && pending == Within(manifests, configured)
      ensures View() == old(View()).(mode := Reconciling(configured, pending, None), adopted := {}, recorded := manifests,
                                     unregistered := manifests.Keys, lately := {})
    {
      hide ChainTo, Next;
      ghost var s := View();
      ChainNone(s);
      pending := set j | j in manifests && manifests[j].dir in configured;
      assert pending == Within(manifests, configured);
      rest := rest.(mode := Reconciling(configured, pending, None), adopted := {}, recorded := manifests, unregistered := manifests.Keys, lately := {});
      RecoveryIsNext(s, Restart(configured), View());
      ChainOne([s], [], s, s, Restarting(Restart(configured)), View());
      states, events := [s] + [View()], [] + [Restarting(Restart(configured))];
    }

    /** Reconcile: one pass over the manifests of the configured directories.  In terms of the rows, files and manifests it
        found: exactly the running jobs with intact outputs are completed, exactly the manifests to be cleared go and with
        them exactly their recorded outputs, and exactly what it could vouch for is registered. */
    method Reconcile(configured: set<Dir>, f: Findings) returns (ghost states: seq<St>, ghost events: seq<Event>)
      requires rest.mode.Down? && f.accepts == rest.valid && Inv(View()) && forall j <- manifests :: Lists(f, j, manifests[j])
      modifies this
      ensures ChainTo(states, events, old(View()), View()) && Inv(View()) && rest.mode == Reconciled(configured)
      ensures rest.stranded == old(rest.stranded) && rest.recorded == old(manifests)
      ensures Outcome(old(View()), View(), Within(old(manifests), configured), f)
    {
      hide ChainTo, Next, Intact, Inv, Lists, Outcome, Turn, ToClear, ToComplete, ToRegister, Within;
      ghost var s := View();
      var pending;
      pending, states, events := StartWalk(configured);
      ghost var all := pending;
      WithinManifests(s, configured);
      ChainToInv(states, events, s, View());
      assert all - pending == {};
      NothingDone(s, View(), f);
      while pending != {}
        invariant ChainTo(states, events, s, View()) && Inv(View()) && rest.mode == Reconciling(configured, pending, None)
        invariant pending <= all && Outcome(s, View(), all - pending, f)
        invariant rest.valid == f.accepts && rest.stranded == s.stranded && rest.recorded == s.manifests
        decreases |pending|
      {
        var j :| j in pending;
        ghost var mid := View();
        StillThere(s, mid, all - pending, f, j);
        var action;
        action, states, events := HandleManifest(j, f, states, events, s);
        ChainToInv(states, events, s, View());
        OneMoreDone(s, mid, View(), all - pending, f, j, action);
        assert all - pending + {j} == all - (pending - {j});
        pending := pending - {j};
      }
      assert all - {} == all;
      ghost var mid := View();
      rest := rest.(mode := Reconciled(configured));
      RecoveryIsNext(mid, ReconcileDone, View());
      ChainOne(states, events, s, mid, Restarting(ReconcileDone), View());
      states, events := states + [View()], events + [Restarting(ReconcileDone)];
      ChainToInv(states, events, s, View());
      OutcomeSame(s, mid, View(), all, f);
    }

    /** Start-up: Reconcile, then Recover.  What Reconcile left running has failed; all else is as it left it. */
    method Recover(configured: set<Dir>, f: Findings)
      requires rest.mode.Down? && f.accepts == rest.valid && Inv(View()) && forall j <- manifests :: Lists(f, j, manifests[j])
      modifies this
      ensures Inv(View()) && rest.mode.Serving? && Running !in rows.Values
      ensures forall j <- rest.adopted :: AdoptedOk(View(), j)
      ensures rows.Keys == old(rows).Keys
      ensures forall j <- rows :: rows[j] ==
                if j in Within(old(manifests), configured) && ToComplete(old(View()), j, f) then Succeeded
                else if old(rows)[j] == Running then Failed
                else old(rows)[j]
      ensures OutcomeButRows(old(View()), View(), Within(old(manifests), configured), f)
      ensures forall j <- old(manifests) :: old(manifests)[j].dir in configured ==> Settled(View(), old(rest.stranded), j, old(manifests)[j])
    {
      hide Inv, ChainTo, Next, OutcomeButRows, ToComplete, Within;
      ghost var s := View();
      ghost var states, events := Reconcile(configured, f);
      ghost var mid := View();
      rows := FailRunning(rows);
      rest := rest.(mode := Serving, stranded := rest.stranded + Overlooked(mid));
      RecoverSettles(mid, View());
      OutcomeStays(s, mid, View(), Within(s.manifests, configured), f);
    }

    // ---------------------------------------------------------------- publication

    /** writeManifestAtWithOwners and RegisterManifest: list every planned output before the next name appears. */
    method Announce(j: JobId, r: Run, ghost states: seq<St>, ghost events: seq<Event>, ghost s: St)
      returns (r': Run, ghost states': seq<St>, ghost events': seq<Event>)
      requires ChainTo(states, events, s, View()) && At(View(), j) && rest.runs[j] == r
      requires r.Publishing? && r.i < r.size && r.i in r.plan && !r.written
      modifies this`manifests, this`rest
      ensures ChainTo(states', events', s, View()) && r' == r.(written := true)
      ensures View() == old(View()).(manifests := old(manifests)[j := Manifest(r.dir, r.plan.Values, false)], runs := old(rest.runs)[j := r'])
    {
      hide ChainTo, Next;
      ghost var mid := View();
      manifests := manifests[j := Manifest(r.dir, r.plan.Values, false)];
      r' := r.(written := true);
      rest := rest.(runs := rest.runs[j := r']);
      ExportIsNext(mid, j, WriteManifest, View());
      ChainOne(states, events, s, mid, Event.Export(j, WriteManifest), View());
      states', events' := states + [View()], events + [Event.Export(j, WriteManifest)];
    }

    /** publishFrom: a rename that never replaces. */
    method Rename(j: JobId, r: Run, ghost states: seq<St>, ghost events: seq<Event>, ghost s: St)
      returns (done: bool, r': Run, ghost states': seq<St>, ghost events': seq<Event>)
      requires ChainTo(states, events, s, View()) && At(View(), j) && rest.runs[j] == r
      requires r.Publishing? && r.i < r.size && r.i in r.plan && r.written
      modifies this`files, this`rest
      ensures ChainTo(states', events', s, View())
      ensures done <==> Path(r.dir, r.plan[r.i].name) !in old(files)
      ensures r' == if done then r.(published := r.published + {r.plan[r.i]}, i := r.i + 1, written := false) else r
      ensures View() == old(View()).(files := if done then old(files)[Path(r.dir, r.plan[r.i].name) := r.plan[r.i].inode] else old(files),
                                     runs := old(rest.runs)[j := r'])
    {
      hide ChainTo, Next;
      var o := r.plan[r.i];
      ghost var mid := View();
      if Path(r.dir, o.name) in files {
        assert rest.runs == rest.runs[j := r];
        return false, r, states, events;
      }
      files := files[Path(r.dir, o.name) := o.inode];
      r' := r.(published := r.published + {o}, i := r.i + 1, written := false);
      rest := rest.(runs := rest.runs[j := r']);
      ExportIsNext(mid, j, Publish, View());
      ChainOne(states, events, s, mid, Event.Export(j, Publish), View());
      states', events' := states + [View()], events + [Event.Export(j, Publish)];
      done := true;
    }

    /** A name that is taken is replaced by another candidate. */
    method ChooseAnother(j: JobId, r: Run, name: Name, ghost states: seq<St>, ghost events: seq<Event>, ghost s: St)
      returns (r': Run, ghost states': seq<St>, ghost events': seq<Event>)
      requires ChainTo(states, events, s, View()) && At(View(), j) && rest.runs[j] == r
      requires r.Publishing? && r.i < r.size && r.i in r.plan && r.written && Path(r.dir, r.plan[r.i].name) in files
      modifies this`rest
      ensures ChainTo(states', events', s, View())
      ensures r' == r.(plan := r.plan[r.i := Owner(name, r.plan[r.i].inode)], written := false)
      ensures View() == Placed(old(View()), j, r', files, manifests)
    {
      hide ChainTo, Next;
      ghost var mid := View();
      r' := r.(plan := r.plan[r.i := Owner(name, r.plan[r.i].inode)], written := false);
      rest := rest.(runs := rest.runs[j := r']);
      ExportIsNext(mid, j, Collide(name), View());
      ChainOne(states, events, s, mid, Event.Export(j, Collide(name)), View());
      states', events' := states + [View()], events + [Event.Export(j, Collide(name))];
    }

    /** One attempt: the manifest, then the rename. */
    method Attempt(j: JobId, r: Run, ghost states: seq<St>, ghost events: seq<Event>, ghost s: St)
      returns (done: bool, r': Run, ghost states': seq<St>, ghost events': seq<Event>)
      requires ChainTo(states, events, s, View()) && At(View(), j) && rest.runs[j] == r
      requires r.Publishing? && r.i < r.size && r.i in r.plan && !r.written
      modifies this`files, this`manifests, this`rest
      ensures ChainTo(states', events', s, View())
      ensures done <==> Path(r.dir, r.plan[r.i].name) !in old(files)
      ensures r' == if done then r.(published := r.published + {r.plan[r.i]}, i := r.i + 1) else r.(written := true)
      ensures files == if done then old(files)[Path(r.dir, r.plan[r.i].name) := r.plan[r.i].inode] else old(files)
      ensures View() == Placed(old(View()), j, r', files, manifests) && Drop(manifests, j) == Drop(old(manifests), j)
    {
      hide ChainTo, Next;
      states', events', r' := states, events, r;
      r', states', events' := Announce(j, r', states', events', s);
      done, r', states', events' := Rename(j, r', states', events', s);
      assert old(rest.runs)[j := r.(written := true)][j := r'] == old(rest.runs)[j := r'];
    }

    /** One attempt, and the next candidate if the name was taken and more attempts are left. */
    method TryOnce(j: JobId, r: Run, next: Name, last: bool, ghost states: seq<St>, ghost events: seq<Event>, ghost s: St)
      returns (done: bool, r': Run, ghost states': seq<St>, ghost events': seq<Event>)
      requires ChainTo(states, events, s, View()) && At(View(), j) && rest.runs[j] == r
      requires r.Publishing? && r.i < r.size && r.i in r.plan && !r.written
      modifies this`files, this`manifests, this`rest
      ensures ChainTo(states', events', s, View())
      ensures done <==> Path(r.dir, r.plan[r.i].name) !in old(files)
      ensures r' == if done then r.(published := r.published + {r.plan[r.i]}, i := r.i + 1)
                    else if last then r.(written := true)
                    else r.(plan := r.plan[r.i := Owner(next, r.plan[r.i].inode)])
      ensures files == if done then old(files)[Path(r.dir, r.plan[r.i].name) := r.plan[r.i].inode] else old(files)
      ensures View() == Placed(old(View()), j, r', files, manifests) && Drop(manifests, j) == Drop(old(manifests), j)
      ensures At(View(), j) && rest.runs[j] == r'
    {
      hide ChainTo, Next, Placed, Drop;
      done, r', states', events' := Attempt(j, r, states, events, s);
      PlacedRun(old(View()), j, r', files, manifests);
      if !done && !last {
        ghost var before, listed := r', manifests;
        r', states', events' := ChooseAnother(j, r', next, states', events', s);
        PlacedTwice(old(View()), j, before, files, listed, r', files, manifests);
        PlacedRun(old(View()), j, r', files, manifests);
      }
    }

    /** Up to a hundred attempts to publish output i under a free name; the manifest is rewritten before each. */
    method PublishOutput(j: JobId, r: Run, spare: nat -> Name, ghost states: seq<St>, ghost events: seq<Event>, ghost s: St)
      returns (done: bool, r': Run, ghost states': seq<St>, ghost events': seq<Event>)
      requires ChainTo(states, events, s, View()) && At(View(), j) && rest.runs[j] == r
      requires r.Publishing? && r.i < r.size && r.i in r.plan && !r.written
      modifies this`files, this`manifests, this`rest
      ensures ChainTo(states', events', s, View())
      ensures SameExport(r, r') && View() == Placed(old(View()), j, r', files, manifests) && Drop(manifests, j) == Drop(old(manifests), j)
      ensures if done then
                var o := r'.plan[r.i];
                && Path(r.dir, o.name) !in old(files) && files == old(files)[Path(r.dir, o.name) := o.inode]
                && r'.published == r.published + {o} && r'.i == r.i + 1 && !r'.written
              else files == old(files) && r'.published == r.published && r'.i == r.i
      ensures done ==> FirstFree(NamesIn(old(files), r.dir), r.plan[r.i].name, spare, r'.plan[r.i].name)
      ensures !done ==> NoneFree(NamesIn(old(files), r.dir), r.plan[r.i].name, spare)
    {
      hide ChainTo, Next, Placed, Drop, NamesIn, FirstFree, NoneFree, Candidate, Tried;
      states', events', r', done := states, events, r, false;
      ghost var taken, first := NamesIn(files, r.dir), r.plan[r.i].name;
      PlacedHere(View(), j, r);
      NothingTried(taken, first, spare);
      for attempt := 0 to ATTEMPTS
        invariant ChainTo(states', events', s, View()) && !done
        invariant SameExport(r, r') && !r'.written && r'.published == r.published && r'.i == r.i
        invariant r'.plan[r.i].name == Candidate(first, spare, attempt) && Tried(taken, first, spare, attempt)
        invariant At(View(), j) && rest.runs[j] == r'
        invariant files == old(files) && View() == Placed(old(View()), j, r', files, manifests) && Drop(manifests, j) == Drop(old(manifests), j)
      {
        ghost var before, listed := r', manifests;
        NameIn(files, r.dir, Candidate(first, spare, attempt));
        done, r', states', events' := TryOnce(j, r', spare(attempt), attempt == ATTEMPTS - 1, states', events', s);
        AttemptTold(taken, first, spare, attempt, done);
        PlacedTwice(old(View()), j, before, old(files), listed, r', files, manifests);
        if done || attempt == ATTEMPTS - 1 {
          return;
        }
      }
      AllTaken(taken, first, spare);
    }

    /** The deferred cleanup of a failed export.  In separate mode the outputs go before the manifest, in merge mode
        the manifest goes first; either way only the export's own files go. */
    method Rollback(j: JobId, r: Run, ghost states: seq<St>, ghost events: seq<Event>, ghost s: St)
      returns (ghost states': seq<St>, ghost events': seq<Event>)
      requires ChainTo(states, events, s, View()) && At(View(), j) && rest.runs[j] == r && r.Publishing?
      modifies this`files, this`manifests, this`rest
      ensures ChainTo(states', events', s, View())
      ensures files == FilesWithout(old(files), r.dir, r.published) && manifests == Drop(old(manifests), j)
      ensures View() == Placed(old(View()), j, Errored, files, manifests)
    {
      hide ChainTo, Next, Placed, FilesWithout;
      ghost var start, mid := View(), View();
      rest := rest.(runs := rest.runs[j := RollingBack(r.merge, r.dir, r.published, false)]);
      ExportIsNext(mid, j, Abort, View());
      ChainOne(states, events, s, mid, Event.Export(j, Abort), View());
      states', events' := states + [View()], events + [Event.Export(j, Abort)];
      assert View() == Placed(start, j, RollingBack(r.merge, r.dir, r.published, false), files, manifests) by { PlacedMeans(start, j, View()); }
      if r.merge {
        states', events' := DropManifest(j, r.merge, r.dir, r.published, start, states', events', s);
        states', events' := RemoveOutputs(j, r.merge, r.dir, r.published, true, start, states', events', s);
      } else {
        states', events' := RemoveOutputs(j, r.merge, r.dir, r.published, false, start, states', events', s);
        states', events' := DropManifest(j, r.merge, r.dir, {}, start, states', events', s);
      }
      PlacedRun(start, j, RollingBack(r.merge, r.dir, {}, true), files, manifests);
      mid := View();
      rest := rest.(runs := rest.runs[j := Errored]);
      ExportIsNext(mid, j, RollbackEnd, View());
      ChainOne(states', events', s, mid, Event.Export(j, RollbackEnd), View());
      states', events' := states' + [View()], events' + [Event.Export(j, RollbackEnd)];
      PlacedAgain(start, j, RollingBack(r.merge, r.dir, {}, true), Errored, files, manifests);
    }

    method DropManifest(j: JobId, merge: bool, dir: Dir, todo: set<Owner>, ghost start: St, ghost states: seq<St>, ghost events: seq<Event>, ghost s: St)
      returns (ghost states': seq<St>, ghost events': seq<Event>)
      requires ChainTo(states, events, s, View()) && At(start, j) && (merge || todo == {})
      requires View() == Placed(start, j, RollingBack(merge, dir, todo, false), files, manifests)
      modifies this`manifests, this`rest
      ensures ChainTo(states', events', s, View()) && manifests == Drop(old(manifests), j)
      ensures View() == Placed(start, j, RollingBack(merge, dir, todo, true), files, manifests)
    {
      hide ChainTo, Next, Placed;
      PlacedRun(start, j, RollingBack(merge, dir, todo, false), files, manifests);
      ghost var mid := View();
      manifests := manifests - {j};
      rest := rest.(runs := rest.runs[j := RollingBack(merge, dir, todo, true)]);
      ExportIsNext(mid, j, RollbackManifest, View());
      ChainOne(states, events, s, mid, Event.Export(j, RollbackManifest), View());
      states', events' := states + [View()], events + [Event.Export(j, RollbackManifest)];
      PlacedOver(start, j, RollingBack(merge, dir, todo, false), mid, RollingBack(merge, dir, todo, true), View());
    }

    method RemoveOutputs(j: JobId, merge: bool, dir: Dir, owners: set<Owner>, cleared: bool, ghost start: St, ghost states: seq<St>, ghost events: seq<Event>, ghost s: St)
      returns (ghost states': seq<St>, ghost events': seq<Event>)
      requires ChainTo(states, events, s, View()) && At(start, j) && (merge ==> cleared)
      requires View() == Placed(start, j, RollingBack(merge, dir, owners, cleared), files, manifests)
      modifies this`files, this`rest
      ensures ChainTo(states', events', s, View()) && files == FilesWithout(old(files), dir, owners)
      ensures View() == Placed(start, j, RollingBack(merge, dir, {}, cleared), files, manifests)
    {
      hide ChainTo, Next, Placed, FilesWithout, RemoveOwned;
      states', events' := states, events;
      var todo := owners;
      WithoutNone(files, dir);
      assert owners - owners == {};
      while todo != {}
        invariant todo <= owners && ChainTo(states', events', s, View())
        invariant files == FilesWithout(old(files), dir, owners - todo)
        invariant View() == Placed(start, j, RollingBack(merge, dir, todo, cleared), files, manifests)
        decreases |todo|
      {
        var o :| o in todo;
        PlacedRun(start, j, RollingBack(merge, dir, todo, cleared), files, manifests);
        ghost var mid := View();
        WithoutOwner(old(files), dir, owners - todo, o);
        assert owners - (todo - {o}) == owners - todo + {o};
        RemoveOne(dir, o);
        rest := rest.(runs := rest.runs[j := RollingBack(merge, dir, todo - {o}, cleared)]);
        ExportIsNext(mid, j, RollbackOutput(o), View());
        ChainOne(states', events', s, mid, Event.Export(j, RollbackOutput(o)), View());
        states', events' := states' + [View()], events' + [Event.Export(j, RollbackOutput(o))];
        PlacedOver(start, j, RollingBack(merge, dir, todo, cleared), mid, RollingBack(merge, dir, todo - {o}, cleared), View());
        todo := todo - {o};
      }
      assert owners - {} == owners;
    }

    /** An output that cannot be produced or published is passed over. */
    method PassOver(j: JobId, r: Run, ghost start: St, ghost states: seq<St>, ghost events: seq<Event>, ghost s: St)
      returns (r': Run, ghost states': seq<St>, ghost events': seq<Event>)
      requires ChainTo(states, events, s, View()) && At(start, j) && r.Publishing? && r.i < r.size && !r.merge
      requires View() == Placed(start, j, r, files, manifests)
      modifies this`rest
      ensures ChainTo(states', events', s, View()) && r' == r.(i := r.i + 1, written := false)
      ensures View() == Placed(start, j, r', files, manifests)
    {
      hide ChainTo, Next, Placed;
      PlacedRun(start, j, r, files, manifests);
      ghost var mid := View();
      r' := r.(i := r.i + 1, written := false);
      rest := rest.(runs := rest.runs[j := r']);
      ExportIsNext(mid, j, Skip, View());
      ChainOne(states, events, s, mid, Event.Export(j, Skip), View());
      states', events' := states + [View()], events + [Event.Export(j, Skip)];
      PlacedOver(start, j, r, mid, r', View());
    }

    /** The temporary outputs exist: each has an inode of its own. */
    method Prepare(j: JobId, merge: bool, dir: Dir, plan: map<nat, Owner>, size: nat)
      returns (r: Run, ghost start: St, ghost states: seq<St>, ghost events: seq<Event>)
      requires At(View(), j) && rest.runs[j].Preparing?
      requires (forall k <- plan :: k < size && next <= plan[k].inode < next + size) && (merge ==> size == 1 && 0 in plan)
      modifies this`next, this`rest
      ensures r == Publishing(merge, dir, plan, size, {}, 0, false)
      ensures start == Begun(old(View()), j, size) && At(start, j)
      ensures ChainTo(states, events, old(View()), View()) && View() == Placed(start, j, r, files, manifests)
    {
      hide ChainTo, Next, Born, ExportNext, Placed, Begun;
      ghost var s := View();
      r := Publishing(merge, dir, plan, size, {}, 0, false);
      rest := rest.(birth := Born(rest.birth, next, size, j), runs := rest.runs[j := r]);
      next := next + size;
      start := Begun(s, j, size);
      BegunThenPlaced(s, j, r, View());
      assert BeginStep(s, j, merge, dir, plan, size, View());
      BeginIsNext(s, j, merge, dir, plan, size, View());
      ChainNone(s);
      ChainOne([s], [], s, s, Event.Export(j, Begin(merge, dir, plan, size)), View());
      states, events := [s] + [View()], [] + [Event.Export(j, Begin(merge, dir, plan, size))];
    }

    /** The final manifest lists what was really published. */
    method Complete(j: JobId, r: Run, ghost start: St, ghost states: seq<St>, ghost events: seq<Event>, ghost s: St)
      returns (ghost states': seq<St>, ghost events': seq<Event>)
      requires ChainTo(states, events, s, View()) && At(start, j) && r.Publishing? && r.i >= r.size && r.published != {}
      requires View() == Placed(start, j, r, files, manifests)
      modifies this`manifests, this`rest
      ensures ChainTo(states', events', s, View()) && manifests == old(manifests)[j := Manifest(r.dir, r.published, false)]
      ensures View() == Placed(start, j, Produced(r.dir, r.published), files, manifests)
    {
      hide ChainTo, Next, Placed;
      PlacedRun(start, j, r, files, manifests);
      ghost var mid := View();
      manifests := manifests[j := Manifest(r.dir, r.published, false)];
      rest := rest.(runs := rest.runs[j := Produced(r.dir, r.published)]);
      ExportIsNext(mid, j, Finish, View());
      ChainOne(states, events, s, mid, Event.Export(j, Finish), View());
      states', events' := states + [View()], events + [Event.Export(j, Finish)];
      PlacedOver(start, j, r, mid, Produced(r.dir, r.published), View());
    }

    /** The end of an export in either mode: the final manifest, or the deferred cleanup. */
    method Conclude(j: JobId, r: Run, ok: bool, ghost before: map<Path, Inode>, ghost listed: map<JobId, Manifest>,
                    ghost start: St, ghost states: seq<St>, ghost events: seq<Event>, ghost s: St)
      returns (ghost states': seq<St>, ghost events': seq<Event>)
      requires ChainTo(states, events, s, View()) && At(start, j) && r.Publishing? && View() == Placed(start, j, r, files, manifests)
      requires Added(before, files, r.dir, r.published) && Drop(manifests, j) == Drop(listed, j)
      requires ok ==> r.i >= r.size && r.published != {}
      modifies this`files, this`manifests, this`rest
      ensures ChainTo(states', events', s, View())
      ensures View() == Placed(start, j, if ok then Produced(r.dir, r.published) else Errored, files, manifests)
      ensures ok ==> manifests == listed[j := Manifest(r.dir, r.published, false)] && files == old(files)
      ensures !ok ==> manifests == Drop(listed, j) && files == before
    {
      hide ChainTo, Next, Placed, Added, Drop;
      if ok {
        DropThen(manifests, listed, j, Manifest(r.dir, r.published, false));
        states', events' := Complete(j, r, start, states, events, s);
      } else {
        ghost var placed, known := files, manifests;
        PlacedRun(start, j, r, files, manifests);
        WithoutAdded(before, files, r.dir, r.published);
        states', events' := Rollback(j, r, states, events, s);
        PlacedTwice(start, j, r, placed, known, Errored, files, manifests);
      }
    }

    /** One output of a separate export: published, or passed over. */
    method HandleOutput(j: JobId, r: Run, spare: nat -> Name, ghost start: St, ghost states: seq<St>, ghost events: seq<Event>, ghost s: St)
      returns (r': Run, ghost states': seq<St>, ghost events': seq<Event>)
      requires ChainTo(states, events, s, View()) && At(start, j) && r.Publishing? && r.i < r.size && !r.merge && !r.written
      requires View() == Placed(start, j, r, files, manifests)
      modifies this`files, this`manifests, this`rest
      ensures ChainTo(states', events', s, View()) && View() == Placed(start, j, r', files, manifests)
      ensures r'.Publishing? && !r'.merge && r'.dir == r.dir && r'.size == r.size && r'.i == r.i + 1 && !r'.written && r'.plan.Keys == r.plan.Keys
      ensures Drop(manifests, j) == Drop(old(manifests), j)
      ensures forall k <- r.plan :: k != r.i ==> r'.plan[k] == r.plan[k]
      ensures Turned(old(files), files, r.dir, if r.i in r.plan then Some(r.plan[r.i]) else None, spare, r.published, r'.published)
    {
      hide ChainTo, Next, Placed, Drop, FirstFree, NoneFree, NamesIn;
      r', states', events' := r, states, events;
      if r.i in r.plan {
        ghost var placed, listed := files, manifests;
        PlacedRun(start, j, r, files, manifests);
        var done;
        done, r', states', events' := PublishOutput(j, r, spare, states, events, s);
        PlacedTwice(start, j, r, placed, listed, r', files, manifests);
        if done {
          assert r'.plan[r.i] == Owner(r'.plan[r.i].name, r.plan[r.i].inode);
          assert OneMore(old(files), files, r.dir, r.published, r'.published, Owner(r'.plan[r.i].name, r.plan[r.i].inode));
          return;
        }
      }
      r', states', events' := PassOver(j, r', start, states', events', s);
    }

    /** The loop over the outputs of a separate export, until a hard error strikes.  given are the names they got. */
    method HandleAll(j: JobId, r: Run, dir: Dir, names: seq<Name>, good: seq<bool>, fatal: nat -> bool, spare: nat -> (nat -> Name), ghost base: Inode,
                     ghost start: St, ghost states: seq<St>, ghost events: seq<Event>, ghost s: St)
      returns (struck: bool, r': Run, ghost given: map<nat, Name>, ghost states': seq<St>, ghost events': seq<Event>)
      requires ChainTo(states, events, s, View()) && At(start, j) && View() == Placed(start, j, r, files, manifests)
      requires |good| == |names| && r == Publishing(false, dir, PlannedOutputs(names, good, base), |names|, {}, 0, false)
      modifies this`files, this`manifests, this`rest
      ensures ChainTo(states', events', s, View()) && View() == Placed(start, j, r', files, manifests)
      ensures r'.Publishing? && !r'.merge && r'.dir == dir && r'.size == |names| && (!struck ==> r'.i == |names|)
      ensures Added(old(files), files, dir, r'.published) && Drop(manifests, j) == Drop(old(manifests), j)
      ensures struck <==> exists k: nat :: k < |names| && fatal(k)
      ensures r'.published == OwnersOf(given, base)
      ensures !struck ==> PlacedInTurn(NamesIn(old(files), dir), names, good, spare, given, |names|)
    {
      hide ChainTo, Next, Placed, Added, Drop, PlacedInTurn, OwnersOf, NamesIn, NamesBefore, AtTurn, Turned, PlannedOutputs, OneMore;
      struck, r', given, states', events' := false, r, map[], states, events;
      ghost var taken := NamesIn(files, dir);
      AddedNone(files, dir);
      NothingPlaced(taken, names, good, spare, base);
      FirstTurn(r, dir, names, good, base);
      for i := 0 to |names|
        invariant r'.Publishing? && AtTurn(r', dir, names, good, base, i)
        invariant ChainTo(states', events', s, View()) && View() == Placed(start, j, r', files, manifests)
        invariant Added(old(files), files, dir, r'.published) && Drop(manifests, j) == Drop(old(manifests), j)
        invariant PlacedInTurn(taken, names, good, spare, given, i) && r'.published == OwnersOf(given, base)
        invariant !struck && forall k: nat :: k < i ==> !fatal(k)
      {
        TurnPlan(r', dir, names, good, base, i);
        if fatal(i) {
          struck := true;
          return;
        }
        ghost var before, prior, mine := files, r'.published, r';
        TurnNames(old(files), files, dir, given, base, names, good, spare, i);
        r', states', events' := HandleOutput(j, r', spare(i), start, states', events', s);
        NextTurn(mine, r', dir, names, good, base, i);
        given := TurnTaken(before, files, dir, taken, names, good, spare, given, base, i, prior, r'.published);
        AddedOutput(old(files), before, files, dir, prior, r'.published);
      }
      TurnPlan(r', dir, names, good, base, |names|);
    }

    /** Separate mode.  good says which outputs were generated and validated, fatal where a hard error strikes.  The
        export adds exactly its published outputs to the directory, or leaves every file as it was. */
    method ExportSeparate(j: JobId, dir: Dir, names: seq<Name>, good: seq<bool>, fatal: nat -> bool, spare: nat -> (nat -> Name))
      returns (ok: bool, published: set<Owner>, ghost start: St, ghost states: seq<St>, ghost events: seq<Event>)
      requires At(View(), j) && rest.runs[j].Preparing? && |good| == |names|
      modifies this`files, this`manifests, this`next, this`rest
      ensures ChainTo(states, events, old(View()), View()) && start == Begun(old(View()), j, |names|) && At(start, j)
      ensures View() == Placed(start, j, if ok then Produced(dir, published) else Errored, files, manifests)
      ensures ok ==> published != {} && manifests == old(manifests)[j := Manifest(dir, published, false)] && Added(old(files), files, dir, published)
      ensures !ok ==> manifests == Drop(old(manifests), j) && files == old(files)
      ensures RightOutputs(Separate(names, good, fatal, spare), NamesIn(old(files), dir), old(next), ok, published)
    {
      hide ChainTo, Next, Placed, Begun, Added, Drop, RightOutputs, PlacedInTurn, OwnersOf, NamesIn;
      ghost var s := View();
      ghost var base, taken := next, NamesIn(files, dir);
      var r, struck;
      ghost var given;
      r, start, states, events := Prepare(j, false, dir, PlannedOutputs(names, good, next), |names|);
      struck, r, given, states, events := HandleAll(j, r, dir, names, good, fatal, spare, base, start, states, events, s);
      published := r.published;
      if !struck { SomePlaced(taken, names, good, spare, given, base); }
      ok := !struck && published != {} && !fatal(|names|);
      RightSeparate(taken, names, good, fatal, spare, given, base, ok, published);
      states, events := Conclude(j, r, ok, old(files), old(manifests), start, states, events, s);
    }

    /** Merge mode: one output; generated says whether it was made and validated, intact whether it still is our file right
        after the rename. */
    method ExportMerge(j: JobId, dir: Dir, name: Name, generated: bool, intact: bool, spare: nat -> Name)
      returns (ok: bool, published: set<Owner>, ghost start: St, ghost states: seq<St>, ghost events: seq<Event>)
      requires At(View(), j) && rest.runs[j].Preparing?
      modifies this`files, this`manifests, this`next, this`rest
      ensures ChainTo(states, events, old(View()), View()) && start == Begun(old(View()), j, 1) && At(start, j)
      ensures View() == Placed(start, j, if ok then Produced(dir, published) else Errored, files, manifests)
      ensures ok ==> published != {} && manifests == old(manifests)[j := Manifest(dir, published, false)] && Added(old(files), files, dir, published)
      ensures !ok ==> manifests == Drop(old(manifests), j) && files == old(files)
      ensures RightOutputs(Merged(name, generated, intact, spare), NamesIn(old(files), dir), old(next), ok, published)
    {
      hide ChainTo, Next, Placed, Begun, Added, Drop, RightOutputs, NamesIn, FirstFree, NoneFree;
      ghost var s := View();
      ghost var base, taken := next, NamesIn(files, dir);
      var r;
      r, start, states, events := Prepare(j, true, dir, map[0 := Owner(name, next)], 1);
      ghost var placed, listed, prior := files, manifests, r;
      PlacedRun(start, j, r, files, manifests);
      AddedNone(files, dir);
      var done := false;
      if generated {
        done, r, states, events := PublishOutput(j, r, spare, states, events, s);
        PlacedTwice(start, j, prior, placed, listed, r, files, manifests);
      }
      if done { AddedStep(placed, placed, files, dir, {}, r.plan[0]); }
      published := r.published;
      ok := done && intact;
      if done { assert published == {Owner(r.plan[0].name, base)}; }
      RightMerged(taken, name, generated, intact, spare, base, done, if done then r.plan[0].name else name, ok, published);
      states, events := Conclude(j, r, ok, old(files), old(manifests), start, states, events, s);
    }

    /** The last step of RemoveArtifacts. */
    method RemoveLast(j: JobId, dir: Dir, owners: set<Owner>, ghost start: St, ghost states: seq<St>, ghost events: seq<Event>, ghost s: St)
      returns (ghost states': seq<St>, ghost events': seq<Event>)
      requires ChainTo(states, events, s, View()) && At(start, j) && View() == Placed(start, j, Removing(dir, owners, {}), files, manifests)
      modifies this`manifests, this`rest
      ensures ChainTo(states', events', s, View()) && manifests == Drop(old(manifests), j)
      ensures View() == Placed(start, j, Returned(dir, owners), files, manifests)
    {
      hide ChainTo, Next, Placed, AfterNext;
      PlacedRun(start, j, Removing(dir, owners, {}), files, manifests);
      ghost var mid := View();
      manifests := manifests - {j};
      rest := rest.(runs := rest.runs[j := Returned(dir, owners)]);
      RemoveManifestIsNext(mid, j, View());
      ChainOne(states, events, s, mid, After(j, RemoveManifest), View());
      states', events' := states + [View()], events + [After(j, RemoveManifest)];
      PlacedOver(start, j, Removing(dir, owners, {}), mid, Returned(dir, owners), View());
    }

    /** RemoveArtifacts after a lost swap: outputs, then manifest. */
    method RemoveArtifacts(j: JobId, dir: Dir, owners: set<Owner>, ghost states: seq<St>, ghost events: seq<Event>, ghost s: St)
      returns (ghost states': seq<St>, ghost events': seq<Event>)
      requires ChainTo(states, events, s, View()) && At(View(), j) && rest.runs[j] == Removing(dir, owners, owners)
      modifies this`files, this`manifests, this`rest
      ensures ChainTo(states', events', s, View()) && files == FilesWithout(old(files), dir, owners) && manifests == Drop(old(manifests), j)
      ensures View() == Placed(old(View()), j, Returned(dir, owners), files, manifests)
    {
      hide ChainTo, Next, Placed, FilesWithout, RemoveOwned, Drop;
      states', events' := states, events;
      ghost var start := View();
      PlacedHere(start, j, Removing(dir, owners, owners));
      var todo := owners;
      WithoutNone(files, dir);
      assert owners - owners == {};
      while todo != {}
        invariant todo <= owners && ChainTo(states', events', s, View())
        invariant files == FilesWithout(old(files), dir, owners - todo)
        invariant View() == Placed(start, j, Removing(dir, owners, todo), files, manifests) && manifests == old(manifests)
        decreases |todo|
      {
        var o :| o in todo;
        PlacedRun(start, j, Removing(dir, owners, todo), files, manifests);
        ghost var mid := View();
        WithoutOwner(old(files), dir, owners - todo, o);
        assert owners - (todo - {o}) == owners - todo + {o};
        RemoveOne(dir, o);
        rest := rest.(runs := rest.runs[j := Removing(dir, owners, todo - {o})]);
        RemoveOutputIsNext(mid, j, o, View());
        ChainOne(states', events', s, mid, After(j, RemoveOutput(o)), View());
        states', events' := states' + [View()], events' + [After(j, RemoveOutput(o))];
        PlacedOver(start, j, Removing(dir, owners, todo), mid, Removing(dir, owners, todo - {o}), View());
        todo := todo - {o};
      }
      assert owners - {} == owners;
      states', events' := RemoveLast(j, dir, owners, start, states', events', s);
    }

    /** The exporter, in the mode of the request. */
    method ExportAll(j: JobId, dir: Dir, request: Request)
      returns (ok: bool, published: set<Owner>, ghost start: St, ghost states: seq<St>, ghost events: seq<Event>)
      requires At(View(), j) && rest.runs[j].Preparing? && WellSized(request)
      modifies this`files, this`manifests, this`next, this`rest
      ensures ChainTo(states, events, old(View()), View()) && start == Begun(old(View()), j, Outputs(request)) && At(start, j)
      ensures View() == Placed(start, j, if ok then Produced(dir, published) else Errored, files, manifests)
      ensures ok ==> published != {} && manifests == old(manifests)[j := Manifest(dir, published, false)] && Added(old(files), files, dir, published)
      ensures !ok ==> manifests == Drop(old(manifests), j) && files == old(files)
      ensures RightOutputs(request, NamesIn(old(files), dir), old(next), ok, published)
    {
      hide ChainTo, Next, Placed, Begun, Added, Drop, RightOutputs;
      match request {
        case Separate(names, good, fatal, spare) => ok, published, start, states, events := ExportSeparate(j, dir, names, good, fatal, spare);
        case Merged(name, generated, intact, spare) => ok, published, start, states, events := ExportMerge(j, dir, name, generated, intact, spare);
      }
    }

    /** RunQueuedSnapshot after the export, in either mode: the swap on the row decides, once and in one direction.  The
        row turns succeeded, with the published names as its result, exactly when the export succeeded, the swap
        committed and the row was still running.  Outputs and manifest are taken back exactly when the swap was lost to a
        cancellation that the read-back showed; whenever else the export succeeded they stay, the store failing or not. */
    method RunQueuedSnapshot(j: JobId, dir: Dir, request: Request, fault: Fault, readable: bool)
      returns (ok: bool, published: set<Owner>, ghost states: seq<St>, ghost events: seq<Event>)
      requires At(View(), j) && rest.runs[j].Preparing? && WellSized(request) && j in rows && (rows[j] == Running || rows[j] == State.Cancelled)
      modifies this
      ensures ChainTo(states, events, old(View()), View())
      ensures var won := ok && fault != BeforeCommit && old(rows)[j] == Running;
        && rows == (if won then old(rows)[j := Succeeded] else old(rows))
        && results == (if won then old(results)[j := Names(published)] else old(results))
      ensures var lost := ok && fault == NoFault && old(rows)[j] == State.Cancelled && readable;
        if ok && !lost then Added(old(files), files, dir, published) && manifests == old(manifests)[j := Manifest(dir, published, false)]
        else files == old(files) && manifests == Drop(old(manifests), j)
      ensures ok ==> published != {} && j in rest.runs && rest.runs[j] == Returned(dir, published)
      ensures RightOutputs(request, NamesIn(old(files), dir), old(next), ok, published)
      ensures rest.faulted == if ok && (fault != NoFault || (old(rows)[j] == State.Cancelled && !readable)) then old(rest.faulted) + {j} else old(rest.faulted)
    {
      hide ChainTo, Next, Placed, Begun, Added, Drop, FilesWithout, Names, RightOutputs;
      ghost var s, start := View(), View();
      ok, published, start, states, events := ExportAll(j, dir, request);
      BegunRows(s, j, Outputs(request));
      PlacedRows(start, j, if ok then Produced(dir, published) else Errored, files, manifests);
      if !ok {
        return;
      }
      ghost var mid := View();
      var hit := fault != BeforeCommit && rows[j] == Running;
      var lost := fault == NoFault && rows[j] == State.Cancelled;
      if hit {
        rows, results := rows[j := Succeeded], results[j := Names(published)];
      }
      if lost && !readable {
        rest := rest.(faulted := rest.faulted + {j}, runs := rest.runs[j := Returned(dir, published)]);
        AfterIsNext(mid, j, Unreadable, View());
        ChainOne(states, events, s, mid, After(j, Unreadable), View());
        states, events := states + [View()], events + [After(j, Unreadable)];
        return;
      }
      rest := rest.(faulted := if fault != NoFault then rest.faulted + {j} else rest.faulted,
                    runs := rest.runs[j := if lost then Removing(dir, published, published) else Returned(dir, published)]);
      AfterIsNext(mid, j, Commit(fault), View());
      ChainOne(states, events, s, mid, After(j, Commit(fault)), View());
      states, events := states + [View()], events + [After(j, Commit(fault))];
      if lost {
        WithoutAdded(old(files), files, dir, published);
        DropUpdated(old(manifests), j, Manifest(dir, published, false));
        ghost var before := View();
        states, events := RemoveArtifacts(j, dir, published, states, events, s);
        PlacedRows(before, j, Returned(dir, published), files, manifests);
      }
    }
  }

  lemma DropThen(a: map<JobId, Manifest>, b: map<JobId, Manifest>, j: JobId, m: Manifest)
    requires Drop(a, j) == Drop(b, j)
    ensures a[j := m] == b[j := m]
  {
    forall k | k != j ensures (k in a <==> k in b) && (k in a ==> a[k] == b[k]) {
      assert k in Drop(a, j) <==> k in Drop(b, j);
      assert k in a ==> Drop(a, j)[k] == a[k];
    }
  }

  /** The first n candidates are taken. */
  ghost predicate Tried(taken: set<Name>, first: Name, spare: nat -> Name, n: nat) {
    forall b: nat :: b < n ==> Candidate(first, spare, b) in taken
  }

  lemma NothingTried(taken: set<Name>, first: Name, spare: nat -> Name)
    ensures Tried(taken, first, spare, 0) && Candidate(first, spare, 0) == first
  {}

  lemma AttemptTold(taken: set<Name>, first: Name, spare: nat -> Name, attempt: nat, done: bool)
    requires attempt < ATTEMPTS && Tried(taken, first, spare, attempt)
    requires done <==> Candidate(first, spare, attempt) !in taken
    ensures done ==> FirstFree(taken, first, spare, Candidate(first, spare, attempt))
    ensures !done ==> Tried(taken, first, spare, attempt + 1) && spare(attempt) == Candidate(first, spare, attempt + 1)
    ensures !done && attempt == ATTEMPTS - 1 ==> NoneFree(taken, first, spare)
  {
    if done {
      assert IsFirstFree(taken, first, spare, Candidate(first, spare, attempt), attempt);
    }
  }

  lemma AllTaken(taken: set<Name>, first: Name, spare: nat -> Name)
    requires Tried(taken, first, spare, ATTEMPTS)
    ensures NoneFree(taken, first, spare)
  {}

  lemma NothingPlaced(taken: set<Name>, names: seq<Name>, good: seq<bool>, spare: nat -> (nat -> Name), base: Inode)
    requires |names| == |good|
    ensures PlacedInTurn(taken, names, good, spare, map[], 0) && OwnersOf(map[], base) == {}
  {}

  /** When output i has its turn, the names in use are those of the start and those given so far. */
  lemma TurnNames(before: map<Path, Inode>, files: map<Path, Inode>, dir: Dir, placed: map<nat, Name>, base: Inode,
                  names: seq<Name>, good: seq<bool>, spare: nat -> (nat -> Name), i: nat)
    requires i <= |names| == |good| && PlacedInTurn(NamesIn(before, dir), names, good, spare, placed, i)
    requires Added(before, files, dir, OwnersOf(placed, base))
    ensures NamesIn(files, dir) == NamesIn(before, dir) + NamesBefore(placed, i)
  {
    hide NamesIn, FirstFree, NoneFree;
    forall n ensures n in NamesIn(files, dir) <==> n in NamesIn(before, dir) + NamesBefore(placed, i) {
      NameIn(files, dir, n);
      NameIn(before, dir, n);
      if n in NamesBefore(placed, i) {
        var h :| h in placed && h < i && placed[h] == n;
        assert Owner(placed[h], base + h) in OwnersOf(placed, base);
      }
      if n in NamesIn(files, dir) && n !in NamesIn(before, dir) {
        assert Owner(n, files[Path(dir, n)]) in OwnersOf(placed, base);
      }
    }
  }

  /** One output was handled: an unplanned one changes nothing, a planned one appears under its first free candidate, or not
      at all when none is free. */
  ghost predicate Turned(before: map<Path, Inode>, after: map<Path, Inode>, dir: Dir, planned: Option<Owner>, spare: nat -> Name,
                         prior: set<Owner>, published: set<Owner>) {
    var same := published == prior && after == before;
    match planned
    case None => same
    case Some(o) =>
      || (same && NoneFree(NamesIn(before, dir), o.name, spare))
      || exists name :: FirstFree(NamesIn(before, dir), o.name, spare, name) && OneMore(before, after, dir, prior, published, Owner(name, o.inode))
  }

  /** The export stands before output i; the outputs from there on are as planned. */
  ghost predicate AtTurn(r: Run, dir: Dir, names: seq<Name>, good: seq<bool>, base: Inode, i: nat)
    requires |names| == |good|
  {
    && r.Publishing? && !r.merge && r.dir == dir && r.size == |names| && r.i == i && !r.written
    && r.plan.Keys == PlannedOutputs(names, good, base).Keys
    && forall k <- r.plan :: k >= i ==> r.plan[k] == PlannedOutputs(names, good, base)[k]
  }

  lemma FirstTurn(r: Run, dir: Dir, names: seq<Name>, good: seq<bool>, base: Inode)
    requires |names| == |good| && r == Publishing(false, dir, PlannedOutputs(names, good, base), |names|, {}, 0, false)
    ensures AtTurn(r, dir, names, good, base, 0)
  {}

  lemma TurnPlan(r: Run, dir: Dir, names: seq<Name>, good: seq<bool>, base: Inode, i: nat)
    requires |names| == |good| && AtTurn(r, dir, names, good, base, i) && i <= |names|
    ensures r.Publishing? && !r.merge && r.dir == dir && r.size == |names| && r.i == i && !r.written
    ensures i < |names| ==> (i in r.plan <==> good[i]) && (good[i] ==> r.plan[i] == Owner(names[i], base + i))
  {}

  lemma NextTurn(r: Run, r': Run, dir: Dir, names: seq<Name>, good: seq<bool>, base: Inode, i: nat)
    requires |names| == |good| && AtTurn(r, dir, names, good, base, i)
    requires r'.Publishing? && !r'.merge && r'.dir == r.dir && r'.size == r.size && r'.i == r.i + 1 && !r'.written && r'.plan.Keys == r.plan.Keys
    requires forall k <- r.plan :: k != r.i ==> r'.plan[k] == r.plan[k]
    ensures AtTurn(r', dir, names, good, base, i + 1)
  {}

  /** One turn more: what HandleOutput did continues the rule. */
  lemma TurnTaken(before: map<Path, Inode>, after: map<Path, Inode>, dir: Dir, taken: set<Name>, names: seq<Name>, good: seq<bool>, spare: nat -> (nat -> Name),
                  placed: map<nat, Name>, base: Inode, i: nat, prior: set<Owner>, published: set<Owner>)
    returns (placed': map<nat, Name>)
    requires i < |names| == |good| && PlacedInTurn(taken, names, good, spare, placed, i) && prior == OwnersOf(placed, base)
    requires NamesIn(before, dir) == taken + NamesBefore(placed, i)
    requires Turned(before, after, dir, if good[i] then Some(Owner(names[i], base + i)) else None, spare(i), prior, published)
    ensures PlacedInTurn(taken, names, good, spare, placed', i + 1) && published == OwnersOf(placed', base)
    ensures (published == prior && after == before) || exists o :: OneMore(before, after, dir, prior, published, o)
  {
    hide NamesIn, FirstFree, NoneFree, OneMore, OwnersOf, NamesBefore, PlacedInTurn;
    if name :| good[i] && FirstFree(NamesIn(before, dir), names[i], spare(i), name) && OneMore(before, after, dir, prior, published, Owner(name, base + i)) {
      placed' := placed[i := name];
      GivenInTurn(taken, names, good, spare, placed, i, name);
      OwnersGrow(placed, base, i, name);
      OneMoreOwner(before, after, dir, prior, published, Owner(name, base + i));
    } else {
      placed' := placed;
      PassedInTurn(taken, names, good, spare, placed, i);
    }
  }

  lemma OneMoreOwner(before: map<Path, Inode>, after: map<Path, Inode>, dir: Dir, prior: set<Owner>, published: set<Owner>, o: Owner)
    requires OneMore(before, after, dir, prior, published, o)
    ensures published == prior + {o}
  {}

  lemma GivenInTurn(taken: set<Name>, names: seq<Name>, good: seq<bool>, spare: nat -> (nat -> Name), placed: map<nat, Name>, i: nat, name: Name)
    requires i < |names| == |good| && PlacedInTurn(taken, names, good, spare, placed, i)
    requires good[i] && FirstFree(taken + NamesBefore(placed, i), names[i], spare(i), name)
    ensures i !in placed && PlacedInTurn(taken, names, good, spare, placed[i := name], i + 1)
  {
    hide FirstFree, NoneFree, NamesBefore;
    EarlierSame(placed, i, name);
  }

  lemma PassedInTurn(taken: set<Name>, names: seq<Name>, good: seq<bool>, spare: nat -> (nat -> Name), placed: map<nat, Name>, i: nat)
    requires i < |names| == |good| && PlacedInTurn(taken, names, good, spare, placed, i)
    requires good[i] ==> NoneFree(taken + NamesBefore(placed, i), names[i], spare(i))
    ensures PlacedInTurn(taken, names, good, spare, placed, i + 1)
  {
    hide FirstFree, NoneFree, NamesBefore;
  }

  lemma EarlierSame(placed: map<nat, Name>, i: nat, name: Name)
    requires forall k <- placed :: k < i
    ensures forall k: nat {:trigger NamesBefore(placed, k)} :: k <= i ==> NamesBefore(placed[i := name], k) == NamesBefore(placed, k)
  {
    forall k: nat | k <= i ensures NamesBefore(placed[i := name], k) == NamesBefore(placed, k) {
      var a, b := NamesBefore(placed[i := name], k), NamesBefore(placed, k);
      forall n ensures n in a <==> n in b {
        if n in b {
          var h :| h in placed && h < k && placed[h] == n;
          assert placed[i := name][h] == n;
        }
      }
    }
  }

  lemma OwnersGrow(placed: map<nat, Name>, base: Inode, i: nat, name: Name)
    requires i !in placed
    ensures OwnersOf(placed[i := name], base) == OwnersOf(placed, base) + {Owner(name, base + i)}
  {
    var more := placed[i := name];
    forall o | o in OwnersOf(placed, base) ensures o in OwnersOf(more, base) {
      var k :| k in placed && o == Owner(placed[k], base + k);
      assert k in more && more[k] == placed[k];
    }
    assert i in more && Owner(more[i], base + i) in OwnersOf(more, base);
  }

  /** Some output is published exactly when some good output has a candidate that the directory did not have. */
  lemma SomePlaced(taken: set<Name>, names: seq<Name>, good: seq<bool>, spare: nat -> (nat -> Name), placed: map<nat, Name>, base: Inode)
    requires |names| == |good| && PlacedInTurn(taken, names, good, spare, placed, |names|)
    ensures OwnersOf(placed, base) != {} <==>
      exists k: nat, c: nat :: k < |names| && good[k] && c < ATTEMPTS && Candidate(names[k], spare(k), c) !in taken
  {
    if k :| k in placed {
      assert Owner(placed[k], base + k) in OwnersOf(placed, base);
      assert FirstFree(taken + NamesBefore(placed, k), names[k], spare(k), placed[k]);
      var c: nat :| c < ATTEMPTS && IsFirstFree(taken + NamesBefore(placed, k), names[k], spare(k), placed[k], c);
      assert Candidate(names[k], spare(k), c) !in taken;
    } else {
      assert OwnersOf(placed, base) == {};
      forall k: nat, c: nat | k < |names| && good[k] && c < ATTEMPTS ensures Candidate(names[k], spare(k), c) in taken {
        assert NamesBefore(placed, k) == {};
        assert NoneFree(taken + NamesBefore(placed, k), names[k], spare(k));
      }
    }
  }

  lemma RightSeparate(taken: set<Name>, names: seq<Name>, good: seq<bool>, fatal: nat -> bool, spare: nat -> (nat -> Name), placed: map<nat, Name>,
                      base: Inode, ok: bool, published: set<Owner>)
    requires |names| == |good|
    requires ok ==> PlacedInTurn(taken, names, good, spare, placed, |names|) && published == OwnersOf(placed, base)
    requires ok <==> (forall i: nat :: i <= |names| ==> !fatal(i))
                     && exists k: nat, c: nat :: k < |names| && good[k] && c < ATTEMPTS && Candidate(names[k], spare(k), c) !in taken
    ensures RightOutputs(Separate(names, good, fatal, spare), taken, base, ok, published)
  {
    hide PlacedInTurn, OwnersOf;
  }

  lemma RightMerged(taken: set<Name>, name: Name, generated: bool, intact: bool, spare: nat -> Name, base: Inode, done: bool, given: Name, ok: bool, published: set<Owner>)
    requires ok <==> done && intact
    requires done ==> generated
    requires if done then FirstFree(taken, name, spare, given) && published == {Owner(given, base)} else generated ==> NoneFree(taken, name, spare)
    ensures RightOutputs(Merged(name, generated, intact, spare), taken, base, ok, published)
  {
    if done {
      var c: nat :| c < ATTEMPTS && IsFirstFree(taken, name, spare, given, c);
      assert Candidate(name, spare, c) !in taken;
    }
  }

  lemma AddedOutput(before: map<Path, Inode>, mid: map<Path, Inode>, after: map<Path, Inode>, dir: Dir, prior: set<Owner>, published: set<Owner>)
    requires Added(before, mid, dir, prior)
    requires (published == prior && after == mid) || exists o :: OneMore(mid, after, dir, prior, published, o)
    ensures Added(before, after, dir, published)
  {
    if o :| OneMore(mid, after, dir, prior, published, o) {
      AddedStep(before, mid, after, dir, prior, o);
    }
  }

  lemma BegunRows(s: St, j: JobId, size: nat)
    ensures var t := Begun(s, j, size); t.rows == s.rows && t.results == s.results && t.mode == s.mode && t.faulted == s.faulted
  {}

  lemma PlacedRows(s: St, j: JobId, r: Run, files: map<Path, Inode>, manifests: map<JobId, Manifest>)
    ensures var t := Placed(s, j, r, files, manifests);
      t.rows == s.rows && t.results == s.results && t.mode == s.mode && t.faulted == s.faulted && j in t.runs && t.runs[j] == r
  {}

  lemma DropUpdated(manifests: map<JobId, Manifest>, j: JobId, m: Manifest)
    ensures Drop(manifests[j := m], j) == Drop(manifests, j)
  {}

  ghost function Begun(s: St, j: JobId, size: nat): St {
    s.(next := s.next + size, birth := Born(s.birth, s.next, size, j))
  }

  /** The directory gained exactly the published outputs, each under a name that was free. */
  ghost predicate Added(before: map<Path, Inode>, after: map<Path, Inode>, dir: Dir, published: set<Owner>) {
    && (forall p <- before :: p in after && after[p] == before[p])
    && (forall p <- after :: p in before || (p.dir == dir && Owner(p.name, after[p]) in published))
    && (forall o <- published :: Path(dir, o.name) !in before && Path(dir, o.name) in after && after[Path(dir, o.name)] == o.inode)
  }

  ghost predicate OneMore(before: map<Path, Inode>, after: map<Path, Inode>, dir: Dir, prior: set<Owner>, published: set<Owner>, o: Owner) {
    published == prior + {o} && Path(dir, o.name) !in before && after == before[Path(dir, o.name) := o.inode]
  }

  lemma AddedNone(files: map<Path, Inode>, dir: Dir)
    ensures Added(files, files, dir, {})
  {}

  lemma AddedStep(before: map<Path, Inode>, mid: map<Path, Inode>, after: map<Path, Inode>, dir: Dir, published: set<Owner>, o: Owner)
    requires Added(before, mid, dir, published) && Path(dir, o.name) !in mid && after == mid[Path(dir, o.name) := o.inode]
    ensures Added(before, after, dir, published + {o})
  {}

  /** Taking the published outputs away again restores the directory. */
  lemma WithoutAdded(before: map<Path, Inode>, after: map<Path, Inode>, dir: Dir, published: set<Owner>)
    requires Added(before, after, dir, published)
    ensures FilesWithout(after, dir, published) == before
  {
    forall p ensures p in FilesWithout(after, dir, published) <==> p in before {
      assert p.dir == dir ==> Path(dir, p.name) == p;
    }
  }

  /** The files that are left when the recorded owners of one directory are gone. */
  function FilesWithout(files: map<Path, Inode>, dir: Dir, owners: set<Owner>): map<Path, Inode> {
    map p | p in files && !(p.dir == dir && Owner(p.name, files[p]) in owners) :: files[p]
  }

  lemma WithoutNone(files: map<Path, Inode>, dir: Dir)
    ensures FilesWithout(files, dir, {}) == files
  {}

  lemma WithoutOwner(files: map<Path, Inode>, dir: Dir, owners: set<Owner>, o: Owner)
    ensures RemoveOwned(FilesWithout(files, dir, owners), dir, o) == FilesWithout(files, dir, owners + {o})
  {
    var a, b := RemoveOwned(FilesWithout(files, dir, owners), dir, o), FilesWithout(files, dir, owners + {o});
    forall p ensures p in a <==> p in b {}
  }

  lemma PlacedMeans(s: St, j: JobId, s': St)
    requires j in s'.runs && s' == s.(files := s'.files, manifests := s'.manifests, runs := s.runs[j := s'.runs[j]])
    ensures s' == Placed(s, j, s'.runs[j], s'.files, s'.manifests)
  {}

  lemma PlacedRun(s: St, j: JobId, r: Run, files: map<Path, Inode>, manifests: map<JobId, Manifest>)
    requires At(s, j)
    ensures var t := Placed(s, j, r, files, manifests); At(t, j) && t.runs[j] == r && t.files == files && t.manifests == manifests && t.rows == s.rows
  {}

  lemma PlacedAgain(s: St, j: JobId, a: Run, r: Run, files: map<Path, Inode>, manifests: map<JobId, Manifest>)
    ensures Placed(s, j, r, files, manifests) == Placed(s, j, a, files, manifests).(runs := Placed(s, j, a, files, manifests).runs[j := r])
  {}

  lemma PlacedOver(s: St, j: JobId, a: Run, mid: St, r: Run, s': St)
    requires mid == Placed(s, j, a, mid.files, mid.manifests)
    requires s' == mid.(files := s'.files, manifests := s'.manifests, runs := mid.runs[j := r])
    ensures s' == Placed(s, j, r, s'.files, s'.manifests)
  {}

  /** s with another run of j, other files and other manifests. */
  ghost function Placed(s: St, j: JobId, r: Run, files: map<Path, Inode>, manifests: map<JobId, Manifest>): St {
    s.(files := files, manifests := manifests, runs := s.runs[j := r])
  }

  lemma PlacedHere(s: St, j: JobId, r: Run)
    requires j in s.runs && s.runs[j] == r
    ensures Placed(s, j, r, s.files, s.manifests) == s
  {}

  lemma PlacedTwice(s: St, j: JobId, a: Run, f: map<Path, Inode>, m: map<JobId, Manifest>, r: Run, files: map<Path, Inode>, manifests: map<JobId, Manifest>)
    ensures Placed(Placed(s, j, a, f, m), j, r, files, manifests) == Placed(s, j, r, files, manifests)
    ensures At(s, j) ==> At(Placed(s, j, r, files, manifests), j) && Placed(s, j, r, files, manifests).runs[j] == r
  {}

  /** The same export, further on: names may have been replaced, files not. */
  ghost predicate SameExport(r: Run, r': Run)
    requires r.Publishing?
  {
    && r'.Publishing? && r'.merge == r.merge && r'.dir == r.dir && r'.size == r.size && r'.plan.Keys == r.plan.Keys
    && forall k <- r.plan :: r'.plan[k].inode == r.plan[k].inode && (k != r.i ==> r'.plan[k] == r.plan[k])
  }

  /** registered: the process knows the manifest afterwards and will go by it. */
  datatype Action = Keep(registered: bool) | Complete | Remove

  /** What the walk learns from outside: which files the media validator accepts, which are not even regular non-empty
      files, whose retention has passed, and in which order a manifest lists its owners. */
  datatype Findings = Findings(accepts: set<Inode>, misshapen: set<Inode>, expired: set<JobId>, entries: map<JobId, seq<Owner>>)

  function Entries(f: Findings, j: JobId): seq<Owner> {
    if j in f.entries then f.entries[j] else []
  }

  /** The entries are those of the manifest. */
  ghost predicate Lists(f: Findings, j: JobId, m: Manifest) {
    forall o :: o in Entries(f, j) <==> o in m.owners
  }

  predicate Broken(files: map<Path, Inode>, dir: Dir, o: Owner, f: Findings) {
    !Visible(files, dir, o) || o.inode in f.misshapen
  }

  predicate InOrder(files: map<Path, Inode>, dir: Dir, o: Owner, f: Findings) {
    !Broken(files, dir, o, f) && o.inode in f.accepts
  }

  /** adoptManifestOutputs: the first entry that is not in order decides. */
  function Adoption(files: map<Path, Inode>, dir: Dir, entries: seq<Owner>, f: Findings): (r: Action)
    ensures !r.Complete?
  {
    if entries == [] then Keep(true)
    else if Broken(files, dir, entries[0], f) then Remove
    else if entries[0].inode !in f.accepts then Keep(false)
    else Adoption(files, dir, entries[1..], f)
  }

  /** What Reconcile does with one manifest. */
  function Decide(rows: map<JobId, State>, files: map<Path, Inode>, j: JobId, m: Manifest, f: Findings): Action {
    var intact := forall o <- m.owners :: Visible(files, m.dir, o) && o.inode in f.accepts;
    if m.archive then if j in f.expired || !intact then Remove else Keep(true)
    else if j !in rows || rows[j] == State.Cancelled then Remove
    else if rows[j] == Succeeded then if j in f.expired then Remove else Adoption(files, m.dir, Entries(f, j), f)
    else if rows[j] != Running then Keep(false)
    else if intact then Complete
    else Remove
  }

  /** Entry i is broken and all before it are in order. */
  ghost predicate BreaksAt(files: map<Path, Inode>, dir: Dir, entries: seq<Owner>, f: Findings, i: nat) {
    i < |entries| && Broken(files, dir, entries[i], f) && forall k :: 0 <= k < i ==> InOrder(files, dir, entries[k], f)
  }

  /** An adoption registers exactly when every entry is in order, and cleans up exactly when the first that is not is
      broken; behind an entry that merely cannot be inspected a broken one is not noticed. */
  lemma {:induction false} AdoptionMeans(files: map<Path, Inode>, dir: Dir, entries: seq<Owner>, f: Findings)
    ensures Adoption(files, dir, entries, f) == Keep(true) <==> forall i :: 0 <= i < |entries| ==> InOrder(files, dir, entries[i], f)
    ensures Adoption(files, dir, entries, f) == Remove <==> exists i :: BreaksAt(files, dir, entries, f, i)
  {
    if entries != [] {
      var rest := entries[1..];
      AdoptionMeans(files, dir, rest, f);
      assert Broken(files, dir, entries[0], f) ==> BreaksAt(files, dir, entries, f, 0);
      if i: nat :| BreaksAt(files, dir, entries, f, i) {
        if i > 0 {
          assert InOrder(files, dir, entries[0], f);
          assert BreaksAt(files, dir, rest, f, i - 1);
        }
      }
      if i: nat :| InOrder(files, dir, entries[0], f) && BreaksAt(files, dir, rest, f, i) {
        forall k | 0 <= k < i + 1 ensures InOrder(files, dir, entries[k], f) { assert k > 0 ==> entries[k] == rest[k - 1]; }
        assert BreaksAt(files, dir, entries, f, i + 1);
      }
    }
  }

  /** A missing output behind one that cannot be inspected: the manifest is kept as if both were there. */
  lemma AdoptionOverlooks() returns (files: map<Path, Inode>, dir: Dir, entries: seq<Owner>, f: Findings)
    ensures |entries| == 2 && !Visible(files, dir, entries[1]) && Adoption(files, dir, entries, f) == Keep(false)
  {
    var a, b := Owner("a.mkv", 0), Owner("b.mkv", 1);
    files, dir, entries, f := map[Path("d", "a.mkv") := 0], "d", [a, b], Findings({}, {}, {}, map[]);
    assert "a.mkv"[0] != "b.mkv"[0];
    assert !Broken(files, dir, a, f);
  }

  lemma DecideMeans(s: St, j: JobId, f: Findings)
    requires Visiting(s, j) && f.accepts == s.valid
    ensures match Decide(s.rows, s.files, j, s.manifests[j], f)
      case Keep(registered) => exists t :: LeaveStep(s, j, registered, t)
      case Complete => exists t :: AdoptStep(s, j, t)
      case Remove => exists t :: CleanStep(s, j, t)
  {
    hide Adoption;
    var action := Decide(s.rows, s.files, j, s.manifests[j], f);
    match action {
      case Keep(registered) =>
        assert LeaveStep(s, j, registered, s.(mode := Visited(s, j), unregistered := if registered then s.unregistered - {j} else s.unregistered));
      case Complete =>
        assert AdoptStep(s, j, s.(rows := s.rows[j := Succeeded], results := s.results[j := Names(s.manifests[j].owners)],
                                  adopted := s.adopted + {j}, mode := Visited(s, j), unregistered := s.unregistered - {j}));
      case Remove =>
        assert CleanStep(s, j, s.(mode := s.mode.(busy := Some(Cleaning(j, s.manifests[j].owners)))));
    }
  }

  // ------------------------------------------------------- what a restart makes of what it finds

  /** Every output that the manifest of k lists is in place and accepted by the validator. */
  ghost predicate AllThere(s: St, k: JobId, f: Findings)
    requires k in s.manifests
  {
    forall o <- s.manifests[k].owners :: Visible(s.files, s.manifests[k].dir, o) && o.inode in f.accepts
  }

  /** Entry i is the first of k that is not in place, regular and accepted. */
  ghost predicate FirstFlaw(s: St, k: JobId, f: Findings, i: nat)
    requires k in s.manifests
  {
    && i < |Entries(f, k)|
    && !(Visible(s.files, s.manifests[k].dir, Entries(f, k)[i]) && Entries(f, k)[i].inode !in f.misshapen && Entries(f, k)[i].inode in f.accepts)
    && forall h :: 0 <= h < i ==>
         Visible(s.files, s.manifests[k].dir, Entries(f, k)[h]) && Entries(f, k)[h].inode !in f.misshapen && Entries(f, k)[h].inode in f.accepts
  }

  /** The first flaw of k is that entry i is missing or misshapen, rather than impossible to inspect. */
  ghost predicate BrokenFirst(s: St, k: JobId, f: Findings, i: nat)
    requires k in s.manifests
  {
    FirstFlaw(s, k, f, i) && (!Visible(s.files, s.manifests[k].dir, Entries(f, k)[i]) || Entries(f, k)[i].inode in f.misshapen)
  }

  /** The job was interrupted after its last output had appeared. */
  ghost predicate ToComplete(s: St, k: JobId, f: Findings) {
    k in s.manifests && !s.manifests[k].archive && k in s.rows && s.rows[k] == Running && AllThere(s, k, f)
  }

  /** Manifest and outputs go: an expired or damaged archive; the outputs of a cancelled or unknown job; those of a job
      that was interrupted with outputs missing; those of a succeeded job that have expired, or whose first flaw is
      that one is missing or misshapen. */
  ghost predicate ToClear(s: St, k: JobId, f: Findings) {
    && k in s.manifests
    && if s.manifests[k].archive then k in f.expired || !AllThere(s, k, f)
       else if k !in s.rows then true
       else match s.rows[k]
         case Cancelled => true
         case Running => !AllThere(s, k, f)
         case Succeeded => k in f.expired || exists i: nat :: BrokenFirst(s, k, f, i)
         case _ => false
  }

  /** The process knows the artifacts from now on: whatever it completes, and unexpired archives and succeeded jobs
      without a flaw. */
  ghost predicate ToRegister(s: St, k: JobId, f: Findings) {
    && k in s.manifests
    && if s.manifests[k].archive then k !in f.expired && AllThere(s, k, f)
       else k in s.rows && match s.rows[k]
         case Running => AllThere(s, k, f)
         case Succeeded => k !in f.expired && forall i: nat :: !FirstFlaw(s, k, f, i)
         case _ => false
  }

  lemma NoFlaw(s: St, k: JobId, f: Findings)
    requires k in s.manifests
    ensures (forall i: nat :: !FirstFlaw(s, k, f, i)) <==>
      forall i :: 0 <= i < |Entries(f, k)| ==> InOrder(s.files, s.manifests[k].dir, Entries(f, k)[i], f)
  {
    if forall i: nat :: !FirstFlaw(s, k, f, i) {
      EarlierInOrder(s, k, f, |Entries(f, k)|);
    }
  }

  lemma {:induction false} EarlierInOrder(s: St, k: JobId, f: Findings, n: nat)
    requires k in s.manifests && n <= |Entries(f, k)| && forall i: nat :: !FirstFlaw(s, k, f, i)
    ensures forall i :: 0 <= i < n ==> InOrder(s.files, s.manifests[k].dir, Entries(f, k)[i], f)
  {
    if n > 0 {
      EarlierInOrder(s, k, f, n - 1);
      assert !FirstFlaw(s, k, f, n - 1);
    }
  }

  lemma BreakIsFlaw(s: St, k: JobId, f: Findings)
    requires k in s.manifests
    ensures (exists i: nat :: BreaksAt(s.files, s.manifests[k].dir, Entries(f, k), f, i)) <==> exists i: nat :: BrokenFirst(s, k, f, i)
  {
    forall i: nat ensures BreaksAt(s.files, s.manifests[k].dir, Entries(f, k), f, i) <==> BrokenFirst(s, k, f, i) {}
    hide BreaksAt, BrokenFirst;
    if i: nat :| BreaksAt(s.files, s.manifests[k].dir, Entries(f, k), f, i) { assert BrokenFirst(s, k, f, i); }
    if i: nat :| BrokenFirst(s, k, f, i) { assert BreaksAt(s.files, s.manifests[k].dir, Entries(f, k), f, i); }
  }

  /** The branch taken, in terms of what is there. */
  lemma DecideExactly(s: St, k: JobId, f: Findings)
    requires k in s.manifests
    ensures var action := Decide(s.rows, s.files, k, s.manifests[k], f);
      && (action.Remove? <==> ToClear(s, k, f))
      && (action.Complete? <==> ToComplete(s, k, f))
      && (action.Complete? || action == Keep(true) <==> ToRegister(s, k, f))
  {
    hide Adoption, BreaksAt, BrokenFirst, FirstFlaw, InOrder;
    AdoptionMeans(s.files, s.manifests[k].dir, Entries(f, k), f);
    NoFlaw(s, k, f);
    BreakIsFlaw(s, k, f);
  }

  /** Path p lies under a manifest of done that is to be cleared, as one of its recorded outputs. */
  ghost predicate Doomed(s: St, done: set<JobId>, f: Findings, p: Path) {
    exists k <- done :: ToClear(s, k, f) && p in Recorded(s.files, s.manifests[k])
  }

  ghost predicate RowsDone(s: St, s': St, done: set<JobId>, f: Findings) {
    && s'.rows.Keys == s.rows.Keys
    && forall k <- s.rows :: s'.rows[k] == if k in done && ToComplete(s, k, f) then Succeeded else s.rows[k]
  }

  ghost predicate ResultsDone(s: St, s': St, done: set<JobId>, f: Findings) {
    && (forall k :: k in s'.results <==> k in s.results || (k in done && ToComplete(s, k, f)))
    && (forall k <- s'.results :: s'.results[k] ==
          if k in done && ToComplete(s, k, f) then set o | o in s.manifests[k].owners :: o.name else s.results[k])
    && (forall k :: k in s'.adopted <==> k in done && ToComplete(s, k, f))
  }

  ghost predicate ManifestsDone(s: St, s': St, done: set<JobId>, f: Findings) {
    && (forall k :: k in s'.manifests <==> k in s.manifests && !(k in done && ToClear(s, k, f)))
    && (forall k <- s'.manifests :: s'.manifests[k] == s.manifests[k])
    && (forall k :: k in s'.unregistered <==> k in s.manifests && !(k in done && (ToClear(s, k, f) || ToRegister(s, k, f))))
  }

  ghost predicate FilesDone(s: St, s': St, done: set<JobId>, f: Findings) {
    && (forall p :: p in s'.files <==> p in s.files && !Doomed(s, done, f, p))
    && (forall p <- s'.files :: s'.files[p] == s.files[p])
  }

  /** s' is s after the manifests of done were handled; rows apart. */
  ghost predicate OutcomeButRows(s: St, s': St, done: set<JobId>, f: Findings) {
    ResultsDone(s, s', done, f) && ManifestsDone(s, s', done, f) && FilesDone(s, s', done, f)
  }

  ghost predicate Outcome(s: St, s': St, done: set<JobId>, f: Findings) {
    RowsDone(s, s', done, f) && OutcomeButRows(s, s', done, f)
  }

  lemma WithinManifests(s: St, configured: set<Dir>)
    ensures Within(s.manifests, configured) <= s.manifests.Keys
  {}

  lemma NothingDone(s: St, s': St, f: Findings)
    requires s'.rows == s.rows && s'.results == s.results && s'.files == s.files && s'.manifests == s.manifests
    requires s'.adopted == {} && s'.unregistered == s.manifests.Keys
    ensures Outcome(s, s', {}, f)
  {}

  lemma OutcomeSame(s: St, mid: St, s': St, done: set<JobId>, f: Findings)
    requires Outcome(s, mid, done, f)
    requires s'.rows == mid.rows && s'.results == mid.results && s'.files == mid.files && s'.manifests == mid.manifests
    requires s'.adopted == mid.adopted && s'.unregistered == mid.unregistered
    ensures Outcome(s, s', done, f)
  {}

  lemma OutcomeStays(s: St, mid: St, s': St, done: set<JobId>, f: Findings)
    requires Outcome(s, mid, done, f) && RecoverStep(mid, s')
    ensures OutcomeButRows(s, s', done, f) && s'.rows.Keys == s.rows.Keys
    ensures forall k <- s.rows :: s'.rows[k] ==
              if k in done && ToComplete(s, k, f) then Succeeded else if s.rows[k] == Running then Failed else s.rows[k]
  {
    hide ToComplete, ToClear, ToRegister, Doomed;
  }

  /** Outputs of different jobs have different inodes. */
  lemma NotRecordedTwice(s: St, j: JobId, k: JobId, o: Owner)
    requires Inv(s) && j in s.manifests && k in s.manifests && j != k && o in s.manifests[j].owners && Visible(s.files, s.manifests[j].dir, o)
    ensures Path(s.manifests[j].dir, o.name) !in Recorded(s.files, s.manifests[k])
  {
    assert ManifestOk(s, j, s.manifests[j]) && ManifestOk(s, k, s.manifests[k]);
    hide Inv, ManifestOk;
    assert Own(s, k, s.manifests[k].owners) && Own(s, j, s.manifests[j].owners);
  }

  /** Clearing others hides no output of j. */
  lemma StillVisible(s: St, mid: St, done: set<JobId>, f: Findings, j: JobId, o: Owner)
    requires Inv(s) && FilesDone(s, mid, done, f) && done <= s.manifests.Keys && j in s.manifests && j !in done && o in s.manifests[j].owners
    ensures Visible(mid.files, s.manifests[j].dir, o) <==> Visible(s.files, s.manifests[j].dir, o)
  {
    hide Inv, ToClear, Recorded;
    if Visible(s.files, s.manifests[j].dir, o) {
      forall k | k in done ensures Path(s.manifests[j].dir, o.name) !in Recorded(s.files, s.manifests[k]) {
        NotRecordedTwice(s, j, k, o);
      }
      assert !Doomed(s, done, f, Path(s.manifests[j].dir, o.name));
    }
    hide Doomed;
  }

  lemma StillThere(s: St, mid: St, done: set<JobId>, f: Findings, j: JobId)
    requires Outcome(s, mid, done, f) && j in s.manifests && j !in done
    ensures j in mid.manifests && mid.manifests[j] == s.manifests[j]
  {
    hide ToComplete, ToClear, ToRegister, Doomed;
  }

  lemma SameJudgement(s: St, mid: St, done: set<JobId>, f: Findings, j: JobId)
    requires Inv(s) && Outcome(s, mid, done, f) && done <= s.manifests.Keys && j in s.manifests && j !in done && Lists(f, j, s.manifests[j])
    ensures ToComplete(mid, j, f) == ToComplete(s, j, f)
    ensures ToClear(mid, j, f) == ToClear(s, j, f)
    ensures ToRegister(mid, j, f) == ToRegister(s, j, f)
  {
    hide Inv, ToComplete, ToClear, ToRegister, FilesDone, Lists, Visible;
    forall o | o in s.manifests[j].owners ensures Visible(mid.files, s.manifests[j].dir, o) <==> Visible(s.files, s.manifests[j].dir, o) {
      StillVisible(s, mid, done, f, j, o);
    }
    assert j in mid.manifests && mid.manifests[j] == s.manifests[j] && (j in mid.rows <==> j in s.rows) && (j in s.rows ==> mid.rows[j] == s.rows[j]);
    hide Outcome, OutcomeButRows;
    SameFindings(s, mid, f, j);
  }

  /** The judgement depends on the job's row, its manifest and which of its outputs are visible. */
  lemma SameFindings(s: St, mid: St, f: Findings, j: JobId)
    requires j in s.manifests && j in mid.manifests && mid.manifests[j] == s.manifests[j] && Lists(f, j, s.manifests[j])
    requires (j in mid.rows <==> j in s.rows) && (j in s.rows ==> mid.rows[j] == s.rows[j])
    requires forall o <- s.manifests[j].owners :: Visible(mid.files, s.manifests[j].dir, o) <==> Visible(s.files, s.manifests[j].dir, o)
    ensures ToComplete(mid, j, f) == ToComplete(s, j, f)
    ensures ToClear(mid, j, f) == ToClear(s, j, f)
    ensures ToRegister(mid, j, f) == ToRegister(s, j, f)
  {
    hide ToComplete, ToClear, ToRegister, Visible;
    assert AllThere(mid, j, f) == AllThere(s, j, f);
    forall i: nat ensures FirstFlaw(mid, j, f, i) == FirstFlaw(s, j, f, i) && BrokenFirst(mid, j, f, i) == BrokenFirst(s, j, f, i) {
      assert forall h :: 0 <= h < |Entries(f, j)| ==> Entries(f, j)[h] in s.manifests[j].owners;
    }
    SameFlaws(s, mid, f, j);
  }

  lemma SameFlaws(s: St, mid: St, f: Findings, j: JobId)
    requires j in s.manifests && j in mid.manifests && mid.manifests[j] == s.manifests[j]
    requires (j in mid.rows <==> j in s.rows) && (j in s.rows ==> mid.rows[j] == s.rows[j])
    requires AllThere(mid, j, f) == AllThere(s, j, f)
    requires forall i: nat :: FirstFlaw(mid, j, f, i) == FirstFlaw(s, j, f, i)
    requires forall i: nat :: BrokenFirst(mid, j, f, i) == BrokenFirst(s, j, f, i)
    ensures ToComplete(mid, j, f) == ToComplete(s, j, f)
    ensures ToClear(mid, j, f) == ToClear(s, j, f)
    ensures ToRegister(mid, j, f) == ToRegister(s, j, f)
  {
    hide AllThere, FirstFlaw, BrokenFirst;
  }

  /** What handling job j may change. */
  ghost predicate Turn(mid: St, s': St, j: JobId, action: Action)
    requires j in mid.manifests
  {
    && s'.files == (if action.Remove? then FilesWithout(mid.files, mid.manifests[j].dir, mid.manifests[j].owners) else mid.files)
    && s'.manifests == (if action.Remove? then Drop(mid.manifests, j) else mid.manifests)
    && s'.rows == (if action.Complete? then mid.rows[j := Succeeded] else mid.rows)
    && s'.results == (if action.Complete? then mid.results[j := Names(mid.manifests[j].owners)] else mid.results)
    && s'.adopted == (if action.Complete? then mid.adopted + {j} else mid.adopted)
    && s'.unregistered == (if action == Keep(false) then mid.unregistered else mid.unregistered - {j})
  }

  lemma OneMoreDone(s: St, mid: St, s': St, done: set<JobId>, f: Findings, j: JobId, action: Action)
    requires Inv(s) && Outcome(s, mid, done, f) && done <= s.manifests.Keys && j in s.manifests && j !in done && Lists(f, j, s.manifests[j])
    requires j in mid.manifests && Turn(mid, s', j, action)
    requires action.Remove? <==> ToClear(mid, j, f)
    requires action.Complete? <==> ToComplete(mid, j, f)
    requires action.Complete? || action == Keep(true) <==> ToRegister(mid, j, f)
    ensures Outcome(s, s', done + {j}, f)
  {
    hide Inv, ToComplete, ToClear, ToRegister, Outcome, OutcomeButRows, RowsDone, ResultsDone, ManifestsDone, FilesDone, Turn;
    SameJudgement(s, mid, done, f, j);
    assert RowsDone(s, mid, done, f) && ResultsDone(s, mid, done, f) && ManifestsDone(s, mid, done, f) && FilesDone(s, mid, done, f) by {
      OutcomeParts(s, mid, done, f);
    }
    StillThere(s, mid, done, f, j);
    RowsStep(s, mid, s', done, f, j, action);
    ResultsStep(s, mid, s', done, f, j, action);
    ManifestsStep(s, mid, s', done, f, j, action);
    FilesStep(s, mid, s', done, f, j, action);
    OutcomeWhole(s, s', done + {j}, f);
  }

  lemma OutcomeParts(s: St, s': St, done: set<JobId>, f: Findings)
    requires Outcome(s, s', done, f)
    ensures RowsDone(s, s', done, f) && ResultsDone(s, s', done, f) && ManifestsDone(s, s', done, f) && FilesDone(s, s', done, f)
  {}

  lemma OutcomeWhole(s: St, s': St, done: set<JobId>, f: Findings)
    requires RowsDone(s, s', done, f) && ResultsDone(s, s', done, f) && ManifestsDone(s, s', done, f) && FilesDone(s, s', done, f)
    ensures Outcome(s, s', done, f)
  {}

  lemma RowsStep(s: St, mid: St, s': St, done: set<JobId>, f: Findings, j: JobId, action: Action)
    requires RowsDone(s, mid, done, f) && j in mid.manifests && Turn(mid, s', j, action) && (action.Complete? <==> ToComplete(s, j, f))
    ensures RowsDone(s, s', done + {j}, f)
  {
    assert ToComplete(s, j, f) ==> j in s.rows;
    hide ToComplete;
  }

  lemma ResultsStep(s: St, mid: St, s': St, done: set<JobId>, f: Findings, j: JobId, action: Action)
    requires ResultsDone(s, mid, done, f) && j in mid.manifests && j in s.manifests && mid.manifests[j] == s.manifests[j]
    requires Turn(mid, s', j, action) && (action.Complete? <==> ToComplete(s, j, f))
    ensures ResultsDone(s, s', done + {j}, f)
  {
    hide ToComplete;
  }

  lemma ManifestsStep(s: St, mid: St, s': St, done: set<JobId>, f: Findings, j: JobId, action: Action)
    requires ManifestsDone(s, mid, done, f) && j in mid.manifests && j in s.manifests && j !in done && Turn(mid, s', j, action)
    requires (action.Remove? <==> ToClear(s, j, f)) && (action.Complete? || action == Keep(true) <==> ToRegister(s, j, f))
    ensures ManifestsDone(s, s', done + {j}, f)
  {
    hide ToClear, ToRegister;
  }

  lemma FilesStep(s: St, mid: St, s': St, done: set<JobId>, f: Findings, j: JobId, action: Action)
    requires FilesDone(s, mid, done, f) && j in mid.manifests && j in s.manifests && mid.manifests[j] == s.manifests[j]
    requires Turn(mid, s', j, action) && (action.Remove? <==> ToClear(s, j, f))
    ensures FilesDone(s, s', done + {j}, f)
  {
    forall p ensures Doomed(s, done + {j}, f, p) <==> Doomed(s, done, f, p) || (ToClear(s, j, f) && p in Recorded(s.files, s.manifests[j])) {
      hide ToClear, Recorded;
      if k :| k in done && ToClear(s, k, f) && p in Recorded(s.files, s.manifests[k]) {
        assert k in done + {j};
      }
      if ToClear(s, j, f) && p in Recorded(s.files, s.manifests[j]) {
        assert j in done + {j};
      }
    }
    hide ToClear, Doomed;
  }
}
