/** The in-memory artifact registry: streams hold their job's artifacts, and retention cleanup removes only what is
    expired, idle and still the recorded file. */
module Artifacts {
  import opened Prelude
  import opened Jobs
  import opened PublicationModel

  datatype Retention = Download | Server | Archive

  datatype Artifact = Artifact(path: Path, kind: Retention, expires: int)

  predicate Expired(v: Artifact, now: int) {
    v.kind != Retention.Archive && v.expires <= now
  }

  /** The recorded owner of an artifact, when the job's manifest lists it. */
  predicate RecordedAs(v: Artifact, m: Manifest, o: Owner) {
    o in m.owners && v.path == Path(m.dir, o.name)
  }

  predicate Listed(v: Artifact, m: Manifest) {
    exists o <- m.owners :: v.path == Path(m.dir, o.name)
  }

  /** One name, one owner. */
  ghost predicate NamesUnique(m: Manifest) {
    forall a <- m.owners, b <- m.owners :: a.name == b.name ==> a == b
  }

  /** What cleanup keeps of a job's artifacts: archives, unexpired ones, and those it has no record for. */
  function Kept(values: seq<Artifact>, m: Option<Manifest>, now: int): seq<Artifact> {
    if values == [] then []
    else
      var v := values[|values| - 1];
      Kept(values[..|values| - 1], m, now) + if Expired(v, now) && (m.Some? ==> Listed(v, m.value)) then [] else [v]
  }

  /** What stays registered: archives, what has not expired, and what the job's manifest does not record. */
  lemma {:induction false} KeptMeans(values: seq<Artifact>, m: Option<Manifest>, now: int, v: Artifact)
    ensures multiset(Kept(values, m, now))[v] ==
      if v.kind == Retention.Archive || v.expires > now || (m.Some? && forall o <- m.value.owners :: v.path != Path(m.value.dir, o.name))
      then multiset(values)[v] else 0
  {
    hide Expired, Listed;
    DroppedIff(v, m, now);
    if values != [] {
      var n := |values| - 1;
      KeptMeans(values[..n], m, now, v);
      assert values == values[..n] + [values[n]];
    }
  }

  lemma DroppedIff(v: Artifact, m: Option<Manifest>, now: int)
    ensures Expired(v, now) && (m.Some? ==> Listed(v, m.value)) <==>
      !(v.kind == Retention.Archive || v.expires > now || (m.Some? && forall o <- m.value.owners :: v.path != Path(m.value.dir, o.name)))
  {}

  /** A file that cleanup of one job may take: an expired artifact, under its recorded inode if there is a manifest. */
  ghost predicate Removable(files: map<Path, Inode>, values: seq<Artifact>, m: Option<Manifest>, now: int, p: Path)
    requires p in files
  {
    exists i :: 0 <= i < |values| && Gone(files, values[i], m, now, p)
  }

  ghost predicate Gone(files: map<Path, Inode>, v: Artifact, m: Option<Manifest>, now: int, p: Path)
    requires p in files
  {
    v.path == p && Expired(v, now) && (m.Some? ==> RecordedAs(v, m.value, Owner(p.name, files[p])))
  }

  /** Cleanup of one job took exactly the removable files. */
  ghost predicate Swept(before: map<Path, Inode>, after: map<Path, Inode>, values: seq<Artifact>, m: Option<Manifest>, now: int) {
    && (forall p <- after :: p in before && after[p] == before[p])
    && (forall p <- before :: p in after <==> !Removable(before, values, m, now, p))
  }

  lemma SweptNone(files: map<Path, Inode>, m: Option<Manifest>, now: int)
    ensures Swept(files, files, [], m, now)
  {}

  lemma SweptStep(before: map<Path, Inode>, mid: map<Path, Inode>, after: map<Path, Inode>, values: seq<Artifact>, m: Option<Manifest>, now: int)
    requires values != []
    requires var n := |values| - 1; Swept(before, mid, values[..n], m, now)
    requires forall p <- after :: p in mid && after[p] == mid[p]
    requires var v := values[|values| - 1]; forall p <- mid :: p in after <==> !Gone(mid, v, m, now, p)
    ensures Swept(before, after, values, m, now)
  {
    var n := |values| - 1;
    forall p | p in before ensures p in after <==> !Removable(before, values, m, now, p) {
      if Removable(before, values[..n], m, now, p) {
        var i :| 0 <= i < n && Gone(before, values[..n][i], m, now, p);
        assert Gone(before, values[i], m, now, p);
      }
      if Removable(before, values, m, now, p) {
        var i :| 0 <= i < |values| && Gone(before, values[i], m, now, p);
        assert i < n ==> Gone(before, values[..n][i], m, now, p);
      }
      assert p in mid ==> (Gone(mid, values[n], m, now, p) <==> Gone(before, values[n], m, now, p));
    }
  }

  function StreamsOf(streams: map<nat, JobId>, job: JobId): set<nat> {
    set s | s in streams && streams[s] == job
  }

  class ArtifactStore {
    var values: map<JobId, seq<Artifact>>
    var active: map<JobId, int>
    var manifests: map<JobId, Dir>             // where the registered manifest lies
    var files: map<Path, Inode>
    var documents: map<JobId, Manifest>        // manifests on disk
    ghost var streams: map<nat, JobId>         // streams not yet closed

    function Active(job: JobId): int
      reads this
    {
      if job in active then active[job] else 0
    }

    /** The active count of a job is the number of its open streams. */
    ghost predicate Valid()
      reads this
    {
      forall job {:trigger Active(job)} :: Active(job) == |StreamsOf(streams, job)|
    }

    constructor (files: map<Path, Inode>, documents: map<JobId, Manifest>)
      ensures Valid() && values == map[] && active == map[] && streams == map[] && this.files == files && this.documents == documents
    {
      values, active, manifests, this.files, this.documents, streams := map[], map[], map[], files, documents, map[];
      new;
      forall job ensures Active(job) == |StreamsOf(streams, job)| {
        assert StreamsOf(streams, job) == {};
      }
    }

    /** Only a download that has not expired and is there can be streamed; the stream holds its job. */
    method Open(job: JobId, position: int, now: int, ghost id: nat) returns (artifact: Option<Artifact>)
      requires Valid() && id !in streams
      modifies this`active, this`streams
      ensures Valid()
      ensures artifact.Some? <==> job in values && 0 <= position < |values[job]| && values[job][position].kind == Retention.Download
                                  && values[job][position].expires > now && values[job][position].path in files
      ensures artifact.Some? ==> artifact.value == values[job][position] && streams == old(streams)[id := job] && Active(job) == old(Active(job)) + 1
      ensures artifact.None? ==> streams == old(streams) && active == old(active)
    {
      if job !in values || position < 0 || position >= |values[job]| {
        return None;
      }
      var value := values[job][position];
      if value.kind != Retention.Download || value.expires <= now || value.path !in files {
        return None;
      }
      ghost var held := StreamsOf(streams, job);
      assert Active(job) == |held|;
      active := active[job := Active(job) + 1];
      streams := streams[id := job];
      assert StreamsOf(streams, job) == held + {id};
      forall k | k != job ensures Active(k) == |StreamsOf(streams, k)| {
        assert StreamsOf(streams, k) == old(StreamsOf(streams, k)) && old(Active(k)) == Active(k);
      }
      artifact := Some(value);
    }

    /** Closing a stream once. */
    method Close(job: JobId, ghost id: nat)
      requires Valid() && id in streams && streams[id] == job
      modifies this`active, this`streams
      ensures Valid() && streams == old(streams) - {id} && Active(job) == old(Active(job)) - 1
    {
      ghost var held := StreamsOf(streams, job);
      assert id in held && Active(job) == |held|;
      active := active[job := Active(job) - 1];
      streams := streams - {id};
      assert StreamsOf(streams, job) == held - {id};
      forall k | k != job ensures Active(k) == |StreamsOf(streams, k)| {
        assert StreamsOf(streams, k) == old(StreamsOf(streams, k)) && old(Active(k)) == Active(k);
      }
    }

    /** The manifest that governs a job: None when none is registered; a registered one that cannot be read blocks cleanup. */
    function Governing(job: JobId): Option<Manifest>
      reads this
      requires job in manifests ==> job in documents
    {
      if job in manifests then Some(documents[job]) else None
    }

    predicate Blocked(job: JobId)
      reads this
    {
      Active(job) > 0 || (job in manifests && !(job in documents && documents[job].dir == manifests[job]))
    }

    /** Cleanup of one job: a job with an open stream is left alone; otherwise exactly the expired artifacts go, and
        the manifest goes with the last of them. */
    method CleanupJob(job: JobId, now: int)
      requires job in values
      requires job in documents ==> NamesUnique(documents[job])
      modifies this`values, this`manifests, this`files, this`documents
      ensures old(Blocked(job)) ==> files == old(files) && documents == old(documents) && values == old(values) && manifests == old(manifests)
      ensures !old(Blocked(job)) ==>
                var m := old(Governing(job));
                var kept := Kept(old(values)[job], m, now);
                && Swept(old(files), files, old(values)[job], m, now)
                && values == (if kept == [] then old(values) - {job} else old(values)[job := kept])
                && documents == (if kept == [] && m.Some? then old(documents) - {job} else old(documents))
                && manifests == (if kept == [] then old(manifests) - {job} else old(manifests))
    {
      if Active(job) > 0 {
        return;
      }
      if job in manifests && !(job in documents && documents[job].dir == manifests[job]) {
        return;
      }
      var m := Governing(job);
      var all := values[job];
      var kept: seq<Artifact> := [];
      SweptNone(files, m, now);
      for i := 0 to |all|
        invariant kept == Kept(all[..i], m, now) && Swept(old(files), files, all[..i], m, now)
        invariant values == old(values) && manifests == old(manifests) && documents == old(documents)
      {
        var v := all[i];
        ghost var mid := files;
        assert all[..i + 1][..i] == all[..i] && all[..i + 1][i] == v;
        if !Expired(v, now) {
          kept := kept + [v];
        } else if m.None? {
          files := files - {v.path};
        } else if Listed(v, m.value) {
          var o: Owner :| o in m.value.owners && v.path == Path(m.value.dir, o.name);
          files := RemoveOwned(files, m.value.dir, o);
          OnlyOwner(mid, v, m.value, o);
        } else {
          kept := kept + [v];
        }
        SweptStep(old(files), mid, files, all[..i + 1], m, now);
      }
      assert all[..|all|] == all;
      if |kept| == 0 {
        if m.Some? {
          documents := documents - {job};
        }
        values := values - {job};
        manifests := manifests - {job};
      } else {
        values := values[job := kept];
      }
    }

    /** Cleanup of job would take the file that is at p in origin. */
    ghost predicate Takes(job: JobId, now: int, origin: map<Path, Inode>, p: Path)
      reads this
      requires job in values && p in origin
    {
      !Blocked(job) && Removable(origin, values[job], Governing(job), now, p)
    }

    /** What cleanup of job leaves registered. */
    function Left(job: JobId, now: int): seq<Artifact>
      reads this
      requires job in values
    {
      if Blocked(job) then values[job] else Kept(values[job], Governing(job), now)
    }

    /** Nothing is left of job, so that cleanup forgets it. */
    predicate Forgotten(job: JobId, now: int)
      reads this
      requires job in values
    {
      !Blocked(job) && Left(job, now) == []
    }

    /** Only expired artifacts of jobs without streams go, and a job with streams keeps everything. */
    lemma OnlyIdle(now: int)
      ensures forall job <- values, p <- files :: Takes(job, now, files, p) ==> Active(job) <= 0 && ExpiredAt(values[job], now, p)
      ensures forall job <- values :: Active(job) > 0 ==> !Forgotten(job, now) && Left(job, now) == values[job]
    {
      hide Removable;
      forall job <- values, p <- files | Takes(job, now, files, p) ensures ExpiredAt(values[job], now, p) {
        RemovableExpired(files, values[job], Governing(job), now, p);
      }
    }

    lemma AllAwaiting(now: int, gone: set<JobId>, left: map<JobId, seq<Artifact>>, goes: map<JobId, set<Path>>)
      requires forall job <- documents :: NamesUnique(documents[job])
      requires gone == set job | job in values && Forgotten(job, now)
      requires left == map job | job in values :: Left(job, now)
      requires goes == map job | job in values :: set p | p in files && Takes(job, now, files, p)
      ensures Awaiting(values.Keys, now, files, gone, left, goes)
      ensures forall p <- files :: (forall job <- values :: p !in goes[job]) <==> (forall job <- values :: !Takes(job, now, files, p))
      ensures values.Keys <= left.Keys && values.Keys <= goes.Keys
    {
      hide Takes, Left, Forgotten, NamesUnique;
    }

    /** Cleanup of every registered job, each as if alone: exactly the removable files of idle jobs go, a job is forgotten
        exactly when nothing of it is left, and its manifest goes with it. */
    method Cleanup(now: int)
      requires forall job <- documents :: NamesUnique(documents[job])
      modifies this`values, this`manifests, this`files, this`documents
      ensures forall p <- files :: p in old(files) && files[p] == old(files)[p]
      ensures forall p <- old(files) :: p in files <==> forall job <- old(values) :: !old(Takes(job, now, files, p))
      ensures forall job :: job in values <==> job in old(values) && !old(Forgotten(job, now))
      ensures forall job <- values :: values[job] == old(Left(job, now))
      ensures forall job :: job in documents <==> job in old(documents) && !(job in old(values) && job in old(manifests) && old(Forgotten(job, now)))
      ensures forall job <- old(values) :: Active(job) > 0 ==> job in values && values[job] == old(values)[job] && (job in documents <==> job in old(documents))
      ensures forall p <- old(files) :: p in files || exists job <- old(values) :: Active(job) <= 0 && ExpiredAt(old(values)[job], now, p)
    {
      hide Takes, Left, Forgotten, Blocked, Awaiting, FilesThen, ValuesThen, DocumentsThen, NamesUnique, ExpiredAt;
      OnlyIdle(now);
      ghost var gone := set job | job in values && Forgotten(job, now);
      ghost var left := map job | job in values :: Left(job, now);
      ghost var goes := map job | job in values :: set p | p in files && Takes(job, now, files, p);
      AllAwaiting(now, gone, left, goes);
      ghost var origin, all, known, registered := files, values, documents, manifests.Keys;
      CleanupAll(now, origin, gone, left, goes);
      Cleaned(origin, files, all, values, known, documents, gone, left, goes, registered);
    }

    /** What is still to come of the loop, when gone, left and goes say what each job has in store. */
    ghost predicate Awaiting(todo: set<JobId>, now: int, origin: map<Path, Inode>, gone: set<JobId>, left: map<JobId, seq<Artifact>>, goes: map<JobId, set<Path>>)
      reads this
    {
      && todo <= values.Keys && todo <= left.Keys && todo <= goes.Keys
      && (forall job <- documents :: NamesUnique(documents[job]))
      && (forall p <- files :: p in origin && files[p] == origin[p])
      && forall job <- todo ::
           && Forgotten(job, now) == (job in gone) && Left(job, now) == left[job]
           && forall p <- origin :: Takes(job, now, origin, p) == (p in goes[job])
    }

    /** One turn of the loop: it does to job what it would do to it alone, and is no concern of any other job. */
    method CleanupNext(job: JobId, now: int, ghost todo: set<JobId>, ghost origin: map<Path, Inode>, ghost gone: set<JobId>,
                       ghost left: map<JobId, seq<Artifact>>, ghost goes: map<JobId, set<Path>>)
      requires job in todo && Awaiting(todo, now, origin, gone, left, goes)
      modifies this`values, this`manifests, this`files, this`documents
      ensures Awaiting(todo - {job}, now, origin, gone, left, goes)
      ensures forall p <- files :: p in origin && files[p] == origin[p]
      ensures job in goes && forall p <- origin :: p in files <==> p in old(files) && p !in goes[job]
      ensures job in left && values == if job in gone then old(values) - {job} else old(values)[job := left[job]]
      ensures documents == if job in gone && job in old(manifests) then old(documents) - {job} else old(documents)
      ensures forall k <- todo :: k != job ==> (k in manifests <==> k in old(manifests))
    {
      hide Swept, Kept, Removable, NamesUnique;
      ghost var before, all, blocked := files, values[job], Blocked(job);
      ghost var m := if blocked then None else Governing(job);
      CleanupJob(job, now);
      if !blocked {
        SweptSame(origin, before, files, all, m, now);
      }
    }

    method CleanupAll(now: int, ghost origin: map<Path, Inode>, ghost gone: set<JobId>, ghost left: map<JobId, seq<Artifact>>, ghost goes: map<JobId, set<Path>>)
      requires files == origin && Awaiting(values.Keys, now, origin, gone, left, goes)
      modifies this`values, this`manifests, this`files, this`documents
      ensures FilesThen(origin, files, old(values).Keys, goes)
      ensures ValuesThen(old(values), values, old(values).Keys, gone, left)
      ensures DocumentsThen(old(documents), documents, old(values).Keys, gone, old(manifests).Keys)
    {
      hide Awaiting, FilesThen, ValuesThen, DocumentsThen;
      var todo := values.Keys;
      ghost var all, known, registered, done := values, documents, manifests.Keys, {};
      NothingDone(files, values, documents, gone, left, goes, registered);
      while todo != {}
        invariant todo !! done && todo + done == all.Keys && Awaiting(todo, now, origin, gone, left, goes)
        invariant forall job <- todo :: job in manifests <==> job in registered
        invariant FilesThen(origin, files, done, goes) && ValuesThen(all, values, done, gone, left) && DocumentsThen(known, documents, done, gone, registered)
        decreases |todo|
      {
        var job :| job in todo;
        ghost var before, mine, docs := files, values, documents;
        CleanupNext(job, now, todo, origin, gone, left, goes);
        FilesTurn(origin, before, files, done, goes, job);
        ValuesTurn(all, mine, values, done, gone, left, job);
        DocumentsTurn(known, docs, documents, done, gone, registered, job);
        todo, done := todo - {job}, done + {job};
      }
      assert done == all.Keys;
    }
  }

  /** What the jobs of done took from the files. */
  ghost predicate FilesThen(origin: map<Path, Inode>, files: map<Path, Inode>, done: set<JobId>, goes: map<JobId, set<Path>>) {
    && (forall p <- files :: p in origin && files[p] == origin[p])
    && (forall p <- origin :: p in files <==> forall job <- done :: job in goes ==> p !in goes[job])
  }

  /** What is left registered of the jobs of done. */
  ghost predicate ValuesThen(all: map<JobId, seq<Artifact>>, values: map<JobId, seq<Artifact>>, done: set<JobId>, gone: set<JobId>, left: map<JobId, seq<Artifact>>) {
    && (forall job :: job in values <==> job in all && !(job in done && job in gone))
    && (forall job <- values :: values[job] == if job in done && job in left then left[job] else all[job])
  }

  ghost predicate DocumentsThen(known: map<JobId, Manifest>, documents: map<JobId, Manifest>, done: set<JobId>, gone: set<JobId>, registered: set<JobId>) {
    forall job :: job in documents <==> job in known && !(job in done && job in gone && job in registered)
  }

  lemma NothingDone(files: map<Path, Inode>, values: map<JobId, seq<Artifact>>, documents: map<JobId, Manifest>, gone: set<JobId>,
                    left: map<JobId, seq<Artifact>>, goes: map<JobId, set<Path>>, registered: set<JobId>)
    ensures FilesThen(files, files, {}, goes) && ValuesThen(values, values, {}, gone, left) && DocumentsThen(documents, documents, {}, gone, registered)
  {}

  lemma Cleaned(origin: map<Path, Inode>, files: map<Path, Inode>, all: map<JobId, seq<Artifact>>, values: map<JobId, seq<Artifact>>,
                known: map<JobId, Manifest>, documents: map<JobId, Manifest>, gone: set<JobId>, left: map<JobId, seq<Artifact>>,
                goes: map<JobId, set<Path>>, registered: set<JobId>)
    requires FilesThen(origin, files, all.Keys, goes) && ValuesThen(all, values, all.Keys, gone, left) && DocumentsThen(known, documents, all.Keys, gone, registered)
    requires all.Keys <= left.Keys && all.Keys <= goes.Keys
    ensures forall p <- files :: p in origin && files[p] == origin[p]
    ensures forall p <- origin :: p in files <==> forall job <- all :: p !in goes[job]
    ensures forall job :: job in values <==> job in all && job !in gone
    ensures forall job <- values :: values[job] == left[job]
    ensures forall job :: job in documents <==> job in known && !(job in all && job in registered && job in gone)
  {}

  lemma FilesTurn(origin: map<Path, Inode>, before: map<Path, Inode>, after: map<Path, Inode>, done: set<JobId>, goes: map<JobId, set<Path>>, job: JobId)
    requires FilesThen(origin, before, done, goes) && job in goes
    requires forall p <- after :: p in origin && after[p] == origin[p]
    requires forall p <- origin :: p in after <==> p in before && p !in goes[job]
    ensures FilesThen(origin, after, done + {job}, goes)
  {}

  lemma ValuesTurn(all: map<JobId, seq<Artifact>>, before: map<JobId, seq<Artifact>>, after: map<JobId, seq<Artifact>>, done: set<JobId>, gone: set<JobId>,
                   left: map<JobId, seq<Artifact>>, job: JobId)
    requires ValuesThen(all, before, done, gone, left) && job in all && job !in done && job in left
    requires after == if job in gone then before - {job} else before[job := left[job]]
    ensures ValuesThen(all, after, done + {job}, gone, left)
  {}

  lemma DocumentsTurn(known: map<JobId, Manifest>, before: map<JobId, Manifest>, after: map<JobId, Manifest>, done: set<JobId>, gone: set<JobId>,
                      registered: set<JobId>, job: JobId)
    requires DocumentsThen(known, before, done, gone, registered) && job !in done
    requires after == if job in gone && job in registered then before - {job} else before
    ensures DocumentsThen(known, after, done + {job}, gone, registered)
  {}

  ghost predicate ExpiredAt(values: seq<Artifact>, now: int, p: Path) {
    exists i :: 0 <= i < |values| && values[i].path == p && values[i].kind != Retention.Archive && values[i].expires <= now
  }

  lemma RemovableExpired(files: map<Path, Inode>, values: seq<Artifact>, m: Option<Manifest>, now: int, p: Path)
    requires p in files && Removable(files, values, m, now, p)
    ensures ExpiredAt(values, now, p)
  {
    var i :| 0 <= i < |values| && Gone(files, values[i], m, now, p);
  }

  /** Whether a file is removable does not depend on what else went before. */
  lemma SweptSame(origin: map<Path, Inode>, before: map<Path, Inode>, after: map<Path, Inode>, values: seq<Artifact>, m: Option<Manifest>, now: int)
    requires Swept(before, after, values, m, now) && forall p <- before :: p in origin && before[p] == origin[p]
    ensures forall p <- after :: p in before && after[p] == before[p]
    ensures forall p <- before :: p in after <==> !Removable(origin, values, m, now, p)
  {
    forall p | p in before ensures Removable(before, values, m, now, p) <==> Removable(origin, values, m, now, p) {
      if i :| 0 <= i < |values| && Gone(before, values[i], m, now, p) { assert Gone(origin, values[i], m, now, p); }
      if i :| 0 <= i < |values| && Gone(origin, values[i], m, now, p) { assert Gone(before, values[i], m, now, p); }
    }
  }

  lemma OnlyOwner(files: map<Path, Inode>, v: Artifact, m: Manifest, o: Owner)
    requires NamesUnique(m) && RecordedAs(v, m, o)
    ensures forall p <- files :: p in RemoveOwned(files, m.dir, o) <==> !(v.path == p && RecordedAs(v, m, Owner(p.name, files[p])))
    ensures forall p <- RemoveOwned(files, m.dir, o) :: p in files && RemoveOwned(files, m.dir, o)[p] == files[p]
  {}
}
