/** The preview cache: validated publication without replacement, leases held by open readers, and bounded
    eviction in order of modification time.  Validation, cancellation and clock readings are inputs; files of other
    processes are not modelled.  A path is the cache entry of one key. */
module PreviewCache {
  import opened Prelude
  import opened Sorting

  type Path = string
  type Inode = nat
  type Bytes = seq<int>

  datatype File = File(inode: Inode, size: nat, modified: int)

  type Files = map<Path, File>

  datatype CacheFile = CacheFile(path: Path, size: nat, modified: int)

  // ---------------------------------------------------------------- total size

  ghost function Total(files: Files): nat
    decreases |files|
  {
    if files == map[] then 0
    else
      var p :| p in files;
      files[p].size + Total(files - {p})
  }

  lemma {:induction false} TotalWithout(files: Files, p: Path)
    requires p in files
    ensures Total(files) == files[p].size + Total(files - {p})
    decreases |files|
  {
    var q :| q in files && Total(files) == files[q].size + Total(files - {q});
    if q != p {
      TotalWithout(files - {q}, p);
      TotalWithout(files - {p}, q);
      assert files - {q} - {p} == files - {p} - {q};
    }
  }

  lemma {:induction false} TotalMonotone(a: Files, b: Files)
    requires forall p <- a :: p in b && b[p] == a[p]
    ensures Total(a) <= Total(b)
    decreases |b|
  {
    if p :| p in b {
      TotalWithout(b, p);
      if p in a {
        TotalWithout(a, p);
        TotalMonotone(a - {p}, b - {p});
      } else {
        TotalMonotone(a, b - {p});
      }
    } else {
      assert a == map[];
    }
  }

  /** The files that have an open reader. */
  function Leased(files: Files, open: map<Path, nat>): Files {
    map p | p in files && p in open :: files[p]
  }

  // -------------------------------------------------------------- the directory walk

  /** The walk reports every file once, with its size and modification time. */
  ghost predicate Lists(order: seq<CacheFile>, files: Files) {
    && (forall i, j :: 0 <= i < j < |order| ==> order[i].path != order[j].path)
    && (forall i :: 0 <= i < |order| ==> Reports(order[i], files))
    && (forall p <- files :: Reported(order, p))
  }

  function ByModified(a: CacheFile, b: CacheFile): bool {
    a.modified <= b.modified
  }

  /** The walk midway: todo is what has not been reported yet. */
  ghost predicate Walked(found: seq<CacheFile>, files: Files, todo: Files) {
    && (forall p <- todo :: p in files && todo[p] == files[p])
    && (forall i, j :: 0 <= i < j < |found| ==> found[i].path != found[j].path)
    && (forall i :: 0 <= i < |found| ==> Reports(found[i], files) && found[i].path !in todo)
    && (forall p <- files :: p in todo || Reported(found, p))
  }

  predicate Reports(f: CacheFile, files: Files) {
    f.path in files && files[f.path].size == f.size && files[f.path].modified == f.modified
  }

  ghost predicate Reported(found: seq<CacheFile>, p: Path) {
    exists i :: 0 <= i < |found| && found[i].path == p
  }

  lemma WalkStep(found: seq<CacheFile>, files: Files, todo: Files, p: Path)
    requires Walked(found, files, todo) && p in todo
    ensures Walked(found + [CacheFile(p, todo[p].size, todo[p].modified)], files, todo - {p})
  {
    var found' := found + [CacheFile(p, todo[p].size, todo[p].modified)];
    assert found'[|found|].path == p;
    forall q | q in files && q !in todo - {p} ensures Reported(found', q) {
      if q != p {
        var i :| 0 <= i < |found| && found[i].path == q;
        assert found'[i].path == q;
      }
    }
  }

  method WalkFiles(files: Files) returns (found: seq<CacheFile>, total: nat)
    ensures Lists(found, files) && total == Total(files)
  {
    hide Walked, Lists, Total;
    found, total := [], 0;
    var todo := files;
    WalkStart(files);
    while todo != map[]
      invariant total + Total(todo) == Total(files) && Walked(found, files, todo)
      decreases |todo|
    {
      var p :| p in todo;
      TotalWithout(todo, p);
      WalkStep(found, files, todo, p);
      total := total + todo[p].size;
      found := found + [CacheFile(p, todo[p].size, todo[p].modified)];
      todo := todo - {p};
    }
    WalkEnd(found, files);
  }

  lemma WalkStart(files: Files)
    ensures Walked([], files, files)
  {}

  lemma WalkEnd(found: seq<CacheFile>, files: Files)
    requires Walked(found, files, map[])
    ensures Lists(found, files) && Total(map[]) == 0
  {}

  lemma ListsPermutes(a: seq<CacheFile>, b: seq<CacheFile>, files: Files)
    requires Lists(a, files) && Permutation(a, b)
    ensures Lists(b, files)
  {
    forall i, j | 0 <= i < j < |b| ensures b[i].path != b[j].path {
      var k, l := PairPermutes(b, a, i, j);
      assert k < l || l < k;
    }
    forall i | 0 <= i < |b| ensures exists k :: 0 <= k < |a| && a[k] == b[i] {
      assert b[i] in multiset(a);
    }
    forall p | p in files ensures Reported(b, p) {
      assert Reported(a, p);
      var k :| 0 <= k < |a| && a[k].path == p;
      assert a[k] in multiset(b);
    }
  }

  // ------------------------------------------------------------------- eviction

  /** What is left of before when the first i files of order have been looked at: the unleased ones among them went. */
  ghost function Swept(before: Files, open: map<Path, nat>, order: seq<CacheFile>, i: nat): Files
    requires i <= |order|
  {
    if i == 0 then before
    else
      var rest := Swept(before, open, order, i - 1);
      if order[i - 1].path in open then rest else rest - {order[i - 1].path}
  }

  /** after is what the first i files of one oldest-first listing leave, and no shorter prefix was enough. */
  ghost predicate EvictedBy(before: Files, open: map<Path, nat>, max: nat, after: Files, order: seq<CacheFile>, i: nat) {
    && Lists(order, before) && SortedBy(order, ByModified) && i <= |order|
    && after == Swept(before, open, order, i)
    && forall k :: 0 <= k < i ==> Total(Swept(before, open, order, k)) > max
  }

  /** Eviction takes exactly the shortest prefix of the unleased files, oldest first, that is enough or is all of them. */
  ghost predicate Evicted(before: Files, open: map<Path, nat>, max: nat, after: Files) {
    exists order, i :: EvictedBy(before, open, max, after, order, i)
  }

  lemma {:induction false} SweptMember(before: Files, open: map<Path, nat>, order: seq<CacheFile>, i: nat, p: Path)
    requires Lists(order, before) && i <= |order| && p in before
    ensures var files := Swept(before, open, order, i);
      && (p in files <==> p in open || forall k :: 0 <= k < i ==> order[k].path != p)
      && (p in files ==> files[p] == before[p])
  {
    hide Lists;
    if i > 0 {
      SweptMember(before, open, order, i - 1, p);
    }
  }

  lemma {:induction false} SweptShrinks(before: Files, open: map<Path, nat>, order: seq<CacheFile>, i: nat, j: nat)
    requires i <= j <= |order|
    ensures forall p <- Swept(before, open, order, j) :: p in Swept(before, open, order, i) && Swept(before, open, order, i)[p] == Swept(before, open, order, j)[p]
    decreases j
  {
    if i < j {
      SweptShrinks(before, open, order, i, j - 1);
    }
  }

  lemma PlaceOf(order: seq<CacheFile>, files: Files, p: Path) returns (k: nat)
    requires Lists(order, files) && p in files
    ensures k < |order| && order[k].path == p && order[k].modified == files[p].modified && order[k].size == files[p].size
    ensures forall l :: 0 <= l < |order| && l != k ==> order[l].path != p
  {
    assert Reported(order, p);
    k :| 0 <= k < |order| && order[k].path == p;
    assert Reports(order[k], files);
    forall l | 0 <= l < |order| && l != k ensures order[l].path != p {
      assert l < k || k < l;
    }
  }

  /** Leased files all stay and nothing is altered. */
  lemma EvictionSpares(before: Files, open: map<Path, nat>, max: nat, after: Files)
    requires Evicted(before, open, max, after)
    ensures forall p <- after :: p in before && after[p] == before[p]
    ensures forall p <- before :: p in open ==> p in after
  {
    var order, i :| EvictedBy(before, open, max, after, order, i);
    SweptShrinks(before, open, order, 0, i);
    hide Lists, Swept, Total, SortedBy;
    forall p | p in before && p in open ensures p in after { SweptMember(before, open, order, i, p); }
  }

  /** Whatever goes is no newer than any unleased file that stays. */
  lemma EvictionOldestFirst(before: Files, open: map<Path, nat>, max: nat, after: Files, p: Path, q: Path)
    requires Evicted(before, open, max, after) && p in before && p !in after && q in after && q !in open
    ensures q in before && before[p].modified <= before[q].modified
  {
    EvictionSpares(before, open, max, after);
    var order, i :| EvictedBy(before, open, max, after, order, i);
    var k := PlaceOf(order, before, p);
    var l := PlaceOf(order, before, q);
    hide Lists, Swept, Total;
    SweptMember(before, open, order, i, p);
    SweptMember(before, open, order, i, q);
    assert k < i <= l;
    assert ByModified(order[k], order[l]);
  }

  /** p went, and nothing newer did. */
  ghost predicate NewestGone(before: Files, after: Files, p: Path) {
    p in before && p !in after && forall q <- before :: q !in after ==> before[q].modified <= before[p].modified
  }

  /** Not one more than needed: with the newest of the removed files put back the limit is exceeded. */
  lemma EvictionNeeded(before: Files, open: map<Path, nat>, max: nat, after: Files) returns (p: Path)
    requires Evicted(before, open, max, after) && after != before
    ensures NewestGone(before, after, p) && before[p].size + Total(after) > max
  {
    var order, i :| EvictedBy(before, open, max, after, order, i);
    p := LastSwept(before, open, max, order, i);
    hide Total, Swept;
    var k := PlaceOf(order, before, p);
    forall q | q in before && q !in after ensures before[q].modified <= before[p].modified {
      var l := PlaceOf(order, before, q);
      SweptMember(before, open, order, i, q);
      assert l <= k;
      assert l < k ==> ByModified(order[l], order[k]);
    }
  }

  lemma {:induction false} LastSwept(before: Files, open: map<Path, nat>, max: nat, order: seq<CacheFile>, i: nat) returns (p: Path)
    requires Lists(order, before) && i <= |order| && Swept(before, open, order, i) != before
    requires forall k :: 0 <= k < i ==> Total(Swept(before, open, order, k)) > max
    ensures p in before && p !in Swept(before, open, order, i) && before[p].size + Total(Swept(before, open, order, i)) > max
    ensures exists k :: 0 <= k < i && order[k].path == p && forall l :: k < l < i ==> order[l].path in open
  {
    hide Total;
    if order[i - 1].path in open {
      p := LastSwept(before, open, max, order, i - 1);
      var k :| 0 <= k < i - 1 && order[k].path == p && forall l :: k < l < i - 1 ==> order[l].path in open;
      assert forall l :: k < l < i ==> order[l].path in open;
    } else {
      p := order[i - 1].path;
      assert Reports(order[i - 1], before);
      NotYetSwept(before, open, order, i - 1);
      TotalWithout(Swept(before, open, order, i - 1), p);
    }
  }

  lemma NotYetSwept(before: Files, open: map<Path, nat>, order: seq<CacheFile>, i: nat)
    requires Lists(order, before) && i < |order|
    ensures var files, p := Swept(before, open, order, i), order[i].path; p in files && p in before && files[p] == before[p] && files[p].size == order[i].size
  {
    assert Reports(order[i], before);
    SweptMember(before, open, order, i, order[i].path);
  }

  lemma AllSwept(before: Files, open: map<Path, nat>, order: seq<CacheFile>)
    requires Lists(order, before)
    ensures Swept(before, open, order, |order|) == Leased(before, open)
  {
    var files := Swept(before, open, order, |order|);
    SweptShrinks(before, open, order, 0, |order|);
    forall p | p in before ensures p in files <==> p in open {
      SweptMember(before, open, order, |order|, p);
      var k := PlaceOf(order, before, p);
    }
    hide Lists, Swept;
    forall p ensures p in files <==> p in before && p in open {}
  }

  /** Success fits the limit; failure means that the leased files alone exceed it.  Which of the two happens is
      decided by the leases alone. */
  lemma EvictionDecided(before: Files, open: map<Path, nat>, max: nat, after: Files, ok: bool)
    requires Evicted(before, open, max, after)
    requires if ok then Total(after) <= max else after == Leased(before, open) && Total(after) > max
    ensures ok <==> Total(Leased(before, open)) <= max
  {
    hide Evicted;
    EvictionSpares(before, open, max, after);
    TotalMonotone(Leased(before, open), after);
  }

  // --------------------------------------------------------------------- the store

  datatype Reader = Reader(path: Path, inode: Inode)

  datatype Partial = Partial(path: Path, inode: Inode, finished: bool)

  datatype Verdict = Accepts | Rejects | Interrupted

  datatype OpenResult = Candidate(inode: Inode) | Miss | OpenError

  datatype CommitResult = Ok | Refused | OverLimit

  function Holding(readers: map<nat, Reader>, p: Path): set<nat> {
    set r | r in readers && readers[r].path == p
  }

  /** Lease counts are the numbers of unclosed readers. */
  ghost predicate LeasesOk(open: map<Path, nat>, readers: map<nat, Reader>) {
    && (forall p <- open :: open[p] > 0 && |Holding(readers, p)| == open[p])
    && (forall r <- readers :: readers[r].path in open)
  }

  function Leasing(open: map<Path, nat>, p: Path): map<Path, nat> {
    open[p := (if p in open then open[p] else 0) + 1]
  }

  lemma LeaseAdded(open: map<Path, nat>, readers: map<nat, Reader>, r: nat, reader: Reader)
    requires LeasesOk(open, readers) && r !in readers
    ensures LeasesOk(Leasing(open, reader.path), readers[r := reader])
  {
    var p, readers' := reader.path, readers[r := reader];
    assert Holding(readers', p) == Holding(readers, p) + {r};
    forall q | q != p ensures Holding(readers', q) == Holding(readers, q) {}
    if p !in open {
      assert Holding(readers, p) == {};
    }
  }

  function Unleasing(open: map<Path, nat>, p: Path): map<Path, nat>
    requires p in open
  {
    if open[p] <= 1 then open - {p} else open[p := open[p] - 1]
  }

  lemma LeaseDropped(open: map<Path, nat>, readers: map<nat, Reader>, r: nat)
    requires LeasesOk(open, readers) && r in readers
    ensures readers[r].path in open && open[readers[r].path] >= 1
    ensures LeasesOk(Unleasing(open, readers[r].path), readers - {r})
  {
    var p, readers' := readers[r].path, readers - {r};
    assert r in Holding(readers, p);
    assert Holding(readers', p) == Holding(readers, p) - {r};
    forall q | q != p ensures Holding(readers', q) == Holding(readers, q) {}
    if open[p] == 1 {
      assert |Holding(readers', p)| == |Holding(readers, p)| - 1 == 0;
      assert Holding(readers', p) == {};
      forall s | s in readers' ensures readers'[s].path in Unleasing(open, p) {
        assert readers'[s].path == p ==> s in Holding(readers', p);
      }
    }
  }

  /** A published file holds bytes that a commit for its path validated. */
  ghost predicate FilesOk(files: Files, bytes: map<Inode, Bytes>, accepted: set<(Path, Bytes)>) {
    forall p <- files :: files[p].inode in bytes && files[p].size == |bytes[files[p].inode]| && (p, bytes[files[p].inode]) in accepted
  }

  ghost predicate ReadersOk(readers: map<nat, Reader>, bytes: map<Inode, Bytes>, accepted: set<(Path, Bytes)>) {
    forall r <- readers :: readers[r].inode in bytes && (readers[r].path, bytes[readers[r].inode]) in accepted
  }

  ghost predicate Unshared(i: Inode, files: Files, readers: map<nat, Reader>) {
    (forall p <- files :: files[p].inode != i) && (forall r <- readers :: readers[r].inode != i)
  }

  /** The inode of an unfinished partial is nobody else's. */
  ghost predicate PartialsOk(partials: map<nat, Partial>, files: Files, readers: map<nat, Reader>, bytes: map<Inode, Bytes>) {
    && (forall h <- partials :: partials[h].inode in bytes)
    && (forall h <- partials :: !partials[h].finished ==> Unshared(partials[h].inode, files, readers))
    && (forall g <- partials, h <- partials :: partials[g].inode == partials[h].inode ==> g == h)
  }

  ghost predicate Below(next: nat, bytes: map<Inode, Bytes>, readers: map<nat, Reader>, partials: map<nat, Partial>, left: map<nat, Inode>) {
    (forall i <- bytes :: i < next) && (forall r <- readers :: r < next) && (forall h <- partials :: h < next) && (forall h <- left :: h < next)
  }

  class Store {
    var max: nat
    var files: Files
    var bytes: map<Inode, Bytes>
    var open: map<Path, nat>
    var partials: map<nat, Partial>             // writers of this process, by handle
    var left: map<nat, Inode>                   // unfinished files on disk, by handle
    var next: nat
    ghost var readers: map<nat, Reader>         // readers not yet closed
    ghost var accepted: set<(Path, Bytes)>      // what some commit for that path validated

    /** Published files hold accepted bytes, and nobody can write to them any more; lease counts are reader counts. */
    ghost predicate Valid()
      reads this
    {
      && max >= 1 && Below(next, bytes, readers, partials, left)
      && FilesOk(files, bytes, accepted) && ReadersOk(readers, bytes, accepted)
      && LeasesOk(open, readers) && PartialsOk(partials, files, readers, bytes)
    }

    /** A new process finds what an earlier one left on disk; nothing is leased or being written. */
    constructor (max: nat, files: Files, bytes: map<Inode, Bytes>, left: map<nat, Inode>, next: nat, ghost accepted: set<(Path, Bytes)>)
      requires max >= 1 && FilesOk(files, bytes, accepted) && Below(next, bytes, map[], map[], left)
      ensures Valid() && this.files == files && this.left == left && open == map[] && readers == map[] && this.accepted == accepted && this.max == max
    {
      this.max, this.files, this.bytes, this.left, this.next := max, files, bytes, left, next;
      open, partials := map[], map[];
      readers, this.accepted := map[], accepted;
    }

    method SetMaxBytes(maxBytes: int) returns (ok: bool)
      requires Valid()
      modifies this`max
      ensures Valid() && (ok <==> maxBytes >= 1) && max == if ok then maxBytes else old(max)
    {
      hide FilesOk, ReadersOk, LeasesOk, PartialsOk, Below;
      ok := maxBytes >= 1;
      if ok {
        max := maxBytes;
      }
    }

    /** The first part of Open, under the path lock: an empty or rejected file is removed. */
    method OpenCheck(path: Path, verdict: Verdict) returns (r: OpenResult)
      requires Valid()
      modifies this`files
      ensures Valid()
      ensures r.Candidate? <==> path in old(files) && old(files)[path].size > 0 && verdict == Accepts
      ensures r.OpenError? <==> path in old(files) && old(files)[path].size > 0 && verdict == Interrupted
      ensures r.Candidate? ==> r.inode == old(files)[path].inode
      ensures files == if path in old(files) && (old(files)[path].size == 0 || verdict == Rejects) then old(files) - {path} else old(files)
    {
      hide FilesOk, ReadersOk, LeasesOk, PartialsOk, Below;
      if path !in files {
        return Miss;
      }
      FewerFiles(files, files - {path}, bytes, accepted, partials, readers);
      if files[path].size == 0 {
        files := files - {path};
        return Miss;
      }
      var inode := files[path].inode;
      match verdict {
        case Interrupted => return OpenError;
        case Rejects =>
          files := files - {path};
          return Miss;
        case Accepts => return Candidate(inode);
      }
    }

    /** The second part, under the store lock: the file may have been evicted or replaced in between. */
    method OpenLease(path: Path, inode: Inode, cancelled: bool, now: int) returns (reader: Option<nat>)
      requires Valid()
      modifies this`files, this`open, this`readers, this`next
      ensures Valid()
      ensures reader.Some? <==> !cancelled && path in old(files) && old(files)[path].inode == inode && old(files)[path].size > 0
      ensures reader.None? ==> files == old(files) && readers == old(readers) && open == old(open)
      ensures reader.Some? ==> reader.value !in old(readers) && readers == old(readers)[reader.value := Reader(path, inode)]
      ensures reader.Some? ==> files == old(files)[path := old(files)[path].(modified := now)] && open == Leasing(old(open), path)
      ensures reader.Some? ==> inode in bytes && (path, bytes[inode]) in accepted
    {
      hide LeasesOk;
      if cancelled || path !in files || files[path].size == 0 || files[path].inode != inode {
        return None;
      }
      LeaseAdded(open, readers, next, Reader(path, inode));
      hide Leasing;
      Touched(files, path, now, bytes, accepted, partials, readers);
      NewReader(files, path, bytes, accepted, partials, readers, next);
      files := files[path := files[path].(modified := now)];
      open := Leasing(open, path);
      readers := readers[next := Reader(path, inode)];
      reader := Some(next);
      next := next + 1;
    }

    /** Closing a leased reader, once. */
    method Release(reader: nat, path: Path)
      requires Valid() && reader in readers && readers[reader].path == path
      modifies this`open, this`readers
      ensures Valid() && readers == old(readers) - {reader} && path in old(open) && open == Unleasing(old(open), path)
    {
      hide LeasesOk, FilesOk;
      LeaseDropped(open, readers, reader);
      if open[path] == 1 {
        open := open - {path};
      } else {
        open := open[path := open[path] - 1];
      }
      readers := readers - {reader};
    }

    /** A partial is a new file of its own. */
    method Begin(path: Path) returns (h: nat)
      requires Valid()
      modifies this`partials, this`left, this`bytes, this`next
      ensures Valid() && h !in old(partials) && h in partials && partials == old(partials)[h := Partial(path, partials[h].inode, false)]
      ensures partials[h].inode !in old(bytes) && bytes == old(bytes)[partials[h].inode := []]
    {
      hide LeasesOk;
      BeginOk(files, bytes, accepted, partials, readers, next, path);
      hide FilesOk, ReadersOk, PartialsOk;
      h := next;
      partials := partials[h := Partial(path, next, false)];
      left := left[h := next];
      bytes := bytes[next := []];
      next := next + 1;
    }

    /** Writing grows the partial and touches no published or open file. */
    method Write(h: nat, data: Bytes) returns (ok: bool)
      requires Valid() && h in partials
      modifies this`bytes
      ensures Valid() && (ok <==> !partials[h].finished)
      ensures bytes == if ok then old(bytes)[partials[h].inode := old(bytes)[partials[h].inode] + data] else old(bytes)
      ensures forall r <- readers :: readers[r].inode in old(bytes) && bytes[readers[r].inode] == old(bytes)[readers[r].inode]
    {
      hide LeasesOk;
      if partials[h].finished {
        return false;
      }
      var i := partials[h].inode;
      bytes := bytes[i := bytes[i] + data];
      ok := true;
    }

    method Discard(h: nat)
      requires Valid() && h in partials
      modifies this`partials, this`left
      ensures Valid() && partials == old(partials)[h := old(partials)[h].(finished := true)]
      ensures left == if old(partials)[h].finished then old(left) else old(left) - {h}
    {
      hide LeasesOk, FilesOk, ReadersOk;
      if !partials[h].finished {
        partials := partials[h := partials[h].(finished := true)];
        left := left - {h};
      }
      assert partials == old(partials)[h := old(partials)[h].(finished := true)];
    }

    /** Removes the unfinished files of earlier processes and of finished writers; active writers are protected. */
    method CleanupPartials()
      requires Valid()
      modifies this`left
      ensures Valid() && left == map h | h in old(left) && h in partials && !partials[h].finished :: old(left)[h]
    {
      hide LeasesOk, FilesOk, ReadersOk, PartialsOk;
      var todo := left.Keys;
      while todo != {}
        invariant todo <= old(left.Keys)
        invariant left == map h | h in old(left) && (h in todo || (h in partials && !partials[h].finished)) :: old(left)[h]
        decreases |todo|
      {
        var h :| h in todo;
        if !(h in partials && !partials[h].finished) {
          left := left - {h};
        }
        todo := todo - {h};
      }
    }

    /** evictLocked: it succeeds exactly when the leased files alone fit; then everything fits.  What goes is the
        shortest prefix of the unleased files, oldest first, that is enough; on failure it is every unleased file. */
    method EvictLocked() returns (ok: bool)
      modifies this`files
      ensures Evicted(old(files), open, max, files)
      ensures ok <==> Total(Leased(old(files), open)) <= max
      ensures if ok then Total(files) <= max else files == Leased(old(files), open)
    {
      hide Evicted, Lists, Total, Leased, Swept;
      ghost var before := files;
      var found, total := WalkFiles(files);
      var order := Sort(found, ByModified);
      ListsPermutes(found, order, files);
      SweptNone(before, open, order);
      for i := 0 to |order|
        invariant files == Swept(before, open, order, i) && total == Total(files)
        invariant forall k :: 0 <= k < i ==> Total(Swept(before, open, order, k)) > max
      {
        if total <= max {
          EvictionStops(before, open, max, files, order, i);
          EvictionDecided(before, open, max, files, true);
          return true;
        }
        var path := order[i].path;
        SweptNext(before, open, order, i);
        if path in open {
          continue;
        }
        total := total - order[i].size;
        files := files - {path};
      }
      EvictionStops(before, open, max, files, order, |order|);
      AllSwept(before, open, order);
      ok := total <= max;
      EvictionDecided(before, open, max, files, ok);
    }

    /** The part of Commit under both locks: a no-replace rename, then eviction. */
    method Publish(path: Path, inode: Inode, modified: int) returns (r: CommitResult)
      requires Valid() && inode in bytes && Unshared(inode, files, readers) && NotWriting(partials, inode)
      modifies this`files, this`accepted
      ensures Valid() && !r.Refused?
      ensures PublishOutcome(old(files), path, File(inode, |bytes[inode]|, modified), open, max, files, r)
      ensures accepted == if path in old(files) then old(accepted) else old(accepted) + {(path, bytes[inode])}
    {
      hide LeasesOk, PublishOutcome, Below, Total, Leased, Evicted;
      var mine := File(inode, |bytes[inode]|, modified);
      PublishOk(files, bytes, accepted, partials, readers, path, mine);
      hide FilesOk, ReadersOk, PartialsOk, Unshared, NotWriting;
      ghost var before := files;
      if path in files {
        OutcomeExists(before, path, mine, open, max);
        return Ok;
      }
      accepted := accepted + {(path, bytes[inode])};
      files := files[path := mine];
      ghost var published := files;
      if mine.size > max {
        FewerFiles(published, published - {path}, bytes, accepted, partials, readers);
        files := files - {path};
        OutcomeTooLarge(before, path, mine, open, max, inode, readers, files);
        return OverLimit;
      }
      var ok := EvictLocked();
      EvictionSpares(published, open, max, files);
      FewerFiles(published, files, bytes, accepted, partials, readers);
      if ok {
        OutcomeFits(before, path, mine, open, max, files);
        return Ok;
      }
      ghost var evicted := files;
      if path in files && files[path].inode == inode {
        FewerFiles(files, files - {path}, bytes, accepted, partials, readers);
        files := files - {path};
      }
      OutcomeFull(before, path, mine, open, max, evicted, readers, files);
      r := OverLimit;
    }

    /** Commit publishes the partial once, if its content validates and the request is still alive.  A second call
        does nothing. */
    method Commit(h: nat, verdict: Verdict, cancelled: bool, intact: bool, modified: int) returns (r: CommitResult)
      requires Valid() && h in partials
      modifies this`files, this`partials, this`left, this`accepted
      ensures Valid() && partials == old(partials)[h := old(partials)[h].(finished := true)] && partials[h].inode in bytes
      ensures r.Refused? <==> !old(partials)[h].finished && (verdict != Accepts || cancelled || !intact)
      ensures old(partials)[h].finished || r.Refused? ==> files == old(files) && accepted == old(accepted)
      ensures !old(partials)[h].finished && !r.Refused? ==>
                var path, i := partials[h].path, partials[h].inode;
                && PublishOutcome(old(files), path, File(i, |bytes[i]|, modified), open, max, files, r)
                && accepted == if path in old(files) then old(accepted) else old(accepted) + {(path, bytes[i])}
      ensures left == if old(partials)[h].finished then old(left) else old(left) - {h}
    {
      hide LeasesOk, PublishOutcome, FilesOk, ReadersOk;
      FinishOk(files, bytes, partials, readers, h);
      hide PartialsOk, Unshared, NotWriting;
      if partials[h].finished {
        assert partials == partials[h := partials[h].(finished := true)];
        return Ok;
      }
      var path, inode := partials[h].path, partials[h].inode;
      partials := partials[h := partials[h].(finished := true)];
      left := left - {h};
      if verdict != Accepts || cancelled || !intact {
        return Refused;
      }
      r := Publish(path, inode, modified);
    }
  }

  ghost predicate NotWriting(partials: map<nat, Partial>, i: Inode) {
    forall h <- partials :: partials[h].inode == i ==> partials[h].finished
  }

  /** What publication does to the published files.  An existing entry wins and nothing changes.  Otherwise the
      commit succeeds exactly when its file fits and the leased files with it do; success leaves everything within
      the limit after evicting oldest unleased files only as needed, failure leaves nothing of its own: all as it was
      when the file alone is too large, otherwise the leased files; and no other entry is ever replaced or, while
      leased, removed. */
  ghost predicate PublishOutcome(before: Files, path: Path, mine: File, open: map<Path, nat>, max: nat, after: Files, r: CommitResult) {
    && !r.Refused?
    && (path in before ==> r.Ok? && after == before)
    && (path !in before ==>
          && (r.OverLimit? <==> mine.size > max || Total(Leased(before[path := mine], open)) > max)
          && (r.Ok? ==> Evicted(before[path := mine], open, max, after) && Total(after) <= max)
          && (r.OverLimit? ==> after == (if mine.size > max then before else Leased(before, open)))
          && (r.OverLimit? ==> forall p <- after :: after[p].inode != mine.inode))
    && (forall p <- before :: (p in after ==> after[p] == before[p]) && (p in open ==> p in after))
  }

  lemma OutcomeExists(before: Files, path: Path, mine: File, open: map<Path, nat>, max: nat)
    requires path in before
    ensures PublishOutcome(before, path, mine, open, max, before, Ok)
  {}

  lemma OutcomeTooLarge(before: Files, path: Path, mine: File, open: map<Path, nat>, max: nat, inode: Inode, readers: map<nat, Reader>, after: Files)
    requires path !in before && mine.size > max && Unshared(mine.inode, before, readers) && after == before[path := mine] - {path}
    ensures PublishOutcome(before, path, mine, open, max, after, OverLimit)
  {
    assert after == before;
  }

  lemma OutcomeFits(before: Files, path: Path, mine: File, open: map<Path, nat>, max: nat, after: Files)
    requires path !in before && mine.size <= max && Evicted(before[path := mine], open, max, after)
    requires Total(after) <= max && Total(Leased(before[path := mine], open)) <= max
    ensures PublishOutcome(before, path, mine, open, max, after, Ok)
  {
    hide Total, Leased, Evicted;
    var published := before[path := mine];
    EvictionSpares(published, open, max, after);
    assert forall p <- before :: p in published && published[p] == before[p];
  }

  lemma LeasedBut(before: Files, path: Path, mine: File, open: map<Path, nat>, evicted: Files, after: Files)
    requires path !in before && evicted == Leased(before[path := mine], open)
    requires after == if path in evicted && evicted[path].inode == mine.inode then evicted - {path} else evicted
    ensures after == Leased(before, open)
  {}

  lemma OutcomeFull(before: Files, path: Path, mine: File, open: map<Path, nat>, max: nat, evicted: Files, readers: map<nat, Reader>, after: Files)
    requires path !in before && Unshared(mine.inode, before, readers)
    requires Evicted(before[path := mine], open, max, evicted) && mine.size <= max && Total(Leased(before[path := mine], open)) > max
    requires evicted == Leased(before[path := mine], open)
    requires after == if path in evicted && evicted[path].inode == mine.inode then evicted - {path} else evicted
    ensures PublishOutcome(before, path, mine, open, max, after, OverLimit)
  {
    LeasedBut(before, path, mine, open, evicted, after);
    hide Total, Leased, Evicted;
    var published := before[path := mine];
    EvictionSpares(published, open, max, evicted);
    assert forall p <- before :: p in published && published[p] == before[p];
  }

  lemma SweptNone(before: Files, open: map<Path, nat>, order: seq<CacheFile>)
    ensures Swept(before, open, order, 0) == before
  {}

  lemma SweptNext(before: Files, open: map<Path, nat>, order: seq<CacheFile>, i: nat)
    requires Lists(order, before) && i < |order|
    ensures var files, p := Swept(before, open, order, i), order[i].path;
      && p in files && Total(files) == order[i].size + Total(files - {p})
      && Swept(before, open, order, i + 1) == if p in open then files else files - {p}
  {
    NotYetSwept(before, open, order, i);
    TotalWithout(Swept(before, open, order, i), order[i].path);
  }

  lemma EvictionStops(before: Files, open: map<Path, nat>, max: nat, after: Files, order: seq<CacheFile>, i: nat)
    requires EvictedBy(before, open, max, after, order, i)
    ensures Evicted(before, open, max, after)
  {}

  lemma BeginOk(files: Files, bytes: map<Inode, Bytes>, accepted: set<(Path, Bytes)>, partials: map<nat, Partial>, readers: map<nat, Reader>, n: nat, path: Path)
    requires FilesOk(files, bytes, accepted) && ReadersOk(readers, bytes, accepted) && PartialsOk(partials, files, readers, bytes) && n !in bytes && n !in partials
    ensures var bytes', partials' := bytes[n := []], partials[n := Partial(path, n, false)];
      FilesOk(files, bytes', accepted) && ReadersOk(readers, bytes', accepted) && PartialsOk(partials', files, readers, bytes')
  {}

  /** Finishing a partial leaves its inode to its writer alone. */
  lemma FinishOk(files: Files, bytes: map<Inode, Bytes>, partials: map<nat, Partial>, readers: map<nat, Reader>, h: nat)
    requires PartialsOk(partials, files, readers, bytes) && h in partials
    ensures var partials' := partials[h := partials[h].(finished := true)];
      && PartialsOk(partials', files, readers, bytes) && NotWriting(partials', partials[h].inode)
      && partials[h].inode in bytes && (!partials[h].finished ==> Unshared(partials[h].inode, files, readers))
  {}

  /** Publishing a file of one's own under a free path. */
  lemma PublishOk(files: Files, bytes: map<Inode, Bytes>, accepted: set<(Path, Bytes)>, partials: map<nat, Partial>, readers: map<nat, Reader>, path: Path, mine: File)
    requires FilesOk(files, bytes, accepted) && ReadersOk(readers, bytes, accepted) && PartialsOk(partials, files, readers, bytes)
    requires mine.inode in bytes && mine.size == |bytes[mine.inode]| && NotWriting(partials, mine.inode)
    ensures var files', accepted' := files[path := mine], accepted + {(path, bytes[mine.inode])};
      path !in files ==> FilesOk(files', bytes, accepted') && ReadersOk(readers, bytes, accepted') && PartialsOk(partials, files', readers, bytes)
  {}

  lemma FewerFiles(files: Files, files': Files, bytes: map<Inode, Bytes>, accepted: set<(Path, Bytes)>, partials: map<nat, Partial>, readers: map<nat, Reader>)
    requires FilesOk(files, bytes, accepted) && PartialsOk(partials, files, readers, bytes)
    requires forall p <- files' :: p in files && files'[p] == files[p]
    ensures FilesOk(files', bytes, accepted) && PartialsOk(partials, files', readers, bytes)
  {}

  lemma Touched(files: Files, p: Path, now: int, bytes: map<Inode, Bytes>, accepted: set<(Path, Bytes)>, partials: map<nat, Partial>, readers: map<nat, Reader>)
    requires FilesOk(files, bytes, accepted) && PartialsOk(partials, files, readers, bytes) && p in files
    ensures var files' := files[p := files[p].(modified := now)]; FilesOk(files', bytes, accepted) && PartialsOk(partials, files', readers, bytes)
  {}

  /** A reader of a published file never shares an inode with an unfinished partial. */
  lemma NewReader(files: Files, p: Path, bytes: map<Inode, Bytes>, accepted: set<(Path, Bytes)>, partials: map<nat, Partial>, readers: map<nat, Reader>, r: nat)
    requires FilesOk(files, bytes, accepted) && ReadersOk(readers, bytes, accepted) && PartialsOk(partials, files, readers, bytes) && p in files && r !in readers
    ensures var readers' := readers[r := Reader(p, files[p].inode)]; ReadersOk(readers', bytes, accepted) && PartialsOk(partials, files, readers', bytes)
  {}
}
