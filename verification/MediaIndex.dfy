/** The media table and the folder index derived from it.  The hashed identifiers of the program are taken to be
    injective, so a folder is identified by its root alias and path, and the empty parent by Top. */
module MediaIndex {
  import opened Prelude

  datatype FolderId = Top | Folder(alias: string, path: string)

  datatype Key = Key(alias: string, path: string)

  datatype Media = Media(parent: FolderId, available: bool, metadata: string)

  datatype FolderRow = FolderRow(parent: FolderId, name: string, available: bool)

  datatype Record = Record(path: string, metadata: string)

  type MediaTable = map<Key, Media>
  type FolderTable = map<FolderId, FolderRow>

  // --------------------------------------------------------------------- paths

  /** One past the last slash among the first n characters, or zero. */
  function NameStart(path: string, n: nat): (k: nat)
    requires n <= |path|
    ensures k <= n && (k > 0 ==> path[k - 1] == '/') && forall i :: k <= i < n ==> path[i] != '/'
  {
    if n == 0 then 0 else if path[n - 1] == '/' then n else NameStart(path, n - 1)
  }

  /** The directory that the first n characters lie in. */
  function ParentUpTo(alias: string, path: string, n: nat): FolderId
    requires n <= |path|
  {
    var k := NameStart(path, n);
    if k == 0 then Top else Folder(alias, path[..k - 1])
  }

  function ParentOf(alias: string, path: string): FolderId {
    ParentUpTo(alias, path, |path|)
  }

  function NameOf(path: string): string {
    path[NameStart(path, |path|)..]
  }

  /** dir is a proper directory prefix of path. */
  predicate DirectoryOf(path: string, dir: string) {
    |dir| < |path| && path[|dir|] == '/' && path[..|dir|] == dir
  }

  /** The row of folder f is determined by its path. */
  function RowFor(f: FolderId, available: bool): FolderRow
    requires f.Folder?
  {
    FolderRow(ParentOf(f.alias, f.path), NameOf(f.path), available)
  }

  lemma {:induction false} NameStartPrefix(path: string, n: nat, k: nat)
    requires n <= k <= |path|
    ensures NameStart(path[..k], n) == NameStart(path, n)
  {
    if n > 0 {
      NameStartPrefix(path, n - 1, k);
    }
  }

  /** At a slash, the running parent and start of the scan are those of the directory that ends here. */
  lemma DirectoryRow(alias: string, path: string, i: nat)
    requires i < |path| && path[i] == '/'
    ensures RowFor(Folder(alias, path[..i]), true) == FolderRow(ParentUpTo(alias, path, i), path[NameStart(path, i)..i], true)
  {
    NameStartPrefix(path, i, i);
    var k, dir := NameStart(path, i), path[..i];
    assert NameStart(dir, |dir|) == k && dir[k..] == path[k..i];
    assert k > 0 ==> dir[..k - 1] == path[..k - 1];
  }

  /** The directory of a path is one of its directory prefixes, and prefixes of it are prefixes of the path. */
  lemma ParentIsPrefix(alias: string, path: string)
    ensures ParentOf(alias, path).Folder? ==> DirectoryOf(path, ParentOf(alias, path).path) && ParentOf(alias, path).alias == alias
    ensures forall dir :: DirectoryOf(path, dir) ==> ParentOf(alias, path).Folder? && (dir == ParentOf(alias, path).path || DirectoryOf(ParentOf(alias, path).path, dir))
    ensures forall dir :: ParentOf(alias, path).Folder? && DirectoryOf(ParentOf(alias, path).path, dir) ==> DirectoryOf(path, dir)
  {
    var k := NameStart(path, |path|);
    forall dir | DirectoryOf(path, dir)
      ensures k > 0 && (dir == path[..k - 1] || DirectoryOf(path[..k - 1], dir))
    {
      assert |dir| < k;
      if |dir| < k - 1 {
        assert path[..k - 1][..|dir|] == path[..|dir|];
      }
    }
    if k > 0 {
      forall dir | DirectoryOf(path[..k - 1], dir) ensures DirectoryOf(path, dir) {
        assert path[..k - 1][..|dir|] == path[..|dir|];
      }
    }
  }

  // ------------------------------------------------------------- the specification

  function HideMedia(media: MediaTable, alias: string): MediaTable {
    map k | k in media :: if k.alias == alias then media[k].(available := false) else media[k]
  }

  function HideFolders(folders: FolderTable, alias: string): FolderTable {
    map f | f in folders :: if f.Folder? && f.alias == alias then folders[f].(available := false) else folders[f]
  }

  function Upsert(media: MediaTable, alias: string, r: Record): MediaTable {
    media[Key(alias, r.path) := Media(ParentOf(alias, r.path), true, r.metadata)]
  }

  function UpsertAll(media: MediaTable, alias: string, records: seq<Record>): MediaTable {
    if records == [] then media else Upsert(UpsertAll(media, alias, records[..|records| - 1]), alias, records[|records| - 1])
  }

  ghost predicate Scanned(records: seq<Record>, path: string) {
    exists i :: 0 <= i < |records| && records[i].path == path
  }

  /** Record i is the last one of a scan for its path; its facts are the ones that are stored. */
  ghost predicate LastFor(records: seq<Record>, i: nat) {
    i < |records| && forall j :: i < j < |records| ==> records[j].path != records[i].path
  }

  /** What a scan of alias makes of the media table: the last record for a path is stored under it with everything it
      says, a row of the alias that was not found is kept but unavailable, and rows of other roots are untouched. */
  ghost predicate Refreshed(before: MediaTable, alias: string, records: seq<Record>, after: MediaTable) {
    && (forall k :: k in after <==> k in before || (k.alias == alias && Scanned(records, k.path)))
    && (forall i: nat {:trigger LastFor(records, i)} :: LastFor(records, i) ==>
          Key(alias, records[i].path) in after
          && after[Key(alias, records[i].path)] == Media(ParentOf(alias, records[i].path), true, records[i].metadata))
    && (forall k <- before :: k.alias == alias && !Scanned(records, k.path) ==> after[k] == Media(before[k].parent, false, before[k].metadata))
    && (forall k <- before :: k.alias != alias ==> after[k] == before[k])
  }

  ghost predicate Above(records: seq<Record>, dir: string) {
    exists i :: 0 <= i < |records| && DirectoryOf(records[i].path, dir)
  }

  /** The folders that a scan of alias needs: the directory prefixes of its records. */
  ghost predicate Needed(alias: string, records: seq<Record>, f: FolderId) {
    f.Folder? && f.alias == alias && Above(records, f.path)
  }

  ghost predicate IsMediaPrefix(media: MediaTable, f: FolderId) {
    f.Folder? && exists k <- media :: k.alias == f.alias && media[k].available && DirectoryOf(k.path, f.path)
  }

  /** The index agrees with the paths: every media row knows its directory, every folder row is the one its path
      determines, and the available folders are exactly the proper directory prefixes of available media. */
  ghost predicate Agrees(media: MediaTable, folders: FolderTable) {
    && (forall k <- media :: media[k].parent == ParentOf(k.alias, k.path))
    && (forall f <- folders :: f.Folder? && folders[f] == RowFor(f, folders[f].available))
    && (forall f {:trigger IsMediaPrefix(media, f)} :: (f in folders && folders[f].available) <==> IsMediaPrefix(media, f))
  }

  /** Folder rows after a scan: the needed ones are as their paths determine and available, the rest as before. */
  ghost predicate Rebuilt(hidden: FolderTable, alias: string, records: seq<Record>, folders: FolderTable) {
    && (forall f {:trigger Needed(alias, records, f)} :: Needed(alias, records, f) ==> f in folders && folders[f] == RowFor(f, true))
    && (forall f {:trigger Needed(alias, records, f)} :: !Needed(alias, records, f) ==>
          (f in folders <==> f in hidden) && (f in folders ==> folders[f] == hidden[f]))
  }

  /** The folder map holds exactly the directories of the first n records. */
  ghost predicate Collected(found: FolderTable, alias: string, records: seq<Record>, n: nat)
    requires n <= |records|
  {
    && (forall f <- found :: Needed(alias, records[..n], f) && found[f] == RowFor(f, true))
    && (forall f {:trigger Needed(alias, records[..n], f)} :: Needed(alias, records[..n], f) ==> f in found)
  }

  /** Folder f of alias is a directory of path that ends before position n. */
  predicate Passed(alias: string, path: string, n: nat, f: FolderId) {
    f.Folder? && f.alias == alias && |f.path| < n && DirectoryOf(path, f.path)
  }

  lemma PassedStep(alias: string, path: string, n: nat)
    requires n < |path|
    ensures forall f {:trigger Passed(alias, path, n + 1, f)} ::
              Passed(alias, path, n + 1, f) <==> Passed(alias, path, n, f) || (path[n] == '/' && f == Folder(alias, path[..n]))
  {}

  ghost predicate DeterminedRows(found: FolderTable) {
    forall f <- found :: f.Folder? && found[f] == RowFor(f, true)
  }

  /** The scan of one path for slashes: every directory on the way gets its row, the last one is the parent. */
  method WalkDirectories(alias: string, path: string, available: bool, found: FolderTable) returns (found': FolderTable, parent: FolderId)
    requires DeterminedRows(found)
    ensures parent == ParentOf(alias, path) && DeterminedRows(found')
    ensures forall f :: f in found' <==> f in found || (available && Passed(alias, path, |path|, f))
  {
    hide Passed;
    found' := found;
    parent := Top;
    var start := 0;
    NonePassed(alias, path);
    for i := 0 to |path|
      invariant parent == ParentUpTo(alias, path, i) && start == NameStart(path, i)
      invariant DeterminedRows(found')
      invariant forall f :: f in found' <==> f in found || (available && Passed(alias, path, i, f))
    {
      PassedStep(alias, path, i);
      if path[i] != '/' {
        continue;
      }
      DirectoryRow(alias, path, i);
      var id := Folder(alias, path[..i]);
      if available {
        found' := found'[id := FolderRow(parent, path[start..i], true)];
      }
      parent := id;
      start := i + 1;
    }
  }

  lemma NonePassed(alias: string, path: string)
    ensures forall f {:trigger Passed(alias, path, 0, f)} :: !Passed(alias, path, 0, f)
  {}

  // ------------------------------------------------------------------- the store

  class Store {
    var media: MediaTable
    var folders: FolderTable

    constructor ()
      ensures media == map[] && folders == map[] && Agrees(media, folders)
    {
      media, folders := map[], map[];
    }

    method WriteFolders(found: FolderTable)
      modifies this`folders
      ensures folders == old(folders) + found
    {
      var todo := found.Keys;
      while todo != {}
        invariant todo <= found.Keys
        invariant folders.Keys == old(folders).Keys + (found.Keys - todo)
        invariant forall f <- folders :: folders[f] == if f in found && f !in todo then found[f] else old(folders)[f]
        decreases |todo|
      {
        var id :| id in todo;
        folders := folders[id := found[id]];
        todo := todo - {id};
      }
    }

    /** A root scan is authoritative for its alias: what it found is available, everything else of the alias is not. */
    method Sync(alias: string, records: seq<Record>)
      modifies this
      ensures Refreshed(old(media), alias, records, media)
      ensures media == UpsertAll(HideMedia(old(media), alias), alias, records)
      ensures Rebuilt(HideFolders(old(folders), alias), alias, records, folders)
      ensures old(Agrees(media, folders)) ==> Agrees(media, folders)
    {
      hide Agrees, HideMedia, HideFolders, UpsertAll, Collected, Rebuilt, Passed, DeterminedRows, ParentOf, Refreshed;
      media := HideMedia(media, alias);
      folders := HideFolders(folders, alias);
      var found: FolderTable := map[];
      ghost var hidden, hiddenFolders := media, folders;
      NothingYet(hidden, alias, records);
      for n := 0 to |records|
        invariant media == UpsertAll(hidden, alias, records[..n]) && folders == hiddenFolders
        invariant DeterminedRows(found) && Collected(found, alias, records, n)
      {
        var parentID;
        ghost var before := found;
        found, parentID := WalkDirectories(alias, records[n].path, true, found);
        CollectedStep(before, found, alias, records, n);
        UpsertStep(hidden, alias, records, n);
        media := media[Key(alias, records[n].path) := Media(parentID, true, records[n].metadata)];
      }
      assert records[..|records|] == records;
      WriteFolders(found);
      AllWritten(hiddenFolders, found, alias, records, folders);
      UpsertAllRefreshes(old(media), alias, records);
      if old(Agrees(media, folders)) {
        SyncAgrees(old(media), old(folders), alias, records, folders);
      }
    }

    method RemoveRoots(aliases: seq<string>)
      modifies this
      ensures media.Keys == old(media.Keys) && forall k <- media :: media[k] == if k.alias in aliases then old(media)[k].(available := false) else old(media)[k]
      ensures old(Agrees(media, folders)) ==> Agrees(media, folders)
    {
      for n := 0 to |aliases|
        invariant media.Keys == old(media.Keys)
        invariant forall k <- media :: media[k] == if k.alias in aliases[..n] then old(media)[k].(available := false) else old(media)[k]
        invariant old(Agrees(media, folders)) ==> Agrees(media, folders)
      {
        if old(Agrees(media, folders)) {
          HideAgrees(media, folders, aliases[n]);
        }
        assert aliases[..n + 1] == aliases[..n] + [aliases[n]];
        media := HideMedia(media, aliases[n]);
        folders := HideFolders(folders, aliases[n]);
      }
      assert aliases[..|aliases|] == aliases;
    }

    /** Afterwards exactly the media of configured roots that were available are available. */
    method ReconcileRoots(configured: set<string>)
      modifies this
      ensures media.Keys == old(media.Keys)
      ensures forall k <- media :: media[k] == old(media)[k].(available := old(media)[k].available && k.alias in configured)
      ensures old(Agrees(media, folders)) ==> Agrees(media, folders)
    {
      var rows := set k | k in media && media[k].available :: k.alias;
      var removed: seq<string> := [];
      while rows != {}
        invariant forall k <- media :: media[k].available && k.alias !in rows ==> k.alias in configured || k.alias in removed
        invariant forall a <- removed :: a !in configured
        decreases |rows|
      {
        var alias :| alias in rows;
        if alias !in configured {
          removed := removed + [alias];
        }
        rows := rows - {alias};
      }
      RemoveRoots(removed);
    }
  }

  lemma NeededStep(alias: string, records: seq<Record>, n: nat)
    requires n < |records|
    ensures forall f :: Needed(alias, records[..n + 1], f) <==>
              Needed(alias, records[..n], f) || (f.Folder? && f.alias == alias && DirectoryOf(records[n].path, f.path))
  {
    forall f: FolderId | f.Folder? && f.alias == alias
      ensures Above(records[..n + 1], f.path) <==> Above(records[..n], f.path) || DirectoryOf(records[n].path, f.path)
    {
      if Above(records[..n], f.path) {
        var i :| 0 <= i < n && DirectoryOf(records[..n][i].path, f.path);
        assert records[..n + 1][i] == records[i];
      }
      if DirectoryOf(records[n].path, f.path) {
        assert records[..n + 1][n] == records[n];
      }
    }
  }

  lemma NothingYet(hidden: MediaTable, alias: string, records: seq<Record>)
    ensures Collected(map[], alias, records, 0) && DeterminedRows(map[]) && UpsertAll(hidden, alias, records[..0]) == hidden
  {}

  lemma UpsertStep(hidden: MediaTable, alias: string, records: seq<Record>, n: nat)
    requires n < |records|
    ensures UpsertAll(hidden, alias, records[..n + 1]) == Upsert(UpsertAll(hidden, alias, records[..n]), alias, records[n])
  {
    assert records[..n + 1][..n] == records[..n];
  }

  lemma AllWritten(hidden: FolderTable, found: FolderTable, alias: string, records: seq<Record>, folders: FolderTable)
    requires Collected(found, alias, records, |records|) && DeterminedRows(found)
    requires folders == hidden + found
    ensures Rebuilt(hidden, alias, records, folders)
  {
    assert records[..|records|] == records;
  }

  lemma CollectedStep(found: FolderTable, found': FolderTable, alias: string, records: seq<Record>, n: nat)
    requires n < |records| && Collected(found, alias, records, n) && DeterminedRows(found')
    requires forall f :: f in found' <==> f in found || Passed(alias, records[n].path, |records[n].path|, f)
    ensures Collected(found', alias, records, n + 1)
  {
    NeededStep(alias, records, n);
    hide Needed;
    forall f ensures f in found' <==> Needed(alias, records[..n + 1], f) {
      assert f in found <==> Needed(alias, records[..n], f);
    }
  }

  lemma {:induction false} UpsertAllMeans(media: MediaTable, alias: string, records: seq<Record>, k: Key)
    ensures var m := UpsertAll(media, alias, records);
      && (k in m <==> k in media || (k.alias == alias && Scanned(records, k.path)))
      && (k.alias == alias && Scanned(records, k.path) ==> m[k].available && m[k].parent == ParentOf(alias, k.path))
      && (!(k.alias == alias && Scanned(records, k.path)) && k in media ==> m[k] == media[k])
  {
    if records != [] {
      var n := |records| - 1;
      UpsertAllMeans(media, alias, records[..n], k);
      assert Scanned(records, k.path) <==> Scanned(records[..n], k.path) || records[n].path == k.path by {
        if Scanned(records[..n], k.path) {
          var i :| 0 <= i < n && records[..n][i].path == k.path;
          assert records[i].path == k.path;
        }
      }
    }
  }

  lemma {:induction false} UpsertAllStores(media: MediaTable, alias: string, records: seq<Record>, i: nat)
    requires LastFor(records, i)
    ensures var m, k := UpsertAll(media, alias, records), Key(alias, records[i].path);
      k in m && m[k] == Media(ParentOf(alias, records[i].path), true, records[i].metadata)
  {
    var n := |records| - 1;
    hide ParentOf;
    if i < n {
      assert records[n].path != records[i].path;
      assert LastFor(records[..n], i);
      UpsertAllStores(media, alias, records[..n], i);
    }
  }

  lemma UpsertAllRefreshes(media: MediaTable, alias: string, records: seq<Record>)
    ensures Refreshed(media, alias, records, UpsertAll(HideMedia(media, alias), alias, records))
  {
    var hidden := HideMedia(media, alias);
    forall i: nat | LastFor(records, i)
      ensures var m, k := UpsertAll(hidden, alias, records), Key(alias, records[i].path);
        k in m && m[k] == Media(ParentOf(alias, records[i].path), true, records[i].metadata)
    {
      UpsertAllStores(hidden, alias, records, i);
    }
    forall k: Key
      ensures k in UpsertAll(hidden, alias, records) <==> k in media || (k.alias == alias && Scanned(records, k.path))
      ensures k in media && !(k.alias == alias && Scanned(records, k.path)) ==> UpsertAll(hidden, alias, records)[k] == hidden[k]
    {
      UpsertAllMeans(hidden, alias, records, k);
    }
    hide UpsertAll, LastFor, ParentOf;
  }

  /** A scan keeps the index in agreement. */
  lemma SyncAgrees(media: MediaTable, folders: FolderTable, alias: string, records: seq<Record>, folders': FolderTable)
    requires Agrees(media, folders)
    requires Rebuilt(HideFolders(folders, alias), alias, records, folders')
    ensures Agrees(UpsertAll(HideMedia(media, alias), alias, records), folders')
  {
    var media' := UpsertAll(HideMedia(media, alias), alias, records);
    forall k | k in media' ensures media'[k].parent == ParentOf(k.alias, k.path) {
      UpsertAllMeans(HideMedia(media, alias), alias, records, k);
    }
    forall f | f in folders' ensures f.Folder? && folders'[f] == RowFor(f, folders'[f].available) {
      assert Needed(alias, records, f) || !Needed(alias, records, f);
    }
    forall f {:trigger IsMediaPrefix(media', f)} ensures (f in folders' && folders'[f].available) <==> IsMediaPrefix(media', f) {
      assert IsMediaPrefix(media, f) <==> f in folders && folders[f].available;
      assert Needed(alias, records, f) || !Needed(alias, records, f);
      if f.Folder? && f.alias == alias {
        SyncSameAlias(media, alias, records, f.path);
      } else if f.Folder? {
        SyncOtherAlias(media, alias, records, f);
      }
    }
  }

  lemma SyncSameAlias(media: MediaTable, alias: string, records: seq<Record>, dir: string)
    ensures IsMediaPrefix(UpsertAll(HideMedia(media, alias), alias, records), Folder(alias, dir)) <==> Above(records, dir)
  {
    var media' := UpsertAll(HideMedia(media, alias), alias, records);
    forall k: Key ensures k.alias == alias ==> ((k in media' && media'[k].available) <==> Scanned(records, k.path)) {
      UpsertAllMeans(HideMedia(media, alias), alias, records, k);
    }
    if Above(records, dir) {
      var i :| 0 <= i < |records| && DirectoryOf(records[i].path, dir);
      assert Scanned(records, records[i].path);
      assert Key(alias, records[i].path) in media';
    }
  }

  lemma SyncOtherAlias(media: MediaTable, alias: string, records: seq<Record>, f: FolderId)
    requires f.Folder? && f.alias != alias
    ensures IsMediaPrefix(UpsertAll(HideMedia(media, alias), alias, records), f) <==> IsMediaPrefix(media, f)
  {
    var media' := UpsertAll(HideMedia(media, alias), alias, records);
    forall k: Key | k.alias == f.alias ensures (k in media' <==> k in media) && (k in media ==> media'[k] == media[k]) {
      UpsertAllMeans(HideMedia(media, alias), alias, records, k);
    }
  }

  /** Hiding a root keeps the index in agreement. */
  lemma HideAgrees(media: MediaTable, folders: FolderTable, alias: string)
    requires Agrees(media, folders)
    ensures Agrees(HideMedia(media, alias), HideFolders(folders, alias))
  {
    var media', folders' := HideMedia(media, alias), HideFolders(folders, alias);
    forall f {:trigger IsMediaPrefix(media', f)} ensures (f in folders' && folders'[f].available) <==> IsMediaPrefix(media', f) {
      assert IsMediaPrefix(media, f) <==> f in folders && folders[f].available;
      if IsMediaPrefix(media, f) && f.alias != alias {
        var k :| k in media && k.alias == f.alias && media[k].available && DirectoryOf(k.path, f.path);
        assert k in media';
      }
    }
  }

  // ------------------------------------------------------------------ migration

  datatype Raw = Raw(available: bool, metadata: string)

  /** What a media row was before the folder index existed. */
  function Stripped(media: MediaTable): map<Key, Raw> {
    map k | k in media :: Raw(media[k].available, media[k].metadata)
  }

  ghost predicate AllAvailable(folders: FolderTable) {
    forall f <- folders :: folders[f].available
  }

  /** The upgrade scans all rows, gives every row its parent and creates a row for each directory of available media. */
  method MigrateFolders(rows: map<Key, Raw>) returns (media: MediaTable, folders: FolderTable)
    ensures Stripped(media) == rows && Agrees(media, folders) && AllAvailable(folders)
    ensures media.Keys == rows.Keys && forall k <- media :: media[k] == Media(ParentOf(k.alias, k.path), rows[k].available, rows[k].metadata)
  {
    hide Passed, DirectoryOf, ParentOf;
    folders := map[];
    var updates: map<Key, FolderId> := map[];
    var todo := rows.Keys;
    while todo != {}
      invariant todo <= rows.Keys && updates.Keys <= rows.Keys - todo
      invariant DeterminedRows(folders)
      invariant forall k <- rows :: k !in todo ==> (if k in updates then updates[k] else Top) == ParentOf(k.alias, k.path)
      invariant forall f <- folders :: exists k <- rows :: Holds(rows, k, f)
      invariant forall k, f {:trigger Holds(rows, k, f)} :: k in rows && k !in todo && Holds(rows, k, f) ==> f in folders
      decreases |todo|
    {
      var k :| k in todo;
      var parent;
      ghost var before := folders;
      folders, parent := WalkDirectories(k.alias, k.path, rows[k].available, folders);
      if parent != Top {
        updates := updates[k := parent];
      }
      todo := todo - {k};
      forall f | f in folders ensures exists k <- rows :: Holds(rows, k, f) {
        assert f in before || Holds(rows, k, f) by { PassedAll(rows, k, f); }
      }
      forall f | Holds(rows, k, f) ensures f in folders { PassedAll(rows, k, f); }
    }
    media := map k | k in rows :: Media(if k in updates then updates[k] else Top, rows[k].available, rows[k].metadata);
    MigratedAgrees(rows, media, folders);
  }

  ghost predicate Holds(rows: map<Key, Raw>, k: Key, f: FolderId)
    requires k in rows
  {
    rows[k].available && f.Folder? && f.alias == k.alias && DirectoryOf(k.path, f.path)
  }

  lemma PassedAll(rows: map<Key, Raw>, k: Key, f: FolderId)
    requires k in rows
    ensures Holds(rows, k, f) <==> rows[k].available && Passed(k.alias, k.path, |k.path|, f)
  {}

  lemma MigratedAgrees(rows: map<Key, Raw>, media: MediaTable, folders: FolderTable)
    requires Stripped(media) == rows && DeterminedRows(folders)
    requires forall k <- media :: media[k].parent == ParentOf(k.alias, k.path)
    requires forall f <- folders :: exists k <- rows :: Holds(rows, k, f)
    requires forall k, f {:trigger Holds(rows, k, f)} :: k in rows && Holds(rows, k, f) ==> f in folders
    ensures Agrees(media, folders) && AllAvailable(folders)
  {
    forall f {:trigger IsMediaPrefix(media, f)} ensures (f in folders && folders[f].available) <==> IsMediaPrefix(media, f) {
      if f in folders {
        var k :| k in rows && Holds(rows, k, f);
        assert k in Stripped(media);
        assert k in media && media[k].available;
      }
      if IsMediaPrefix(media, f) {
        var k :| k in media && k.alias == f.alias && media[k].available && DirectoryOf(k.path, f.path);
        assert Stripped(media)[k] == rows[k];
        assert Holds(rows, k, f);
      }
    }
  }

  /** The available part of the folder table. */
  function Shown(folders: FolderTable): FolderTable {
    map f | f in folders && folders[f].available :: folders[f]
  }

  /** Agreement leaves no choice: the paths alone determine every parent and every available folder row.  So the
      migration builds the very index that scans would have built over the same rows. */
  lemma IndexIsDetermined(a: MediaTable, af: FolderTable, b: MediaTable, bf: FolderTable)
    requires Agrees(a, af) && Agrees(b, bf) && Stripped(a) == Stripped(b)
    ensures a == b && Shown(af) == Shown(bf)
  {
    forall k | k in a || k in b ensures k in a && k in b && a[k] == b[k] {
      assert k in Stripped(a) && k in Stripped(b) && Stripped(a)[k] == Stripped(b)[k];
    }
    assert a == b;
    forall f ensures (f in af && af[f].available) <==> (f in bf && bf[f].available) {
      assert IsMediaPrefix(a, f) <==> IsMediaPrefix(b, f);
    }
  }

  // ------------------------------------------------------------------- browsing

  /** order lists every media key once, as ORDER BY id does. */
  ghost predicate IsOrder(order: seq<Key>, media: MediaTable) {
    multiset(order) == multiset(media.Keys)
  }

  predicate InFolder(media: MediaTable, f: FolderId, k: Key) {
    k in media && media[k].available && media[k].parent == f
  }

  function FolderItems(order: seq<Key>, media: MediaTable, f: FolderId): seq<Key> {
    if order == [] then [] else (if InFolder(media, f, order[0]) then [order[0]] else []) + FolderItems(order[1..], media, f)
  }

  lemma {:induction false} FolderItemsConcat(a: seq<Key>, b: seq<Key>, media: MediaTable, f: FolderId)
    ensures FolderItems(a + b, media, f) == FolderItems(a, media, f) + FolderItems(b, media, f)
  {
    if a == [] {
      assert a + b == b;
    } else {
      FolderItemsConcat(a[1..], b, media, f);
      assert (a + b)[1..] == a[1..] + b && (a + b)[0] == a[0];
      JoinThree(if InFolder(media, f, a[0]) then [a[0]] else [], FolderItems(a[1..], media, f), FolderItems(b, media, f));
    }
  }

  lemma JoinThree(a: seq<Key>, b: seq<Key>, c: seq<Key>)
    ensures a + (b + c) == a + b + c
  {}

  lemma {:induction false} FolderItemsCount(order: seq<Key>, media: MediaTable, f: FolderId, k: Key)
    ensures multiset(FolderItems(order, media, f))[k] == if InFolder(media, f, k) then multiset(order)[k] else 0
  {
    if order != [] {
      FolderItemsCount(order[1..], media, f, k);
      assert order == [order[0]] + order[1..];
    }
  }

  /** The children that Browse returns, all at once. */
  function Children(folders: FolderTable, f: FolderId): set<FolderId> {
    set c | c in folders && folders[c].available && folders[c].parent == f
  }

  function PageLimit(requested: int): nat {
    if requested <= 0 then 100 else if requested > 500 then 500 else requested
  }

  /** One page of a folder's items, full whenever more follow: after is how many keys lie at or before the cursor. */
  method BrowseItems(order: seq<Key>, media: MediaTable, f: FolderId, after: nat, requested: int) returns (items: seq<Key>, next: Option<nat>)
    requires after <= |order|
    ensures |items| <= PageLimit(requested) && (next.Some? ==> |items| == PageLimit(requested))
    ensures next.Some? ==> |items| == if 1 <= requested <= 500 then requested else if requested < 1 then 100 else 500
    ensures next.None? ==> items == FolderItems(order[after..], media, f)
    ensures next.Some? ==>
              && after < next.value <= |order| && items == FolderItems(order[after..next.value], media, f)
              && |items| > 0 && order[next.value - 1] == items[|items| - 1] && FolderItems(order[next.value..], media, f) != []
  {
    hide FolderItems, InFolder;
    var limit := PageLimit(requested);
    items := [];
    var last := after;
    FolderItemsNone(order, media, f, after);
    for i := after to |order|
      invariant after <= last <= i && |items| <= limit
      invariant items == FolderItems(order[after..i], media, f) == FolderItems(order[after..last], media, f)
      invariant items != [] ==> after < last && order[last - 1] == items[|items| - 1]
    {
      FolderItemsStep(order, media, f, after, i);
      if InFolder(media, f, order[i]) {
        if |items| == limit {
          StillMore(order, media, f, last, i);
          return items, Some(last);
        }
        items := items + [order[i]];
        last := i + 1;
      }
    }
    assert order[after..|order|] == order[after..];
    next := None;
  }

  lemma FolderItemsNone(order: seq<Key>, media: MediaTable, f: FolderId, a: nat)
    requires a <= |order|
    ensures FolderItems(order[a..a], media, f) == []
  {}

  lemma FolderItemsStep(order: seq<Key>, media: MediaTable, f: FolderId, a: nat, i: nat)
    requires a <= i < |order|
    ensures FolderItems(order[a..i + 1], media, f) ==
      if InFolder(media, f, order[i]) then FolderItems(order[a..i], media, f) + [order[i]] else FolderItems(order[a..i], media, f)
  {
    assert order[a..i + 1] == order[a..i] + [order[i]];
    FolderItemsConcat(order[a..i], [order[i]], media, f);
    OneItem(media, f, order[i]);
  }

  lemma OneItem(media: MediaTable, f: FolderId, k: Key)
    ensures FolderItems([k], media, f) == if InFolder(media, f, k) then [k] else []
  {
    assert [k][1..] == [];
  }

  lemma {:induction false} StillMore(order: seq<Key>, media: MediaTable, f: FolderId, from: nat, i: nat)
    requires from <= i < |order| && InFolder(media, f, order[i])
    ensures FolderItems(order[from..], media, f) != []
  {
    assert order[from..] == order[from..i] + order[i..];
    FolderItemsConcat(order[from..i], order[i..], media, f);
    assert order[i..][0] == order[i];
  }

  ghost predicate Node(folders: FolderTable, f: FolderId) {
    f == Top || (f in folders && folders[f].available)
  }

  /** In an agreeing index every available folder hangs under Top or under another available folder with a shorter path,
      and every available item lies in Top or in an available folder. */
  lemma ParentIsNode(media: MediaTable, folders: FolderTable, f: FolderId)
    requires Agrees(media, folders) && f in folders && folders[f].available
    ensures f.Folder? && Node(folders, folders[f].parent) && (folders[f].parent.Folder? ==> |folders[f].parent.path| < |f.path|)
  {
    assert IsMediaPrefix(media, f);
    ParentIsPrefix(f.alias, f.path);
    var p := folders[f].parent;
    if p.Folder? {
      var k :| k in media && k.alias == f.alias && media[k].available && DirectoryOf(k.path, f.path);
      assert k.path[..|f.path|][..|p.path|] == k.path[..|p.path|];
      assert DirectoryOf(k.path, p.path);
      assert IsMediaPrefix(media, p);
    }
  }

  lemma ItemParentIsNode(media: MediaTable, folders: FolderTable, k: Key)
    requires Agrees(media, folders) && k in media && media[k].available
    ensures Node(folders, media[k].parent)
  {
    ParentIsPrefix(k.alias, k.path);
    if media[k].parent.Folder? {
      assert IsMediaPrefix(media, media[k].parent);
    }
  }

  /** A set of folders closed under children, and holding Top, holds every available folder. */
  lemma {:induction false} ClosedIsAll(media: MediaTable, folders: FolderTable, done: set<FolderId>, f: FolderId)
    requires Agrees(media, folders) && Top in done && Node(folders, f)
    requires forall c <- folders :: folders[c].available && folders[c].parent in done ==> c in done
    ensures f in done
    decreases if f.Folder? then |f.path| + 1 else 0
  {
    if f != Top {
      ParentIsNode(media, folders, f);
      ClosedIsAll(media, folders, done, folders[f].parent);
    }
  }

  ghost function Nodes(folders: FolderTable): set<FolderId> {
    {Top} + set f | f in folders && folders[f].available
  }

  /** done are the folders opened so far, todo those listed by them and not yet opened. */
  ghost predicate Frontier(folders: FolderTable, todo: set<FolderId>, done: set<FolderId>) {
    && todo !! done && todo + done <= Nodes(folders) && Top in todo + done
    && forall c <- folders :: folders[c].available ==> (c in todo + done <==> folders[c].parent in done)
  }

  lemma FrontierIntro(folders: FolderTable, todo: set<FolderId>, done: set<FolderId>)
    requires todo !! done && todo + done <= Nodes(folders) && Top in todo + done
    requires forall c | c in folders && folders[c].available :: c in todo + done <==> folders[c].parent in done
    ensures Frontier(folders, todo, done)
  {}

  lemma ChildrenAreNew(media: MediaTable, folders: FolderTable, todo: set<FolderId>, done: set<FolderId>, f: FolderId)
    requires Agrees(media, folders) && Frontier(folders, todo, done) && f in todo
    ensures Children(folders, f) !! todo + done && f !in Children(folders, f) && Children(folders, f) <= Nodes(folders) && Top !in folders
  {
    hide Agrees;
    if f in Children(folders, f) {
      ParentIsNode(media, folders, f);
    }
    TopIsNoFolder(media, folders);
  }

  lemma FrontierStep(media: MediaTable, folders: FolderTable, todo: set<FolderId>, done: set<FolderId>, f: FolderId)
    requires Agrees(media, folders) && Frontier(folders, todo, done) && f in todo
    ensures Frontier(folders, todo - {f} + Children(folders, f), done + {f})
  {
    ChildrenAreNew(media, folders, todo, done, f);
    hide Agrees, Nodes;
    var kids := Children(folders, f);
    Reshuffle(todo, done, kids, f, Nodes(folders));
    forall c | c in folders && folders[c].available
      ensures c in todo - {f} + kids + (done + {f}) <==> folders[c].parent in done + {f}
    {
      assert c in todo + done <==> folders[c].parent in done;
      assert c in kids <==> folders[c].parent == f;
    }
    hide Frontier;
    FrontierIntro(folders, todo - {f} + kids, done + {f});
  }

  lemma Reshuffle(todo: set<FolderId>, done: set<FolderId>, kids: set<FolderId>, f: FolderId, nodes: set<FolderId>)
    requires todo !! done && kids !! todo + done && f in todo && todo + done <= nodes && kids <= nodes
    ensures todo - {f} + kids !! done + {f}
    ensures todo - {f} + kids + (done + {f}) == todo + done + kids
    ensures todo + done + kids <= nodes
  {}

  lemma FewerNodes(folders: FolderTable, done: set<FolderId>, f: FolderId)
    requires f in Nodes(folders) - done
    ensures |Nodes(folders) - (done + {f})| < |Nodes(folders) - done|
  {
    hide Nodes;
    assert Nodes(folders) - (done + {f}) == Nodes(folders) - done - {f};
  }

  ghost predicate Visited(media: MediaTable, done: set<FolderId>, visited: seq<Key>) {
    forall k :: multiset(visited)[k] == if k in media && media[k].available && media[k].parent in done then 1 else 0
  }

  lemma VisitedStep(order: seq<Key>, media: MediaTable, done: set<FolderId>, visited: seq<Key>, f: FolderId)
    requires Visited(media, done, visited) && f !in done && IsOrder(order, media)
    ensures Visited(media, done + {f}, visited + FolderItems(order, media, f))
  {
    var items := FolderItems(order, media, f);
    hide FolderItems;
    forall k
      ensures multiset(visited + items)[k] == if k in media && media[k].available && media[k].parent in done + {f} then 1 else 0
    {
      FolderItemsCount(order, media, f, k);
      assert multiset(visited + items)[k] == multiset(visited)[k] + multiset(items)[k];
    }
  }

  /** A client that browses from the root, page by page and folder by folder, ends, and meets every available item
      exactly once and nothing else. */
  method BrowseAll(order: seq<Key>, media: MediaTable, folders: FolderTable, limit: int) returns (visited: seq<Key>)
    requires Agrees(media, folders) && IsOrder(order, media)
    ensures forall k :: multiset(visited)[k] == if k in media && media[k].available then 1 else 0
  {
    TopIsNoFolder(media, folders);
    hide Agrees, FolderItems, IsOrder, Children, Nodes;
    visited := [];
    var todo: set<FolderId> := {Top};
    ghost var done: set<FolderId> := {};
    while todo != {}
      invariant Frontier(folders, todo, done) && Visited(media, done, visited)
      decreases |Nodes(folders) - done|
    {
      var f :| f in todo;
      var items := BrowseFolder(order, media, f, limit);
      VisitedStep(order, media, done, visited, f);
      FrontierStep(media, folders, todo, done, f);
      FewerNodes(folders, done, f);
      visited := visited + items;
      done := done + {f};
      todo := todo - {f} + Children(folders, f);
    }
    forall k | k in media && media[k].available ensures media[k].parent in done {
      ItemParentIsNode(media, folders, k);
      ClosedIsAll(media, folders, done, media[k].parent);
    }
  }

  lemma TopIsNoFolder(media: MediaTable, folders: FolderTable)
    requires Agrees(media, folders)
    ensures Top !in folders && Frontier(folders, {Top}, {})
  {}

  /** All pages of one folder. */
  method BrowseFolder(order: seq<Key>, media: MediaTable, f: FolderId, limit: int) returns (items: seq<Key>)
    ensures items == FolderItems(order, media, f)
  {
    items := [];
    var after: Option<nat> := Some(0);
    assert order[0..] == order;
    while after.Some?
      invariant after.Some? ==> after.value <= |order| && items + FolderItems(order[after.value..], media, f) == FolderItems(order, media, f)
      invariant after.None? ==> items == FolderItems(order, media, f)
      decreases if after.Some? then |order| - after.value + 1 else 0
    {
      var page, next := BrowseItems(order, media, f, after.value, limit);
      if next.Some? {
        assert order[after.value..] == order[after.value..next.value] + order[next.value..];
        FolderItemsConcat(order[after.value..next.value], order[next.value..], media, f);
        JoinThree(items, page, FolderItems(order[next.value..], media, f));
      }
      items, after := items + page, next;
    }
  }
}
