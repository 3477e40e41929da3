/** The payload of a Git revision: the included tree entries, the tree they are
    materialised into, and the record derived straight from Git objects. */
module GitPayload {
  import opened Bytes
  import opened Wrappers
  import opened PathPolicy
  import opened SymlinkTarget
  import opened TreeRecord
  import opened Content
  import opened FileTree

  /** One NUL-terminated row of ls-tree -r, split into its fields. */
  datatype Row = Row(rawPath: Bytes, mode: string, kind: string, oid: Bytes)
  datatype GitEntry = GitEntry(mode: string, kind: string, oid: Bytes)
  type Entries = map<Path, GitEntry>
  /** git cat-file blob: the objects the repository holds. */
  type Blobs = map<Bytes, Bytes>

  datatype GitError =
    | UnsafePath(raw: Bytes)
    | UnsupportedEntry(path: Path)
    | MissingBlob(oid: Bytes)
    | BadTarget(path: Path)
    | PathConflict(path: Path)
    | BadPath(path: Path)
    | GitNoRecord(error: RecordError)

  // ---- _git_tree_entries ----

  predicate RowUnsafe(row: Row) {
    !(!IsAbsolute(row.rawPath) && IsCarrier(Parts(row.rawPath)))
    && (IsAbsolute(row.rawPath) || HasDotDot(Parts(row.rawPath)))
  }

  predicate RowIncluded(row: Row)
    requires !RowUnsafe(row)
  {
    var p := Parts(row.rawPath);
    !IsCarrier(p) && PathIsIncluded(p)
  }

  function EntryOfRow(row: Row): GitEntry {
    GitEntry(row.mode, row.kind, row.oid)
  }

  /** The entries a list of rows stands for: the last included row of a path. */
  ghost predicate EntriesOfRows(rows: seq<Row>, entries: Entries) {
    && (forall p :: p in entries ==>
          exists i :: 0 <= i < |rows| && LastRowOf(rows, i, p) && entries[p] == EntryOfRow(rows[i]))
    && (forall i :: 0 <= i < |rows| && RowCounts(rows[i]) ==> Parts(rows[i].rawPath) in entries)
  }

  ghost predicate RowCounts(row: Row) {
    !RowUnsafe(row) && RowIncluded(row)
  }

  ghost predicate LastRowOf(rows: seq<Row>, i: int, p: Path)
    requires 0 <= i < |rows|
  {
    && RowCounts(rows[i]) && Parts(rows[i].rawPath) == p
    && forall j :: i < j < |rows| && RowCounts(rows[j]) ==> Parts(rows[j].rawPath) != p
  }

  /** What the filter guarantees about every entry of a revision's payload. */
  ghost predicate IncludedEntries(entries: Entries) {
    forall p :: p in entries ==> p != [] && !HasDotDot(p) && !IsCarrier(p) && PathIsIncluded(p)
  }

  method GitTreeEntries(rows: seq<Row>) returns (r: Result<Entries, GitError>)
    ensures r.Success? <==> forall i :: 0 <= i < |rows| ==> !RowUnsafe(rows[i])
    ensures r.Success? ==> EntriesOfRows(rows, r.value) && IncludedEntries(r.value)
  {
    hide Parts, PathIsForbidden, AllowedTopLevel, IsCarrier;
    var entries: Entries := map[];
    var i := 0;
    while i < |rows|
      invariant 0 <= i <= |rows|
      invariant forall k :: 0 <= k < i ==> !RowUnsafe(rows[k])
      invariant EntriesOfRows(rows[..i], entries) && IncludedEntries(entries)
    {
      var row := rows[i];
      assert rows[..i + 1] == rows[..i] + [row];
      if RowUnsafe(row) {
        return Failure(UnsafePath(row.rawPath));
      }
      EntriesStep(rows[..i], entries, row);
      if RowIncluded(row) {
        entries := entries[Parts(row.rawPath) := EntryOfRow(row)];
      }
      i := i + 1;
    }
    assert rows[..i] == rows;
    r := Success(entries);
  }

  lemma EntriesStep(done: seq<Row>, entries: Entries, row: Row)
    requires EntriesOfRows(done, entries) && !RowUnsafe(row)
    ensures RowIncluded(row) ==>
              EntriesOfRows(done + [row], entries[Parts(row.rawPath) := EntryOfRow(row)])
    ensures !RowIncluded(row) ==> EntriesOfRows(done + [row], entries)
  {
    hide Parts, RowUnsafe, RowIncluded;
    var rows := done + [row];
    var q := Parts(row.rawPath);
    var after := if RowIncluded(row) then entries[q := EntryOfRow(row)] else entries;
    forall p | p in after
      ensures exists i :: 0 <= i < |rows| && LastRowOf(rows, i, p) && after[p] == EntryOfRow(rows[i])
    {
      if RowIncluded(row) && p == q {
        assert LastRowOf(rows, |done|, p);
      } else {
        var i :| 0 <= i < |done| && LastRowOf(done, i, p) && entries[p] == EntryOfRow(done[i]);
        assert LastRowOf(rows, i, p);
      }
    }
  }

  // ---- _expected_git_payload ----

  /** The proper ancestors of the entries, the root excepted. */
  ghost function Directories(entries: Entries): set<Path> {
    set p, k | p in entries && 0 < k < |p| :: p[..k]
  }

  function ParentsOf(p: Path): set<Path> {
    set k | 0 < k < |p| :: p[..k]
  }

  method ExpectedGitPayload(entries: Entries) returns (directories: set<Path>)
    ensures directories == Directories(entries)
  {
    directories := {};
    var rest := entries.Keys;
    while rest != {}
      invariant rest <= entries.Keys
      invariant forall d :: d in directories <==>
                  exists p :: p in entries && p !in rest && d in ParentsOf(p)
      decreases rest
    {
      var p :| p in rest;
      rest := rest - {p};
      directories := directories + ParentsOf(p);
    }
    forall d ensures d in directories <==> d in Directories(entries) {
      if d in directories {
        var p :| p in entries && d in ParentsOf(p);
      }
      if d in Directories(entries) {
        var p, k :| p in entries && 0 < k < |p| && p[..k] == d;
        assert d in ParentsOf(p);
      }
    }
  }

  // ---- _materialize_git_payload ----

  predicate SupportedMode(e: GitEntry) {
    e.kind == "blob" && e.mode in {"100644", "100755", "120000"}
  }

  predicate SupportedEntry(p: Path, e: GitEntry, blobs: Blobs)
    requires p != []
  {
    && SupportedMode(e)
    && e.oid in blobs
    && (e.mode == "120000" ==> TargetAccepted(p, blobs[e.oid]))
  }

  function GitNode(e: GitEntry, blobs: Blobs): Node
    requires e.oid in blobs
  {
    if e.mode == "120000" then LinkNode(blobs[e.oid])
    else FileNode(blobs[e.oid], if e.mode == "100755" then MODE_EXEC else MODE_PLAIN)
  }

  ghost predicate AllSupported(entries: Entries, blobs: Blobs) {
    forall p :: p in entries ==> p != [] && SupportedEntry(p, entries[p], blobs)
  }

  /** Nothing is both an entry and a directory above another entry. */
  ghost predicate NoConflict(entries: Entries) {
    forall p :: p in entries ==> p !in Directories(entries)
  }

  /** The tree a revision stands for. */
  ghost function Materialized(entries: Entries, blobs: Blobs): Tree
    requires AllSupported(entries, blobs)
  {
    map p | p in entries.Keys + Directories(entries) ::
      if p in entries then GitNode(entries[p], blobs) else DirNode
  }

  /** Checking one entry and reading its object. */
  method ReadEntry(p: Path, e: GitEntry, blobs: Blobs) returns (r: Result<Bytes, GitError>)
    requires p != [] && !HasDotDot(p)
    ensures r.Success? <==> SupportedEntry(p, e, blobs)
    ensures r.Success? ==> r.value == blobs[e.oid]
  {
    hide TargetAccepted;
    if e.kind != "blob" || e.mode !in {"100644", "100755", "120000"} {
      return Failure(UnsupportedEntry(p));
    }
    if e.oid !in blobs {
      return Failure(MissingBlob(e.oid));
    }
    var raw := blobs[e.oid];
    if e.mode == "120000" {
      var error := SymlinkTargetError(p, raw);
      if error.Some? {
        return Failure(BadTarget(p));
      }
    }
    r := Success(raw);
  }

  /** mkdir(parents=True, exist_ok=True), then chmod 0755, for each directory. */
  method MakeDirectories(directories: set<Path>) returns (t: Tree)
    requires forall d :: d in directories ==> d != [] && ParentsOf(d) <= directories
    ensures t == map d | d in directories :: DirNode
  {
    t := map[];
    var rest := directories;
    while rest != {}
      invariant rest <= directories
      invariant t.Keys <= directories
      invariant forall d :: d in directories && d !in rest ==> d in t
      invariant forall d :: d in t ==> t[d] == DirNode
      decreases rest
    {
      var d :| d in rest;
      rest := rest - {d};
      t := t + (map q | q in ParentsOf(d) + {d} :: DirNode);
    }
  }

  lemma DirectoriesClosed(entries: Entries)
    ensures forall d :: d in Directories(entries) ==> d != [] && ParentsOf(d) <= Directories(entries)
  {
    forall d | d in Directories(entries) ensures d != [] && ParentsOf(d) <= Directories(entries) {
      var p, k :| p in entries && 0 < k < |p| && p[..k] == d;
      forall q | q in ParentsOf(d) ensures q in Directories(entries) {
        var j :| 0 < j < |d| && d[..j] == q;
        assert p[..j] == q;
      }
    }
  }

  /** One entry is written where nothing stood, as its object says. */
  ghost predicate WrittenEntry(entries: Entries, blobs: Blobs, t: Tree, p: Path) {
    && p in entries && p in t && p != []
    && SupportedEntry(p, entries[p], blobs) && entries[p].oid in blobs
    && t[p] == GitNode(entries[p], blobs)
  }

  ghost predicate WrittenSoFar(entries: Entries, blobs: Blobs, t: Tree, directories: set<Path>, rest: set<Path>) {
    && t.Keys == directories + (entries.Keys - rest)
    && (forall p :: p in entries && p !in rest ==> p !in directories && WrittenEntry(entries, blobs, t, p))
    && (forall d :: d in directories ==> t[d] == DirNode)
  }

  lemma WrittenIsMaterialized(entries: Entries, blobs: Blobs, t: Tree)
    requires WrittenSoFar(entries, blobs, t, Directories(entries), {})
    ensures AllSupported(entries, blobs) && NoConflict(entries)
    ensures t == Materialized(entries, blobs)
  {
    hide SupportedEntry, Directories, GitNode;
    forall p | p in entries ensures p != [] && SupportedEntry(p, entries[p], blobs) {
      assert WrittenEntry(entries, blobs, t, p);
    }
  }

  /** _materialize_git_payload, into an empty staging directory. */
  method MaterializeGitPayload(entries: Entries, blobs: Blobs) returns (r: Result<Tree, GitError>)
    requires IncludedEntries(entries)
    ensures r.Success? <==> AllSupported(entries, blobs) && NoConflict(entries)
    ensures r.Success? ==> r.value == Materialized(entries, blobs)
  {
    hide PathIsIncluded, IsCarrier, SupportedEntry, Directories, GitNode, Materialized;
    var directories := ExpectedGitPayload(entries);
    DirectoriesClosed(entries);
    var t := MakeDirectories(directories);
    var rest := entries.Keys;
    while rest != {}
      invariant rest <= entries.Keys
      invariant WrittenSoFar(entries, blobs, t, directories, rest)
      decreases rest
    {
      var p :| p in rest;
      var raw := ReadEntry(p, entries[p], blobs);
      if raw.Failure? {
        return Failure(raw.error);
      }
      if p in t {
        return Failure(PathConflict(p));
      }
      SupportedHasBlob(p, entries[p], blobs);
      NodeOfMode(entries[p], blobs);
      var node := if entries[p].mode == "120000" then LinkNode(raw.value)
                  else FileNode(raw.value, if entries[p].mode == "100755" then MODE_EXEC else MODE_PLAIN);
      WriteStep(entries, blobs, t, directories, rest, p, node);
      t := t[p := node];
      rest := rest - {p};
    }
    WrittenIsMaterialized(entries, blobs, t);
    r := Success(t);
  }

  lemma WriteStep(entries: Entries, blobs: Blobs, t: Tree, directories: set<Path>, rest: set<Path>,
                  p: Path, node: Node)
    requires WrittenSoFar(entries, blobs, t, directories, rest) && rest <= entries.Keys
    requires p in rest && p !in t && p != [] && SupportedEntry(p, entries[p], blobs)
    requires entries[p].oid in blobs && node == GitNode(entries[p], blobs)
    ensures WrittenSoFar(entries, blobs, t[p := node], directories, rest - {p})
  {
    hide SupportedEntry, GitNode;
    var after := t[p := node];
    forall q | q in entries && q !in rest - {p} ensures q !in directories && WrittenEntry(entries, blobs, after, q) {
      assert q != p ==> WrittenEntry(entries, blobs, t, q);
    }
  }

  lemma SupportedHasBlob(p: Path, e: GitEntry, blobs: Blobs)
    requires p != [] && SupportedEntry(p, e, blobs)
    ensures e.oid in blobs && SupportedMode(e)
  {
  }

  lemma NodeOfMode(e: GitEntry, blobs: Blobs)
    requires e.oid in blobs
    ensures GitNode(e, blobs) ==
            if e.mode == "120000" then LinkNode(blobs[e.oid])
            else FileNode(blobs[e.oid], if e.mode == "100755" then MODE_EXEC else MODE_PLAIN)
  {
  }

  // ---- _distribution_tree_record_from_git ----

  /** What deriving the record from the objects demands. */
  ghost predicate GitAccepted(entries: Entries, blobs: Blobs) {
    && AllSupported(entries, blobs)
    && NoConflict(entries)
    && (forall p :: p in entries.Keys + Directories(entries) ==> CanonicalPath(p))
    && Recordable(Materialized(entries, blobs))
  }

  /** The tuples captured for a list of paths: directories first, then entries. */
  ghost predicate GitCaptured(sha: Hash, entries: Entries, blobs: Blobs, dirs: seq<Path>, files: seq<Path>,
                              captured: seq<Entry>) {
    && |captured| == |dirs| + |files|
    && (forall k :: 0 <= k < |dirs| ==>
          dirs[k] != [] && CanonicalPath(dirs[k]) && captured[k] == EntryOf(sha, dirs[k], DirNode))
    && (forall k :: 0 <= k < |files| ==>
          GitCapturedAt(sha, entries, blobs, files[k], captured[|dirs| + k]))
  }

  ghost predicate GitCapturedAt(sha: Hash, entries: Entries, blobs: Blobs, p: Path, e: Entry) {
    && p in entries && p != [] && CanonicalPath(p)
    && SupportedEntry(p, entries[p], blobs) && entries[p].oid in blobs
    && Capturable(p, GitNode(entries[p], blobs))
    && e == EntryOf(sha, p, GitNode(entries[p], blobs))
  }

  ghost predicate GitEntryCaptured(p: Path, e: GitEntry, blobs: Blobs)
    requires p != []
  {
    CanonicalPath(p) && SupportedEntry(p, e, blobs) && Capturable(p, GitNode(e, blobs))
  }

  method CaptureGitEntry(sha: Hash, p: Path, e: GitEntry, blobs: Blobs) returns (r: Result<Entry, GitError>)
    requires p != [] && !HasDotDot(p)
    ensures r.Success? <==> GitEntryCaptured(p, e, blobs)
    ensures r.Success? ==> r.value == EntryOf(sha, p, GitNode(e, blobs))
  {
    hide CanonicalPath, TargetAccepted, Posix;
    if !CanonicalPath(p) {
      return Failure(BadPath(p));
    }
    var raw := ReadEntry(p, e, blobs);
    if raw.Failure? {
      return Failure(raw.error);
    }
    if e.mode == "120000" {
      r := Success(Entry(Posix(p), KIND_LINK, MODE_LINK, raw.value));
    } else {
      if |raw.value| >= Pow256(8) {
        return Failure(GitNoRecord(LengthOverflow));
      }
      var payload := BigEndian(|raw.value|, 8) + sha(raw.value);
      CanonicalModes();
      r := Success(Entry(Posix(p), KIND_FILE, if e.mode == "100755" then MODE_EXEC else MODE_PLAIN, payload));
    }
  }

  lemma CanonicalModes()
    ensures CanonicalMode(MODE_EXEC) == MODE_EXEC && CanonicalMode(MODE_PLAIN) == MODE_PLAIN
  {
  }

  ghost predicate Lists(order: seq<Path>, members: set<Path>) {
    Content.Distinct(order) && forall p :: p in order <==> p in members
  }

  lemma CapturedAlong(sha: Hash, entries: Entries, blobs: Blobs, dirs: seq<Path>, files: seq<Path>,
                      captured: seq<Entry>)
    requires AllSupported(entries, blobs) && NoConflict(entries)
    requires Lists(dirs, Directories(entries)) && Lists(files, entries.Keys)
    requires GitCaptured(sha, entries, blobs, dirs, files, captured)
    ensures var t := Materialized(entries, blobs);
            && AllCapturable(t) && Enumerates(dirs + files, t)
            && (forall i :: 0 <= i < |dirs + files| ==> (dirs + files)[i] in t)
            && captured == Along(sha, t, dirs + files)
  {
    var t, order := Materialized(entries, blobs), dirs + files;
    OrderListed(entries, blobs, dirs, files);
    CapturedSize(sha, entries, blobs, dirs, files, captured);
    hide *;
    forall i | 0 <= i < |order| ensures order[i] in t && Capturable(order[i], t[order[i]]) && captured[i] == EntryOf(sha, order[i], t[order[i]]) {
      CapturedHere(sha, entries, blobs, dirs, files, captured, i);
    }
    TuplesOf(sha, t, order, captured);
  }

  lemma CapturedSize(sha: Hash, entries: Entries, blobs: Blobs, dirs: seq<Path>, files: seq<Path>, captured: seq<Entry>)
    requires GitCaptured(sha, entries, blobs, dirs, files, captured)
    ensures |captured| == |dirs + files|
  {
  }

  lemma TuplesOf(sha: Hash, t: Tree, order: seq<Path>, captured: seq<Entry>)
    requires Enumerates(order, t) && |captured| == |order|
    requires forall i :: 0 <= i < |order| ==>
               order[i] in t && Capturable(order[i], t[order[i]]) && captured[i] == EntryOf(sha, order[i], t[order[i]])
    ensures AllCapturable(t) && captured == Along(sha, t, order)
  {
    hide EntryOf, Capturable;
    forall p | p in t ensures Capturable(p, t[p]) {
      var i :| 0 <= i < |order| && order[i] == p;
    }
  }

  lemma OrderListed(entries: Entries, blobs: Blobs, dirs: seq<Path>, files: seq<Path>)
    requires AllSupported(entries, blobs) && NoConflict(entries)
    requires Lists(dirs, Directories(entries)) && Lists(files, entries.Keys)
    ensures Enumerates(dirs + files, Materialized(entries, blobs))
  {
    hide SupportedEntry, Directories, GitNode;
    assert forall i :: 0 <= i < |dirs| ==> dirs[i] in dirs;
    assert forall i :: 0 <= i < |files| ==> files[i] in files;
  }

  lemma CapturedHere(sha: Hash, entries: Entries, blobs: Blobs, dirs: seq<Path>, files: seq<Path>, captured: seq<Entry>, i: nat)
    requires AllSupported(entries, blobs) && NoConflict(entries)
    requires Lists(dirs, Directories(entries)) && Lists(files, entries.Keys)
    requires GitCaptured(sha, entries, blobs, dirs, files, captured) && i < |dirs + files|
    ensures var (t, p) := (Materialized(entries, blobs), (dirs + files)[i]);
            p in t && Capturable(p, t[p]) && captured[i] == EntryOf(sha, p, t[p])
  {
    hide SupportedEntry, Directories, GitNode, CanonicalPath, EntryOf, Posix;
    if i < |dirs| {
      assert dirs[i] in dirs;
    } else {
      assert files[i - |dirs|] in files;
      assert GitCapturedAt(sha, entries, blobs, files[i - |dirs|], captured[|dirs| + (i - |dirs|)]);
    }
  }

  lemma ConflictIsDuplicate(sha: Hash, entries: Entries, blobs: Blobs, dirs: seq<Path>, files: seq<Path>,
                            captured: seq<Entry>)
    requires !NoConflict(entries)
    requires Lists(dirs, Directories(entries)) && Lists(files, entries.Keys)
    requires GitCaptured(sha, entries, blobs, dirs, files, captured)
    ensures !DistinctPaths(captured)
  {
    hide SupportedEntry, Directories, GitNode, CanonicalPath, EntryOf, Posix;
    var p :| p in entries && p in Directories(entries);
    var i :| 0 <= i < |dirs| && dirs[i] == p;
    var j :| 0 <= j < |files| && files[j] == p;
    assert GitCapturedAt(sha, entries, blobs, files[j], captured[|dirs| + j]);
    EntryPath(sha, p, DirNode);
    EntryPath(sha, p, GitNode(entries[p], blobs));
    assert captured[i].path == captured[|dirs| + j].path;
  }

  /** _distribution_tree_record_from_git. */
  method RecordFromGit(sha: Hash, entries: Entries, blobs: Blobs) returns (r: Result<Record, GitError>)
    requires IncludedEntries(entries)
    ensures r.Success? <==> GitAccepted(entries, blobs)
    ensures r.Success? ==> r.value == RecordOfContent(sha, Materialized(entries, blobs))
  {
    hide SupportedEntry, GitNode, CanonicalPath, EntryOf, Posix, Directories, PathIsIncluded, IsCarrier,
         Recordable, RecordOfContent, RecordOf, Accepted, AllCapturable, DistinctPaths, Along;
    var directories := ExpectedGitPayload(entries);
    DirectoriesClosed(entries);
    var captured: seq<Entry>, dirs: seq<Path> := [], [];
    var rest := directories;
    while rest != {}
      invariant rest <= directories
      invariant Lists(dirs, directories - rest)
      invariant GitCaptured(sha, entries, blobs, dirs, [], captured)
      decreases rest
    {
      var d :| d in rest;
      if !CanonicalPath(d) {
        return Failure(BadPath(d));
      }
      DirEntry(sha, d);
      captured := captured + [Entry(Posix(d), KIND_DIR, MODE_DIR, [])];
      dirs := dirs + [d];
      rest := rest - {d};
    }
    assert directories - rest == directories;
    var files: seq<Path> := [];
    rest := entries.Keys;
    while rest != {}
      invariant rest <= entries.Keys
      invariant Lists(files, entries.Keys - rest)
      invariant GitCaptured(sha, entries, blobs, dirs, files, captured)
      decreases rest
    {
      var p :| p in rest;
      var one := CaptureGitEntry(sha, p, entries[p], blobs);
      if one.Failure? {
        NotCaptured(entries, blobs, p);
        return Failure(one.error);
      }
      FileStep(sha, entries, blobs, dirs, files, captured, p, one.value);
      captured := captured + [one.value];
      files := files + [p];
      rest := rest - {p};
    }
    assert entries.Keys - rest == entries.Keys;
    AllCaptured(sha, entries, blobs, dirs, files, captured);
    var record := RecordFromEntries(sha, captured);
    if NoConflict(entries) {
      CapturedAlong(sha, entries, blobs, dirs, files, captured);
      AcceptedAlong(sha, Materialized(entries, blobs), dirs + files);
    } else {
      ConflictIsDuplicate(sha, entries, blobs, dirs, files, captured);
    }
    if record.Failure? {
      return Failure(GitNoRecord(record.error));
    }
    AcceptedIsDistinct(captured);
    RecordInAnyOrder(sha, Materialized(entries, blobs), dirs + files);
    r := Success(record.value);
  }

  lemma AcceptedIsDistinct(captured: seq<Entry>)
    requires Accepted(captured)
    ensures DistinctPaths(captured)
  {
  }

  lemma DirEntry(sha: Hash, d: Path)
    requires d != []
    ensures EntryOf(sha, d, DirNode) == Entry(Posix(d), KIND_DIR, MODE_DIR, [])
  {
  }

  lemma NotCaptured(entries: Entries, blobs: Blobs, p: Path)
    requires p in entries && p != [] && !GitEntryCaptured(p, entries[p], blobs)
    ensures !GitAccepted(entries, blobs)
  {
    hide SupportedEntry, GitNode, CanonicalPath, Directories;
    if AllSupported(entries, blobs) {
      assert p in Materialized(entries, blobs);
    }
  }

  lemma FileStep(sha: Hash, entries: Entries, blobs: Blobs, dirs: seq<Path>, files: seq<Path>,
                 captured: seq<Entry>, p: Path, e: Entry)
    requires GitCaptured(sha, entries, blobs, dirs, files, captured)
    requires p in entries && p != [] && GitEntryCaptured(p, entries[p], blobs)
    requires e == EntryOf(sha, p, GitNode(entries[p], blobs))
    ensures GitCaptured(sha, entries, blobs, dirs, files + [p], captured + [e])
  {
    hide GitNode, CanonicalPath, EntryOf, Posix;
    assert entries[p].oid in blobs by { SupportedHasBlob(p, entries[p], blobs); }
  }

  lemma AllCaptured(sha: Hash, entries: Entries, blobs: Blobs, dirs: seq<Path>, files: seq<Path>,
                    captured: seq<Entry>)
    requires Lists(dirs, Directories(entries)) && Lists(files, entries.Keys)
    requires GitCaptured(sha, entries, blobs, dirs, files, captured)
    ensures AllSupported(entries, blobs)
    ensures forall p :: p in entries.Keys + Directories(entries) ==> CanonicalPath(p)
  {
    hide SupportedEntry, Directories, GitNode, CanonicalPath, EntryOf, Posix;
    forall p | p in entries ensures p != [] && SupportedEntry(p, entries[p], blobs) && CanonicalPath(p) {
      var k :| 0 <= k < |files| && files[k] == p;
      assert GitCapturedAt(sha, entries, blobs, files[k], captured[|dirs| + k]);
    }
    forall p | p in Directories(entries) ensures CanonicalPath(p) {
      var k :| 0 <= k < |dirs| && dirs[k] == p;
    }
  }
}
