/** Staging the payload of a Git revision, and proving the staged tree against
    the revision's objects before its record counts as provenance. */
module StagedRevision {
  import opened Bytes
  import opened Wrappers
  import opened PathPolicy
  import opened SymlinkTarget
  import opened TreeRecord
  import opened Content
  import opened FileTree
  import opened GitPayload
  import opened GitAgreement

  /** The object id of a blob with the given bytes: any function. */
  type BlobId = Bytes -> Bytes

  /** The repository names its blobs by their ids. */
  ghost predicate Consistent(id: BlobId, entries: Entries, blobs: Blobs) {
    forall p :: p in entries && entries[p].oid in blobs ==> id(blobs[entries[p].oid]) == entries[p].oid
  }

  /** One staged node has the kind, the executable bit and the blob of its entry. */
  predicate EntryMatches(id: BlobId, e: GitEntry, node: Node) {
    && SupportedMode(e)
    && if e.mode == "120000" then node.LinkNode? && id(node.target) == e.oid
       else node.FileNode? && (HasExecBit(node.mode) <==> e.mode == "100755") && id(node.data) == e.oid
  }

  predicate PathMatches(id: BlobId, entries: Entries, directories: set<Path>, p: Path, node: Node) {
    if p in directories then node.DirNode? else p in entries && EntryMatches(id, entries[p], node)
  }

  /** What the walk over the staged tree sees of the payload. */
  ghost function IncludedTree(t: Tree): Tree
    requires WellFormed(t)
  {
    map p | p in t && Visited(t, p) && !IsCarrier(p) && PathIsIncluded(p) :: t[p]
  }

  /** The paths are the expected ones, and each of them matches. */
  ghost predicate MatchesRevision(id: BlobId, entries: Entries, t: Tree)
    requires WellFormed(t)
  {
    && IncludedTree(t).Keys == entries.Keys + Directories(entries)
    && forall p :: p in IncludedTree(t) ==> PathMatches(id, entries, Directories(entries), p, t[p])
  }

  predicate Payload(p: Path) { !IsCarrier(p) && !HasDotDot(p) && PathIsIncluded(p) }

  function IncludedOf(walked: seq<Path>): set<Path> { set p | p in walked && Payload(p) }

  lemma IncludedOfNext(walked: seq<Path>, p: Path)
    ensures IncludedOf(walked + [p]) == if Payload(p) then IncludedOf(walked) + {p} else IncludedOf(walked)
  {
    hide Payload;
  }

  lemma IncludedOfAll(t: Tree, walked: seq<Path>)
    requires WellFormed(t) && forall p :: p in walked <==> Visited(t, p)
    ensures IncludedOf(walked) == IncludedTree(t).Keys
  {
    VisitedInTree(t);
    hide Visited, IsCarrier, PathIsIncluded, HasDotDot;
  }

  method IncludedPaths(t: Tree) returns (actual: set<Path>)
    requires WellFormed(t)
    ensures actual == IncludedTree(t).Keys
  {
    hide *;
    var walked := WalkEntries(t);
    actual := {};
    var i := 0;
    assert walked[..0] == [];
    IncludedOfNone();
    while i < |walked|
      invariant i <= |walked|
      invariant actual == IncludedOf(walked[..i])
    {
      assert walked[..i + 1] == walked[..i] + [walked[i]];
      IncludedOfNext(walked[..i], walked[i]);
      if Payload(walked[i]) {
        actual := actual + {walked[i]};
      }
      i := i + 1;
    }
    assert walked[..i] == walked;
    IncludedOfAll(t, walked);
  }

  lemma IncludedOfNone()
    ensures IncludedOf([]) == {}
  {
  }

  /** Whether every path of a set matches. */
  ghost predicate AllMatch(id: BlobId, entries: Entries, directories: set<Path>, t: Tree, paths: set<Path>) {
    forall p :: p in paths ==> p in t && PathMatches(id, entries, directories, p, t[p])
  }

  lemma NextMatches(id: BlobId, entries: Entries, directories: set<Path>, t: Tree, done: set<Path>, p: Path)
    requires p in t
    ensures AllMatch(id, entries, directories, t, done + {p})
            <==> AllMatch(id, entries, directories, t, done) && PathMatches(id, entries, directories, p, t[p])
  {
    hide PathMatches;
  }

  lemma MatchesIs(id: BlobId, entries: Entries, t: Tree)
    requires WellFormed(t)
    ensures MatchesRevision(id, entries, t)
            <==> IncludedTree(t).Keys == entries.Keys + Directories(entries)
                 && AllMatch(id, entries, Directories(entries), t, IncludedTree(t).Keys)
    ensures IncludedTree(t).Keys <= t.Keys
  {
    hide PathMatches, PathIsIncluded, IsCarrier, Visited, Directories, WellFormed;
  }

  /** The comparison of the paths that are both expected and there. */
  method ComparePaths(id: BlobId, entries: Entries, directories: set<Path>, t: Tree, paths: set<Path>) returns (ok: bool)
    requires paths <= t.Keys
    ensures ok <==> AllMatch(id, entries, directories, t, paths)
  {
    hide AllMatch, PathMatches;
    ok := true;
    var left := paths;
    NothingMatches(id, entries, directories, t);
    assert paths - left == {};
    while left != {}
      invariant left <= paths
      invariant ok <==> AllMatch(id, entries, directories, t, paths - left)
      decreases |left|
    {
      var p :| p in left;
      NextMatches(id, entries, directories, t, paths - left, p);
      assert paths - (left - {p}) == (paths - left) + {p};
      if !PathMatches(id, entries, directories, p, t[p]) {
        ok := false;
      }
      left := left - {p};
    }
    assert paths - left == paths;
  }

  /** _assert_staged_payload_matches_git_revision */
  method AssertStagedMatches(id: BlobId, entries: Entries, t: Tree) returns (ok: bool)
    requires WellFormed(t)
    ensures ok <==> MatchesRevision(id, entries, t)
  {
    hide *;
    var directories := ExpectedGitPayload(entries);
    var expected := entries.Keys + directories;
    var actual := IncludedPaths(t);
    MatchesIs(id, entries, t);
    var alike := ComparePaths(id, entries, directories, t, expected * actual);
    assert expected == actual ==> expected * actual == actual;
    ok := expected == actual && alike;
  }

  lemma NothingMatches(id: BlobId, entries: Entries, directories: set<Path>, t: Tree)
    ensures AllMatch(id, entries, directories, t, {})
  {
  }

  // ---- what the comparison establishes ----

  ghost predicate NoCollision(id: BlobId, strings: set<Bytes>) {
    forall x, y :: x in strings && y in strings && id(x) == id(y) ==> x == y
  }

  function BytesOf(node: Node): Bytes {
    match node
    case FileNode(data, _) => data
    case LinkNode(target) => target
    case _ => []
  }

  /** The strings whose ids the comparison relies on. */
  ghost function Compared(entries: Entries, blobs: Blobs, t: Tree): set<Bytes> {
    (set p | p in t :: BytesOf(t[p])) + (set p | p in entries && entries[p].oid in blobs :: blobs[entries[p].oid])
  }

  lemma EntryMatchesNode(id: BlobId, p: Path, e: GitEntry, blobs: Blobs, node: Node)
    requires p != [] && SupportedEntry(p, e, blobs) && e.oid in blobs && id(blobs[e.oid]) == e.oid
    requires NoCollision(id, {BytesOf(node), blobs[e.oid]})
    ensures EntryMatches(id, e, node) <==> CanonicalNode(node) == GitNode(e, blobs)
  {
    hide TargetAccepted;
    assert BytesOf(node) in {BytesOf(node), blobs[e.oid]} && blobs[e.oid] in {BytesOf(node), blobs[e.oid]};
    assert MODE_EXEC != MODE_PLAIN;
  }

  lemma PathMatchesNode(id: BlobId, entries: Entries, blobs: Blobs, t: Tree, p: Path)
    requires Materializable(entries, blobs) && Consistent(id, entries, blobs)
    requires NoCollision(id, Compared(entries, blobs, t))
    requires p in t && p in Materialized(entries, blobs)
    ensures PathMatches(id, entries, Directories(entries), p, t[p])
            <==> CanonicalNode(t[p]) == Materialized(entries, blobs)[p]
  {
    hide SupportedEntry, GitNode, EntryMatches, CanonicalNode, Directories, IncludedEntries;
    if p in entries {
      SupportedHasBlob(p, entries[p], blobs);
      assert BytesOf(t[p]) in Compared(entries, blobs, t) && blobs[entries[p].oid] in Compared(entries, blobs, t);
      EntryMatchesNode(id, p, entries[p], blobs, t[p]);
    } else {
      OnlyDirectories(t[p]);
    }
  }

  lemma OnlyDirectories(node: Node)
    ensures CanonicalNode(node) == DirNode <==> node.DirNode?
  {
  }

  /** A staged tree matches the revision exactly when what the walk sees of it
      is the tree the objects describe, blob id collisions apart. */
  lemma MatchesExactly(id: BlobId, entries: Entries, blobs: Blobs, t: Tree)
    requires WellFormed(t) && Materializable(entries, blobs) && Consistent(id, entries, blobs)
    requires NoCollision(id, Compared(entries, blobs, t))
    ensures MatchesRevision(id, entries, t) <==> CanonicalTree(IncludedTree(t)) == Materialized(entries, blobs)
  {
    var seen, expected := IncludedTree(t), Materialized(entries, blobs);
    KeysOf(entries, blobs, t);
    MatchesIs(id, entries, t);
    hide *;
    if seen.Keys == expected.Keys {
      forall p | p in seen
        ensures p in t && (PathMatches(id, entries, Directories(entries), p, t[p]) <==> CanonicalNode(seen[p]) == expected[p])
      {
        SeenInTree(t, p);
        PathMatchesNode(id, entries, blobs, t, p);
      }
      SameNodes(seen, expected);
      AllMatchMeans(id, entries, t, seen, expected);
    }
  }

  lemma KeysOf(entries: Entries, blobs: Blobs, t: Tree)
    requires WellFormed(t) && AllSupported(entries, blobs)
    ensures Materialized(entries, blobs).Keys == entries.Keys + Directories(entries)
    ensures CanonicalTree(IncludedTree(t)).Keys == IncludedTree(t).Keys
  {
    hide IncludedTree, Directories, SupportedEntry, CanonicalNode;
  }

  lemma SeenInTree(t: Tree, p: Path)
    requires WellFormed(t) && p in IncludedTree(t)
    ensures p in t && IncludedTree(t)[p] == t[p]
  {
    hide PathIsIncluded, IsCarrier, Visited;
  }

  lemma SameNodes(seen: Tree, expected: Tree)
    requires seen.Keys == expected.Keys
    ensures CanonicalTree(seen) == expected <==> forall p :: p in seen ==> CanonicalNode(seen[p]) == expected[p]
  {
    hide CanonicalNode;
    assert CanonicalTree(seen).Keys == seen.Keys;
  }

  lemma AllMatchMeans(id: BlobId, entries: Entries, t: Tree, seen: Tree, expected: Tree)
    requires seen.Keys == expected.Keys && seen.Keys <= t.Keys
    requires forall p :: p in seen ==>
               p in t && (PathMatches(id, entries, Directories(entries), p, t[p]) <==> CanonicalNode(seen[p]) == expected[p])
    ensures AllMatch(id, entries, Directories(entries), t, seen.Keys)
            <==> forall p :: p in seen ==> CanonicalNode(seen[p]) == expected[p]
  {
    hide PathMatches, CanonicalNode, Directories;
  }

  /** Of a materialised tree the walk sees everything exactly when no directory
      above an entry is denied, and none bears the carrier's name. */
  lemma MaterializedSeen(entries: Entries, blobs: Blobs)
    requires Materializable(entries, blobs)
    ensures WellFormed(Materialized(entries, blobs))
    ensures IncludedTree(Materialized(entries, blobs)) == Materialized(entries, blobs)
            <==> AncestorsAllowed(entries) && !CarrierIsDirectory(entries)
  {
    MaterializedWellFormed(entries, blobs);
    var t := Materialized(entries, blobs);
    hide PathIsIncluded, SuffixForbidden, IsCarrier, SupportedEntry, GitNode, Visited, Directories, WellFormed, NoConflict;
    if AncestorsAllowed(entries) && !CarrierIsDirectory(entries) {
      EverythingIncluded(entries, blobs);
    } else if !AncestorsAllowed(entries) {
      var d :| d in Directories(entries) && (d == [] || SuffixForbidden(d[|d| - 1]));
      DirectoryFacts(entries, d);
      DirectoryInTree(entries, blobs, d);
    } else {
      var d :| d in Directories(entries) && IsCarrier(d);
      DirectoryInTree(entries, blobs, d);
    }
  }

  lemma EverythingIncluded(entries: Entries, blobs: Blobs)
    requires Materializable(entries, blobs) && AncestorsAllowed(entries) && !CarrierIsDirectory(entries)
    ensures WellFormed(Materialized(entries, blobs))
    ensures IncludedTree(Materialized(entries, blobs)) == Materialized(entries, blobs)
  {
    MaterializedWellFormed(entries, blobs);
    var t := Materialized(entries, blobs);
    hide PathIsIncluded, SuffixForbidden, IsCarrier, Visited, Directories, WellFormed, Materializable, AllSupported, Materialized,
         AncestorsAllowed, CarrierIsDirectory;
    forall p | p in t ensures Visited(t, p) && !IsCarrier(p) && !HasDotDot(p) && PathIsIncluded(p) {
      EverythingVisited(entries, blobs, p);
      PathIncludedHere(entries, blobs, p);
    }
  }

  lemma PathIncludedHere(entries: Entries, blobs: Blobs, p: Path)
    requires Materializable(entries, blobs) && AncestorsAllowed(entries) && !CarrierIsDirectory(entries)
    requires p in Materialized(entries, blobs)
    ensures !IsCarrier(p) && !HasDotDot(p) && PathIsIncluded(p)
  {
    hide PathIsIncluded, SuffixForbidden, IsCarrier, SupportedEntry, GitNode, Directories, HasDotDot;
    if p !in entries { DirectoryFacts(entries, p); }
  }

  /** The materialised tree passes the comparison under the same condition. */
  lemma MaterializedMatches(id: BlobId, entries: Entries, blobs: Blobs)
    requires Materializable(entries, blobs) && Consistent(id, entries, blobs)
    ensures WellFormed(Materialized(entries, blobs))
    ensures MatchesRevision(id, entries, Materialized(entries, blobs))
            <==> AncestorsAllowed(entries) && !CarrierIsDirectory(entries)
  {
    MaterializedSeen(entries, blobs);
    var t := Materialized(entries, blobs);
    KeysOf(entries, blobs, t);
    MatchesIs(id, entries, t);
    SameSeen(t);
    AllOwnMatch(id, entries, blobs);
    hide *;
  }

  lemma SameSeen(t: Tree)
    requires WellFormed(t)
    ensures IncludedTree(t).Keys == t.Keys <==> IncludedTree(t) == t
  {
    hide PathIsIncluded, IsCarrier, Visited, WellFormed;
  }

  lemma AllOwnMatch(id: BlobId, entries: Entries, blobs: Blobs)
    requires Materializable(entries, blobs) && Consistent(id, entries, blobs)
    ensures AllMatch(id, entries, Directories(entries), Materialized(entries, blobs), Materialized(entries, blobs).Keys)
  {
    var t := Materialized(entries, blobs);
    hide PathMatches, Materialized, Materializable, Consistent, AllSupported;
    forall p | p in t ensures PathMatches(id, entries, Directories(entries), p, t[p]) {
      OwnNodeMatches(id, entries, blobs, p);
    }
  }

  lemma OwnNodeMatches(id: BlobId, entries: Entries, blobs: Blobs, p: Path)
    requires Materializable(entries, blobs) && Consistent(id, entries, blobs) && p in Materialized(entries, blobs)
    ensures PathMatches(id, entries, Directories(entries), p, Materialized(entries, blobs)[p])
  {
    hide Directories, IncludedEntries, TargetAccepted;
    if p in entries {
      SupportedHasBlob(p, entries[p], blobs);
      assert HasExecBit(MODE_EXEC) && !HasExecBit(MODE_PLAIN);
    }
  }

  // ---- staging ----

  /** Staging a revision and proving it: the record is derived from the objects,
      the tree is materialised and compared with the objects, and then captured
      and compared with the record. All of it succeeds exactly when the record can
      be derived, no directory above an entry is denied, and none bears the
      carrier's name. */
  method StageRevision(sha: Hash, id: BlobId, entries: Entries, blobs: Blobs) returns (staged: Option<(Tree, Record)>)
    requires IncludedEntries(entries) && Consistent(id, entries, blobs)
    ensures staged.Some? <==> GitAccepted(entries, blobs) && AncestorsAllowed(entries) && !CarrierIsDirectory(entries)
    ensures staged.Some? ==>
              staged.value == (Materialized(entries, blobs), RecordOfContent(sha, Materialized(entries, blobs)))
  {
    hide CapturedTree, Materialized, WalkAccepted, RecordOfContent, CarrierIsDirectory, AllSupported, NoConflict,
         IncludedEntries, AncestorsAllowed, Consistent, MatchesRevision, Directories, CanonicalPath, Recordable;
    staged := None;
    var provenance := RecordFromGit(sha, entries, blobs);
    if provenance.Failure? { return; }
    var tree := MaterializeGitPayload(entries, blobs);
    if tree.Failure? { return; }
    MaterializedMatches(id, entries, blobs);
    var matches := AssertStagedMatches(id, entries, tree.value);
    if !matches { return; }
    var captured := RecordFromTree(sha, tree.value);
    GitAndWalkAgree(sha, entries, blobs);
    if captured.Success? && captured.value == provenance.value {
      staged := Some((tree.value, provenance.value));
    }
  }

  /** A node fits an entry: a link for 120000, an executable file for 100755, a plain
      one for 100644, with the bytes that the entry names. */
  predicate Fits(id: BlobId, e: GitEntry, node: Node) {
    && e.kind == "blob"
    && match node
       case LinkNode(target) => e.mode == "120000" && id(target) == e.oid
       case FileNode(data, mode) => e.mode == (if HasExecBit(mode) then "100755" else "100644") && id(data) == e.oid
       case _ => false
  }

  /** What the comparison demands of each path that the walk sees. */
  lemma MatchesInWords(id: BlobId, entries: Entries, t: Tree)
    requires WellFormed(t)
    ensures MatchesRevision(id, entries, t) <==>
              && IncludedTree(t).Keys == entries.Keys + Directories(entries)
              && forall p :: p in IncludedTree(t) ==>
                   if p in Directories(entries) then t[p] == DirNode else p in entries && Fits(id, entries[p], t[p])
  {
    hide Directories, IncludedTree, Fits, EntryMatches;
    forall p | p in entries && p in t ensures EntryMatches(id, entries[p], t[p]) <==> Fits(id, entries[p], t[p]) {
      EntryInWords(id, entries[p], t[p]);
    }
    assert forall p :: p in IncludedTree(t) ==> p in t by { IncludedInTree(t); }
  }

  lemma IncludedInTree(t: Tree)
    requires WellFormed(t)
    ensures forall p :: p in IncludedTree(t) ==> p in t
  {
    hide Visited;
  }

  lemma EntryInWords(id: BlobId, e: GitEntry, node: Node)
    ensures EntryMatches(id, e, node) <==> Fits(id, e, node)
  {
    hide HasExecBit;
  }
}
