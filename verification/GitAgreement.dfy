/** The two captures of a Git revision agree: the record derived from its
    objects, and the record of the tree materialised from it. */
module GitAgreement {
  import opened Bytes
  import opened Wrappers
  import opened PathPolicy
  import opened SymlinkTarget
  import opened TreeRecord
  import opened Content
  import opened FileTree
  import opened GitPayload

  /** No directory above an entry has a denied suffix: the one way a directory
      above included entries can be denied. */
  ghost predicate AncestorsAllowed(entries: Entries) {
    forall d :: d in Directories(entries) ==> d != [] && !SuffixForbidden(d[|d| - 1])
  }

  /** Some entry lies below a directory that bears the carrier's own name. */
  ghost predicate CarrierIsDirectory(entries: Entries) {
    exists d :: d in Directories(entries) && IsCarrier(d)
  }

  ghost predicate Materializable(entries: Entries, blobs: Blobs) {
    IncludedEntries(entries) && AllSupported(entries, blobs) && NoConflict(entries)
  }

  lemma DirectoryFacts(entries: Entries, d: Path)
    requires IncludedEntries(entries) && d in Directories(entries)
    ensures d != [] && !HasDotDot(d)
    ensures PathIsForbidden(d) <==> SuffixForbidden(d[|d| - 1])
    ensures PathIsIncluded(d) <==> !SuffixForbidden(d[|d| - 1])
  {
    hide PathIsIncluded, PathIsForbidden, SuffixForbidden, IsCarrier;
    var p, k :| p in entries && 0 < k < |p| && p[..k] == d;
    AncestorOfIncluded(p, k);
  }

  lemma MaterializedWellFormed(entries: Entries, blobs: Blobs)
    requires Materializable(entries, blobs)
    ensures WellFormed(Materialized(entries, blobs))
  {
    hide PathIsIncluded, PathIsForbidden, SuffixForbidden, IsCarrier, SupportedEntry, GitNode;
    var t := Materialized(entries, blobs);
    DirectoriesClosed(entries);
    forall p | p in t ensures p != [] && !HasDotDot(p) && (|p| > 1 ==> IsDirNode(t, Parent(p))) {
      if p in Directories(entries) {
        DirectoryFacts(entries, p);
        if |p| > 1 {
          assert Parent(p) in ParentsOf(p);
        }
      } else if |p| > 1 {
        assert Parent(p) in Directories(entries);
      }
    }
  }

  /** With every ancestor allowed the walk prunes nothing. */
  lemma EverythingVisited(entries: Entries, blobs: Blobs, p: Path)
    requires Materializable(entries, blobs) && AncestorsAllowed(entries)
    requires p in Materialized(entries, blobs)
    ensures Visited(Materialized(entries, blobs), p)
  {
    hide PathIsIncluded, PathIsForbidden, SuffixForbidden, IsCarrier, SupportedEntry, GitNode;
    var t := Materialized(entries, blobs);
    DirectoriesClosed(entries);
    forall k | 0 < k < |p| ensures Descends(t, p[..k]) {
      var d := p[..k];
      assert d in Directories(entries) by {
        if p in Directories(entries) {
          assert d in ParentsOf(p);
        }
      }
      DirectoryFacts(entries, d);
    }
  }

  /** The walk meets a denied directory before it can prune one. */
  lemma {:induction false} DeniedAncestorSeen(entries: Entries, blobs: Blobs, d: Path)
    requires Materializable(entries, blobs)
    requires d in Directories(entries) && d != [] && SuffixForbidden(d[|d| - 1])
    ensures exists q :: q in CapturedTree(Materialized(entries, blobs))
                        && q in Directories(entries) && q != [] && SuffixForbidden(q[|q| - 1])
    decreases |d|
  {
    hide PathIsIncluded, PathIsForbidden, SuffixForbidden, IsCarrier, SupportedEntry, GitNode;
    var t := Materialized(entries, blobs);
    DirectoriesClosed(entries);
    if k :| 0 < k < |d| && SuffixForbidden(d[..k][k - 1]) {
      assert d[..k] in ParentsOf(d);
      DeniedAncestorSeen(entries, blobs, d[..k]);
    } else {
      forall k | 0 < k < |d| ensures Descends(t, d[..k]) {
        assert d[..k] in ParentsOf(d);
        DirectoryFacts(entries, d[..k]);
      }
      assert Visited(t, d);
      if IsCarrier(d) {
        CarrierHasOneName(d);
        CarrierNotDenied(d);
      }
      assert d in CapturedTree(t);
    }
  }

  lemma CarrierHasOneName(p: Path)
    requires IsCarrier(p)
    ensures |p| == 1
  {
  }

  lemma WalkAcceptsAllowedOnly(entries: Entries, blobs: Blobs)
    requires Materializable(entries, blobs) && !AncestorsAllowed(entries)
    ensures WellFormed(Materialized(entries, blobs))
    ensures !WalkAccepted(Materialized(entries, blobs))
  {
    hide PathIsIncluded, PathIsForbidden, SuffixForbidden, IsCarrier, SupportedEntry, GitNode,
         CapturedTree, Recordable;
    MaterializedWellFormed(entries, blobs);
    DirectoriesClosed(entries);
    var d :| d in Directories(entries) && (d == [] || SuffixForbidden(d[|d| - 1]));
    DeniedAncestorSeen(entries, blobs, d);
    var q :| q in CapturedTree(Materialized(entries, blobs))
             && q in Directories(entries) && q != [] && SuffixForbidden(q[|q| - 1]);
    DirectoryFacts(entries, q);
    CapturedInTree(Materialized(entries, blobs), q);
  }

  lemma CapturedInTree(t: Tree, q: Path)
    requires q in CapturedTree(t)
    ensures q in t && CapturedTree(t)[q] == t[q]
  {
  }

  /** Otherwise the walk captures the whole tree, a carrier directory excepted. */
  lemma CapturedIsMaterialized(entries: Entries, blobs: Blobs)
    requires Materializable(entries, blobs) && AncestorsAllowed(entries)
    ensures forall p :: p in CapturedTree(Materialized(entries, blobs)) <==>
              p in Materialized(entries, blobs) && !IsCarrier(p)
    ensures !CarrierIsDirectory(entries) ==>
              CapturedTree(Materialized(entries, blobs)) == Materialized(entries, blobs)
  {
    hide PathIsIncluded, PathIsForbidden, SuffixForbidden, IsCarrier, SupportedEntry, GitNode, Visited,
         Directories, AncestorsAllowed;
    var t := Materialized(entries, blobs);
    forall p | p in t ensures Visited(t, p) {
      EverythingVisited(entries, blobs, p);
    }
    assert forall p :: p in entries ==> !IsCarrier(p);
    if !CarrierIsDirectory(entries) {
      assert forall p :: p in t ==> !IsCarrier(p);
      assert CapturedTree(t) == t;
    }
  }

  lemma PathAcceptedHere(entries: Entries, blobs: Blobs, p: Path)
    requires Materializable(entries, blobs) && AncestorsAllowed(entries)
    requires p in Materialized(entries, blobs)
    ensures p != [] && !HasDotDot(p)
    ensures PathAccepted(p, Materialized(entries, blobs)[p]) <==>
              CanonicalPath(p) && Capturable(p, Materialized(entries, blobs)[p])
  {
    hide PathIsIncluded, PathIsForbidden, SuffixForbidden, IsCarrier, TargetAccepted, CanonicalPath, Directories;
    if p !in entries {
      DirectoryFacts(entries, p);
    }
  }

  /** Whenever a revision materialises and no directory bears the carrier's
      name: the walk over the tree succeeds exactly when the derivation from the
      objects does and no ancestor is denied, and then both give one record. */
  lemma GitAndWalkAgree(sha: Hash, entries: Entries, blobs: Blobs)
    requires Materializable(entries, blobs) && !CarrierIsDirectory(entries)
    ensures WellFormed(Materialized(entries, blobs))
    ensures WalkAccepted(Materialized(entries, blobs)) <==>
              GitAccepted(entries, blobs) && AncestorsAllowed(entries)
    ensures WalkAccepted(Materialized(entries, blobs)) ==>
              RecordOfContent(sha, CapturedTree(Materialized(entries, blobs))) ==
              RecordOfContent(sha, Materialized(entries, blobs))
  {
    hide PathIsIncluded, PathIsForbidden, SuffixForbidden, IsCarrier, SupportedEntry, GitNode,
         Recordable, CanonicalPath, Directories, PathAccepted, RecordOfContent, CapturedTree;
    var t := Materialized(entries, blobs);
    MaterializedWellFormed(entries, blobs);
    if AncestorsAllowed(entries) {
      CapturedIsMaterialized(entries, blobs);
      forall p | p in t
        ensures p != [] && !HasDotDot(p)
                && (PathAccepted(p, t[p]) <==> CanonicalPath(p) && Capturable(p, t[p]))
      {
        PathAcceptedHere(entries, blobs, p);
      }
      RecordableCaptures(t);
    } else {
      WalkAcceptsAllowedOnly(entries, blobs);
    }
  }

  lemma RecordableCaptures(c: Tree)
    ensures Recordable(c) ==> forall p :: p in c ==> Capturable(p, c[p])
  {
  }

  /** With a directory of that name the two captures never agree: the walk
      skips its entry, the derivation counts it. */
  lemma CarrierDirectoryDisagrees(sha: Hash, entries: Entries, blobs: Blobs)
    requires Materializable(entries, blobs) && CarrierIsDirectory(entries)
    requires WellFormed(Materialized(entries, blobs)) && WalkAccepted(Materialized(entries, blobs))
    requires GitAccepted(entries, blobs)
    ensures RecordOfContent(sha, CapturedTree(Materialized(entries, blobs)))
         != RecordOfContent(sha, Materialized(entries, blobs))
  {
    hide PathIsIncluded, PathIsForbidden, SuffixForbidden, IsCarrier, SupportedEntry, GitNode,
         CanonicalPath, Directories, PathAccepted, RecordOfContent, Materialized;
    var t := Materialized(entries, blobs);
    var c := CapturedTree(t);
    var d :| d in Directories(entries) && IsCarrier(d);
    assert d in t && d !in c by { DirectoryInTree(entries, blobs, d); }
    assert c.Keys <= t.Keys - {d};
    SmallerSet(c.Keys, t.Keys - {d});
    RecordCounts(sha, c);
    RecordCounts(sha, t);
  }

  lemma DirectoryInTree(entries: Entries, blobs: Blobs, d: Path)
    requires AllSupported(entries, blobs) && d in Directories(entries)
    ensures d in Materialized(entries, blobs)
  {
  }

  lemma {:induction false} SmallerSet(a: set<Path>, b: set<Path>)
    requires a <= b
    ensures |a| <= |b|
  {
    if a != {} {
      var x :| x in a;
      SmallerSet(a - {x}, b - {x});
    }
  }

  lemma RecordCounts(sha: Hash, c: Tree)
    requires Recordable(c)
    ensures RecordOfContent(sha, c).entryCount == |c|
  {
    hide EntryOf, Posix, Accepted;
    EnumerationSize(SomeOrder(c), c);
  }

  // ---- such a revision ----

  /** source-provenance.json/a.txt, an empty plain file. */
  function NestedEntries(carrier: Name, note: Name): Entries {
    map[[carrier, note] := GitEntry("100644", "blob", [])]
  }

  const EMPTY_BLOB: Blobs := map[[] := []]

  lemma NestedDirectories(carrier: Name, note: Name)
    ensures Directories(NestedEntries(carrier, note)) == {[carrier]}
  {
    var entries, p: Path := NestedEntries(carrier, note), [carrier, note];
    assert p[..1] == [carrier];
    forall d ensures d in Directories(entries) <==> d == [carrier] {
      if d in Directories(entries) {
        var q, k :| q in entries && 0 < k < |q| && q[..k] == d;
        assert q == p && k == 1;
      }
    }
  }

  lemma NestedPath(carrier: Name, note: Name)
    requires Text(carrier) == SOURCE_PROVENANCE_FILE && Text(note) == "a.txt"
    ensures var p := [carrier, note];
            !HasDotDot(p) && PathIsIncluded(p) && CanonicalPath(p) && |Posix(p)| < 256 && !IsCarrier(p)
    ensures IsCarrier([carrier]) && CanonicalPath([carrier]) && |Posix([carrier])| < 256
  {
    CarrierComponent(carrier);
    PlainComponent(note, 'a');
    PlainSuffix(note, 't');
    assert IsCarrier([carrier]);
    CarrierCanonical([carrier]);
    NestedSpelling(carrier, note);
    hide ComponentForbidden, SuffixForbidden, AllowedTopLevel, Text, ValidUtf8, Posix;
    IncludedByComponents([carrier, note]);
  }

  lemma NestedSpelling(carrier: Name, note: Name)
    requires Text(carrier) == SOURCE_PROVENANCE_FILE && Text(note) == "a.txt"
    ensures var b := Posix([carrier, note]); |b| < 256 && BACKSLASH !in b && 0 !in b && ValidUtf8(b)
    ensures |Posix([carrier])| < 256
  {
    var b := Posix([carrier, note]);
    assert [carrier, note][1..] == [note] && Posix([note]) == note;
    assert b == carrier + [SLASH] + note;
    forall i | 0 <= i < |carrier| ensures '-' as int <= carrier[i] <= 'z' as int && carrier[i] != BACKSLASH {
      CarrierLetters(i);
      assert Text(carrier)[i] as int == carrier[i];
    }
    forall i | 0 <= i < |note| ensures '.' as int <= note[i] <= 'z' as int && note[i] != BACKSLASH {
      assert Text(note)[i] as int == note[i];
    }
    AsciiIsUtf8(b);
  }

  /** The tree of that revision. */
  function NestedTree(carrier: Name, note: Name): Tree {
    map[[carrier, note] := FileNode([], MODE_PLAIN), [carrier] := DirNode]
  }

  lemma NestedMaterialized(carrier: Name, note: Name)
    requires Text(carrier) == SOURCE_PROVENANCE_FILE && Text(note) == "a.txt"
    ensures Materializable(NestedEntries(carrier, note), EMPTY_BLOB) && CarrierIsDirectory(NestedEntries(carrier, note))
    ensures Materialized(NestedEntries(carrier, note), EMPTY_BLOB) == NestedTree(carrier, note)
  {
    NestedPath(carrier, note);
    NestedDirectories(carrier, note);
    var entries := NestedEntries(carrier, note);
    assert entries.Keys == {[carrier, note]};
    NestedSupported(carrier, note);
    hide PathIsIncluded, CanonicalPath, Posix, Text, Directories, HasDotDot, IsCarrier, SupportedEntry, SOURCE_PROVENANCE_FILE;
    assert [carrier] in Directories(entries);
  }

  lemma NestedSupported(carrier: Name, note: Name)
    ensures AllSupported(NestedEntries(carrier, note), EMPTY_BLOB)
    ensures GitNode(NestedEntries(carrier, note)[[carrier, note]], EMPTY_BLOB) == FileNode([], MODE_PLAIN)
  {
    hide TargetAccepted;
  }

  lemma FewRecordable(t: Tree)
    requires 0 < |t| < 256 && forall p :: p in t ==> Capturable(p, t[p]) && |Posix(p)| < 256 && !t[p].LinkNode?
    ensures Recordable(t)
  {
    hide Posix;
    assert 256 == Pow256(1) <= Pow256(8);
  }

  lemma NestedAccepted(carrier: Name, note: Name)
    requires Text(carrier) == SOURCE_PROVENANCE_FILE && Text(note) == "a.txt"
    ensures Materializable(NestedEntries(carrier, note), EMPTY_BLOB) && CarrierIsDirectory(NestedEntries(carrier, note))
    ensures GitAccepted(NestedEntries(carrier, note), EMPTY_BLOB)
  {
    NestedMaterialized(carrier, note);
    NestedPath(carrier, note);
    NestedDirectories(carrier, note);
    hide PathIsIncluded, CanonicalPath, Posix, Text, Directories, Materialized, HasDotDot, IncludedEntries, SupportedEntry;
    var t := NestedTree(carrier, note);
    assert t.Keys == {[carrier, note], [carrier]};
    assert |{[carrier, note], [carrier]}| <= 2;
    assert 0 < Pow256(8);
    FewRecordable(t);
  }

  /** A revision with such an entry: both captures succeed, and differ. */
  lemma NestedDisagrees(sha: Hash, carrier: Name, note: Name)
    requires Text(carrier) == SOURCE_PROVENANCE_FILE && Text(note) == "a.txt"
    ensures var (entries, blobs) := (NestedEntries(carrier, note), EMPTY_BLOB);
            && Materializable(entries, blobs) && GitAccepted(entries, blobs)
            && WellFormed(Materialized(entries, blobs)) && WalkAccepted(Materialized(entries, blobs))
            && RecordOfContent(sha, CapturedTree(Materialized(entries, blobs)))
               != RecordOfContent(sha, Materialized(entries, blobs))
  {
    var entries := NestedEntries(carrier, note);
    NestedAccepted(carrier, note);
    MaterializedWellFormed(entries, EMPTY_BLOB);
    NestedWalked(carrier, note);
    hide *;
    CarrierDirectoryDisagrees(sha, entries, EMPTY_BLOB);
  }

  lemma NestedWalked(carrier: Name, note: Name)
    requires Text(carrier) == SOURCE_PROVENANCE_FILE && Text(note) == "a.txt"
    requires Materializable(NestedEntries(carrier, note), EMPTY_BLOB)
    requires WellFormed(Materialized(NestedEntries(carrier, note), EMPTY_BLOB))
    ensures WalkAccepted(Materialized(NestedEntries(carrier, note), EMPTY_BLOB))
  {
    var entries, p: Path, c: Path := NestedEntries(carrier, note), [carrier, note], [carrier];
    NestedMaterialized(carrier, note);
    NestedPath(carrier, note);
    NestedAllowed(carrier, note);
    hide *;
    CapturedIsMaterialized(entries, EMPTY_BLOB);
    NestedCaptured(carrier, note);
    OneFileAccepted(NestedTree(carrier, note), p);
  }

  lemma NestedCaptured(carrier: Name, note: Name)
    requires IsCarrier([carrier]) && !IsCarrier([carrier, note])
    requires var t := NestedTree(carrier, note); forall p :: p in CapturedTree(t) <==> p in t && !IsCarrier(p)
    ensures var t, p: Path := NestedTree(carrier, note), [carrier, note];
            CapturedTree(t).Keys == {p} && t[p] == FileNode([], MODE_PLAIN)
  {
    hide CapturedTree, IsCarrier;
    var t := NestedTree(carrier, note);
    assert t.Keys == {[carrier, note], [carrier]};
  }

  lemma OneFileAccepted(t: Tree, p: Path)
    requires WellFormed(t) && CapturedTree(t).Keys == {p} && p in t && t[p] == FileNode([], MODE_PLAIN)
    requires p != [] && !HasDotDot(p) && PathIsIncluded(p) && CanonicalPath(p) && |Posix(p)| < 256
    ensures WalkAccepted(t)
  {
    hide CapturedTree, PathIsIncluded, CanonicalPath, Posix, HasDotDot, WellFormed, Recordable, PathAccepted, Capturable;
    var captured := CapturedTree(t);
    CapturedInTree(t, p);
    EmptyFileAccepted(p);
    assert captured.Keys == {p};
    OneRecordable(captured, p);
  }

  lemma EmptyFileAccepted(p: Path)
    requires p != [] && !HasDotDot(p) && PathIsIncluded(p) && CanonicalPath(p)
    ensures PathAccepted(p, FileNode([], MODE_PLAIN)) && Capturable(p, FileNode([], MODE_PLAIN))
  {
    hide PathIsIncluded, CanonicalPath, HasDotDot;
  }

  lemma OneRecordable(t: Tree, p: Path)
    requires t.Keys == {p} && Capturable(p, t[p]) && p != [] && |Posix(p)| < 256 && !t[p].LinkNode?
    ensures Recordable(t)
  {
    hide Posix, Capturable, Recordable;
    assert |t.Keys| == |t|;
    FewRecordable(t);
  }

  lemma NestedAllowed(carrier: Name, note: Name)
    requires Text(carrier) == SOURCE_PROVENANCE_FILE
    ensures AncestorsAllowed(NestedEntries(carrier, note))
  {
    NestedDirectories(carrier, note);
    assert IsCarrier([carrier]);
    CarrierNotDenied([carrier]);
    hide Directories, SuffixForbidden, Text;
  }
}
