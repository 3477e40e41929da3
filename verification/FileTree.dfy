/** Capturing a payload tree: the filesystem walk, and the record of the
    entries it yields. */
module FileTree {
  import opened Bytes
  import opened Wrappers
  import opened PathPolicy
  import opened SymlinkTarget
  import opened TreeRecord
  import opened Content

  predicate IsDirNode(t: Tree, p: Path) {
    p in t && t[p].DirNode?
  }

  /** What a filesystem guarantees about the paths below a root. */
  ghost predicate WellFormed(t: Tree) {
    forall p :: p in t ==> p != [] && !HasDotDot(p) && (|p| > 1 ==> IsDirNode(t, Parent(p)))
  }

  // ---- the walk ----

  /** A directory whose content os.walk lists: a real one that is not pruned. */
  predicate Descends(t: Tree, d: Path) {
    d == [] || (IsDirNode(t, d) && !HasDotDot(d) && !PathIsForbidden(d))
  }

  /** Everything whose ancestors are all descended into. */
  ghost predicate Visited(t: Tree, p: Path) {
    p in t && p != [] && forall k :: 0 < k < |p| ==> Descends(t, p[..k])
  }

  ghost predicate IsChild(p: Path, d: Path) {
    |p| == |d| + 1 && p[..|d|] == d
  }

  /** os.scandir: the children of one directory, each once. */
  method ListDirectory(t: Tree, d: Path) returns (names: seq<Path>)
    ensures Distinct(names)
    ensures forall p :: p in names <==> p in t && IsChild(p, d)
  {
    names := [];
    var rest := t.Keys;
    while rest != {}
      invariant rest <= t.Keys
      invariant Distinct(names)
      invariant forall p :: p in names <==> p in t && p !in rest && IsChild(p, d)
      decreases rest
    {
      var p :| p in rest;
      rest := rest - {p};
      if |p| == |d| + 1 && p[..|d|] == d {
        names := names + [p];
      }
    }
  }

  function KeepDescended(t: Tree, names: seq<Path>): (r: seq<Path>)
    ensures forall p :: p in r <==> p in names && p != [] && Descends(t, p)
    ensures Distinct(names) ==> Distinct(r)
  {
    if names == [] then []
    else
      var rest := KeepDescended(t, names[1..]);
      assert names == [names[0]] + names[1..];
      if names[0] != [] && Descends(t, names[0]) then [names[0]] + rest else rest
  }

  ghost predicate Pending(stack: seq<Path>, p: Path) {
    exists k :: 0 <= k < |p| && p[..k] in stack
  }

  /** What is found is visited, and what is not found is below the stack. */
  ghost predicate Complete(t: Tree, stack: seq<Path>, out: seq<Path>) {
    && (forall p :: p in out ==> Visited(t, p))
    && (forall p :: Visited(t, p) ==> p in out || Pending(stack, p))
    && (forall d :: d in stack ==> Descends(t, d) && (d == [] || Visited(t, d)))
  }

  /** Nothing is listed twice: what is on the stack has not been listed yet. */
  ghost predicate Once(stack: seq<Path>, out: seq<Path>) {
    && Distinct(stack)
    && Distinct(out)
    && (forall p :: p in out ==> p != [] && (|p| > 1 ==> Parent(p) in out))
    && (forall d :: d in stack ==> d == [] || d in out)
    && (forall d, p :: d in stack && p in out ==> !IsChild(p, d))
  }

  ghost predicate Listing(t: Tree, d: Path, names: seq<Path>) {
    Distinct(names) && forall p :: p in names <==> p in t && IsChild(p, d)
  }

  lemma ChildVisited(t: Tree, d: Path, p: Path)
    requires Descends(t, d) && (d == [] || Visited(t, d)) && p in t && IsChild(p, d)
    ensures Visited(t, p)
  {
    hide PathIsForbidden;
    forall k | 0 < k < |p| ensures Descends(t, p[..k]) {
      if k < |d| {
        assert p[..k] == d[..k];
      } else {
        assert p[..k] == d;
      }
    }
  }

  lemma PendingMovesDown(t: Tree, d: Path, names: seq<Path>, kept: seq<Path>, p: Path)
    requires Listing(t, d, names)
    requires forall q :: q in kept <==> q in names && q != [] && Descends(t, q)
    requires Visited(t, p) && |d| < |p| && p[..|d|] == d
    ensures p in names || Pending(kept, p)
  {
    hide PathIsForbidden;
    var k := |d| + 1;
    var c := p[..k];
    assert c[..|d|] == d;
    if k == |p| {
      assert c == p;
    } else {
      assert Descends(t, c);
      assert c in kept;
    }
  }

  lemma CompleteStep(t: Tree, below: seq<Path>, d: Path, out: seq<Path>, names: seq<Path>, kept: seq<Path>)
    requires Complete(t, below + [d], out) && Listing(t, d, names)
    requires forall q :: q in kept <==> q in names && q != [] && Descends(t, q)
    ensures Complete(t, below + kept, out + names)
  {
    hide PathIsForbidden, Descends, Visited;
    var stack := below + [d];
    assert d in stack;
    forall p | p in names ensures Visited(t, p) {
      ChildVisited(t, d, p);
    }
    forall p | Visited(t, p) ensures p in out + names || Pending(below + kept, p) {
      if p !in out {
        var k :| 0 <= k < |p| && p[..k] in stack;
        if p[..k] == d {
          PendingMovesDown(t, d, names, kept, p);
          if p !in names {
            var j :| 0 <= j < |p| && p[..j] in kept;
            assert p[..j] in below + kept;
          }
        } else {
          assert p[..k] in below + kept;
        }
      }
    }
  }

  /** The children of a directory on the stack have not been listed yet. */
  lemma NewNames(t: Tree, below: seq<Path>, d: Path, out: seq<Path>, names: seq<Path>)
    requires Once(below + [d], out) && Listing(t, d, names)
    ensures forall p :: p in names ==> p !in out && IsChild(p, d)
    ensures Distinct(below) && d !in below && (d == [] || d in out)
  {
    var stack := below + [d];
    assert d in stack && stack[|below|] == d;
    assert forall i :: 0 <= i < |below| ==> stack[i] == below[i];
  }

  lemma DistinctJoin(a: seq<Path>, b: seq<Path>)
    requires Distinct(a) && Distinct(b) && forall p :: p in b ==> p !in a
    ensures Distinct(a + b)
  {
    assert forall i :: 0 <= i < |b| ==> b[i] in b;
    assert forall i :: 0 <= i < |a| ==> a[i] in a;
  }

  lemma ChildOf(p: Path, d: Path)
    requires IsChild(p, d)
    ensures p != [] && Parent(p) == d && forall c :: IsChild(p, c) ==> c == d
  {
  }

  lemma OnceStep(t: Tree, below: seq<Path>, d: Path, out: seq<Path>, names: seq<Path>, kept: seq<Path>)
    requires Once(below + [d], out) && Listing(t, d, names)
    requires Distinct(kept) && forall q :: q in kept ==> q in names && q != []
    ensures Once(below + kept, out + names)
  {
    NewNames(t, below, d, out, names);
    forall p | p in kept ensures p !in below {
      assert p != [] && p !in out;
      assert p in below ==> p in below + [d];
    }
    DistinctJoin(below, kept);
    DistinctJoin(out, names);
    forall p | p in names ensures p != [] && Parent(p) == d && forall c :: IsChild(p, c) ==> c == d {
      ChildOf(p, d);
    }
    hide Distinct, Listing, IsChild;
    forall c, p | c in below + kept && p in out + names ensures !IsChild(p, c) {
      NoChildListed(t, below, d, out, names, kept, c, p);
    }
    assert forall c :: c in below ==> c in below + [d];
  }

  lemma NoChildListed(t: Tree, below: seq<Path>, d: Path, out: seq<Path>, names: seq<Path>, kept: seq<Path>, c: Path, p: Path)
    requires Once(below + [d], out) && Listing(t, d, names) && forall q :: q in kept ==> q in names && q != []
    requires c in below + kept && p in out + names
    ensures !IsChild(p, c)
  {
    NewNames(t, below, d, out, names);
    hide Distinct, Listing;
    if p in out {
      if c in below {
        assert c in below + [d];
      } else {
        assert c !in out && (|p| > 1 ==> Parent(p) in out);
        if IsChild(p, c) { ChildOf(p, c); }
      }
    } else {
      ChildOf(p, d);
      assert c != d by {
        if c !in below { assert c in names && IsChild(c, d); }
      }
    }
  }

  /** _walk_entries: every entry under the root whose ancestors are real
      directories that the deny rules do not prune, each exactly once. */
  method WalkEntries(t: Tree) returns (out: seq<Path>)
    ensures Distinct(out)
    ensures forall p :: p in out <==> Visited(t, p)
  {
    hide *;
    var stack: seq<Path> := [[]];
    out := [];
    StartOfWalk(t);
    while stack != []
      invariant Complete(t, stack, out) && Once(stack, out)
      decreases t.Keys - (set p | p in out), |stack|
    {
      var d := stack[|stack| - 1];
      var below := stack[..|stack| - 1];
      assert stack == below + [d];
      var names := ListDirectory(t, d);
      var kept := KeepDescended(t, names);
      NamesListed(t, d, names);
      CompleteStep(t, below, d, out, names, kept);
      OnceStep(t, below, d, out, names, kept);
      WalkProgress(t, d, stack, out, names, kept);
      out := out + names;
      stack := below + kept;
    }
    EndOfWalk(t, out);
  }

  lemma NamesListed(t: Tree, d: Path, names: seq<Path>)
    requires Distinct(names) && forall p :: p in names <==> p in t && IsChild(p, d)
    ensures Listing(t, d, names)
  {
  }

  lemma EndOfWalk(t: Tree, out: seq<Path>)
    requires Complete(t, [], out) && Once([], out)
    ensures Distinct(out) && forall p :: p in out <==> Visited(t, p)
  {
    hide Visited;
  }

  lemma StartOfWalk(t: Tree)
    ensures Complete(t, [[]], []) && Once([[]], [])
  {
    forall p | Visited(t, p) ensures Pending([[]], p) {
      assert p[..0] == [];
    }
  }

  lemma WalkProgress(t: Tree, d: Path, stack: seq<Path>, out: seq<Path>, names: seq<Path>, kept: seq<Path>)
    requires Once(stack, out) && d in stack && Listing(t, d, names)
    requires forall q :: q in kept ==> q in names
    ensures var before, after := t.Keys - (set p | p in out), t.Keys - (set p | p in out + names);
            after < before || (after == before && kept == [])
  {
    var before, after := t.Keys - (set p | p in out), t.Keys - (set p | p in out + names);
    assert after <= before;
    assert kept == [] || kept[0] in names;
    if names != [] {
      assert names[0] in names;
      assert names[0] in before && names[0] !in after;
    } else {
      assert out + names == out;
    }
  }

  // ---- the record of a tree ----

  datatype CaptureError =
    | ForbiddenPath(path: Path)
    | UnexpectedPath(path: Path)
    | NoncanonicalPath(path: Path)
    | BadLink(path: Path)
    | SpecialPath(path: Path)
    | NoRecord(error: RecordError)

  /** What the capture loop demands of one path below the root. */
  predicate PathAccepted(p: Path, node: Node)
    requires p != [] && !HasDotDot(p)
  {
    && PathIsIncluded(p)
    && CanonicalPath(p)
    && (node.LinkNode? ==> TargetAccepted(p, node.target))
    && Capturable(p, node)
  }

  /** The closed payload: all that the walk sees, except the carrier itself. */
  ghost function CapturedTree(t: Tree): Tree {
    map p | p in t && Visited(t, p) && !IsCarrier(p) :: t[p]
  }

  ghost predicate WalkAccepted(t: Tree)
    requires WellFormed(t)
  {
    && (forall p :: p in CapturedTree(t) ==> PathAccepted(p, t[p]))
    && Recordable(CapturedTree(t))
  }

  /** The inspection of one path in the capture loop. */
  method CaptureOne(sha: Hash, p: Path, node: Node) returns (r: Result<Entry, CaptureError>)
    requires p != [] && !HasDotDot(p)
    ensures r.Success? <==> PathAccepted(p, node)
    ensures r.Success? ==> r.value == EntryOf(sha, p, node)
  {
    hide PathIsForbidden, PathIsIncluded, CanonicalPath, TargetAccepted;
    IncludedMeansAllowed(p);
    if PathIsForbidden(p) {
      return Failure(ForbiddenPath(p));
    }
    if !PathIsIncluded(p) {
      return Failure(UnexpectedPath(p));
    }
    if !CanonicalPath(p) {
      return Failure(NoncanonicalPath(p));
    }
    match node {
      case LinkNode(target) =>
        var error := SymlinkTargetError(p, target);
        if error.Some? {
          return Failure(BadLink(p));
        }
        r := Success(Entry(Posix(p), KIND_LINK, MODE_LINK, target));
      case DirNode =>
        r := Success(Entry(Posix(p), KIND_DIR, MODE_DIR, []));
      case FileNode(data, mode) =>
        if |data| >= Pow256(8) {
          return Failure(NoRecord(LengthOverflow));
        }
        var filePayload := BigEndian(|data|, 8) + sha(data);
        r := Success(Entry(Posix(p), KIND_FILE, if HasExecBit(mode) then MODE_EXEC else MODE_PLAIN, filePayload));
      case SpecialNode =>
        r := Failure(SpecialPath(p));
    }
  }

  lemma IncludedMeansAllowed(p: Path)
    requires p != [] && !HasDotDot(p)
    ensures PathIsIncluded(p) ==> !PathIsForbidden(p)
  {
  }

  /** The tuples captured for the paths inspected so far. */
  ghost predicate CapturedSoFar(sha: Hash, t: Tree, done: seq<Path>, order: seq<Path>, captured: seq<Entry>) {
    && Distinct(order)
    && (forall p :: p in order <==> p in done && !IsCarrier(p))
    && |captured| == |order|
    && (forall k :: 0 <= k < |order| ==> CapturedAt(sha, t, order[k], captured[k]))
  }

  ghost predicate CapturedAt(sha: Hash, t: Tree, p: Path, e: Entry) {
    && p in t && p != [] && !HasDotDot(p)
    && PathAccepted(p, t[p])
    && e == EntryOf(sha, p, t[p])
  }

  lemma CaptureStep(sha: Hash, t: Tree, done: seq<Path>, order: seq<Path>, captured: seq<Entry>, p: Path, e: Entry)
    requires CapturedSoFar(sha, t, done, order, captured) && p !in done
    ensures IsCarrier(p) ==> CapturedSoFar(sha, t, done + [p], order, captured)
    ensures !IsCarrier(p) && CapturedAt(sha, t, p, e) ==>
              CapturedSoFar(sha, t, done + [p], order + [p], captured + [e])
  {
    hide CapturedAt, IsCarrier;
  }

  lemma CaptureComplete(sha: Hash, t: Tree, inventory: seq<Path>, order: seq<Path>, captured: seq<Entry>)
    requires CapturedSoFar(sha, t, inventory, order, captured)
    requires forall p :: p in inventory <==> Visited(t, p)
    requires WellFormed(t)
    ensures Enumerates(order, CapturedTree(t)) && AllCapturable(CapturedTree(t))
    ensures forall i :: 0 <= i < |order| ==> order[i] in CapturedTree(t)
    ensures captured == Along(sha, CapturedTree(t), order)
    ensures forall p :: p in CapturedTree(t) ==> PathAccepted(p, t[p])
  {
    hide Visited, IsCarrier, EntryOf, PathAccepted;
    var content := CapturedTree(t);
    VisitedInTree(t);
    assert forall p :: p in content <==> p in order;
    assert forall i :: 0 <= i < |order| ==> order[i] in order;
    forall p | p in content ensures PathAccepted(p, t[p]) && Capturable(p, t[p]) {
      var k :| 0 <= k < |order| && order[k] == p;
      assert CapturedAt(sha, t, p, captured[k]);
      AcceptedIsCapturable(p, t[p]);
    }
    forall k | 0 <= k < |order| ensures captured[k] == Along(sha, content, order)[k] {
      assert CapturedAt(sha, t, order[k], captured[k]);
    }
  }

  lemma VisitedInTree(t: Tree)
    ensures forall p :: Visited(t, p) ==> p in t
  {
  }

  /** _distribution_tree_record. */
  method RecordFromTree(sha: Hash, t: Tree) returns (r: Result<Record, CaptureError>)
    requires WellFormed(t)
    ensures r.Success? <==> WalkAccepted(t)
    ensures r.Success? ==> r.value == RecordOfContent(sha, CapturedTree(t))
  {
    hide PathAccepted, Visited, EntryOf, RecordOfContent, RecordOf, Accepted, IsCarrier, Recordable;
    VisitedInTree(t);
    var inventory := WalkEntries(t);
    var captured: seq<Entry> := [];
    ghost var order: seq<Path> := [];
    var i := 0;
    while i < |inventory|
      invariant 0 <= i <= |inventory|
      invariant CapturedSoFar(sha, t, inventory[..i], order, captured)
    {
      var p := inventory[i];
      assert p in inventory && p !in inventory[..i];
      assert inventory[..i + 1] == inventory[..i] + [p];
      if IsCarrier(p) {
        CaptureStep(sha, t, inventory[..i], order, captured, p, Entry([], [], 0, []));
      } else {
        var one := CaptureOne(sha, p, t[p]);
        if one.Failure? {
          assert p in CapturedTree(t);
          return Failure(one.error);
        }
        CaptureStep(sha, t, inventory[..i], order, captured, p, one.value);
        captured := captured + [one.value];
        order := order + [p];
      }
      i := i + 1;
    }
    assert inventory[..i] == inventory;
    CaptureComplete(sha, t, inventory, order, captured);
    var record := RecordFromEntries(sha, captured);
    AcceptedAlong(sha, CapturedTree(t), order);
    if record.Failure? {
      return Failure(NoRecord(record.error));
    }
    RecordInAnyOrder(sha, CapturedTree(t), order);
    r := Success(record.value);
  }

  lemma AcceptedIsCapturable(p: Path, node: Node)
    requires p != [] && !HasDotDot(p) && PathAccepted(p, node)
    ensures Capturable(p, node)
  {
  }
}
