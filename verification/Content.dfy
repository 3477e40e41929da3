/** The content of a payload: which node stands at which path.  Every way of
    capturing a payload ends in such a content, and the record depends on it
    alone. */
module Content {
  import opened Bytes
  import opened Wrappers
  import opened PathPolicy
  import opened SymlinkTarget
  import opened TreeRecord

  ghost predicate Distinct(s: seq<Path>) {
    forall i, j :: 0 <= i < j < |s| ==> s[i] != s[j]
  }

  /** mode & 0o111 */
  predicate HasExecBit(mode: nat) {
    mode % 2 == 1 || (mode / 8) % 2 == 1 || (mode / 64) % 2 == 1
  }

  function CanonicalMode(mode: nat): nat {
    if HasExecBit(mode) then MODE_EXEC else MODE_PLAIN
  }

  /** A node as far as the record can see it. */
  function CanonicalNode(node: Node): Node {
    if node.FileNode? then FileNode(node.data, CanonicalMode(node.mode)) else node
  }

  ghost function CanonicalTree(c: Tree): Tree {
    map p | p in c :: CanonicalNode(c[p])
  }

  predicate Capturable(p: Path, node: Node) {
    p != [] && !node.SpecialNode? && (node.FileNode? ==> |node.data| < Pow256(8))
  }

  function FilePayload(sha: Hash, data: Bytes): (b: Bytes)
    requires |data| < Pow256(8)
    ensures |b| == 40
  {
    BigEndian(|data|, 8) + sha(data)
  }

  /** The captured tuple of one node. */
  function EntryOf(sha: Hash, p: Path, node: Node): Entry
    requires Capturable(p, node)
  {
    match node
    case DirNode => Entry(Posix(p), KIND_DIR, MODE_DIR, [])
    case LinkNode(target) => Entry(Posix(p), KIND_LINK, MODE_LINK, target)
    case FileNode(data, mode) => Entry(Posix(p), KIND_FILE, CanonicalMode(mode), FilePayload(sha, data))
  }

  /** The 8-byte length fields can hold this node's path and target. */
  predicate LengthsFit(p: Path, node: Node)
    requires p != []
  {
    |Posix(p)| < Pow256(8) && (node.LinkNode? ==> |node.target| < Pow256(8))
  }

  lemma EntryEncodable(sha: Hash, p: Path, node: Node)
    requires Capturable(p, node)
    ensures Encodable(EntryOf(sha, p, node)) <==> LengthsFit(p, node)
    ensures CanonicalEntry(EntryOf(sha, p, node)) && SupportedKind(EntryOf(sha, p, node))
  {
    hide Posix;
    assert 40 < Pow256(1) <= Pow256(8);
  }

  /** A content that has a record. */
  ghost predicate Recordable(c: Tree) {
    && c != map[]
    && |c| < Pow256(8)
    && forall p :: p in c ==> Capturable(p, c[p]) && LengthsFit(p, c[p])
  }

  ghost predicate Enumerates(order: seq<Path>, c: Tree) {
    Distinct(order) && forall p :: p in order <==> p in c
  }

  ghost predicate AllCapturable(c: Tree) {
    forall p :: p in c ==> Capturable(p, c[p])
  }

  /** The captured tuples of a content, in a given order. */
  ghost function Along(sha: Hash, c: Tree, order: seq<Path>): (es: seq<Entry>)
    requires AllCapturable(c) && forall i :: 0 <= i < |order| ==> order[i] in c
    ensures |es| == |order|
    ensures forall i :: 0 <= i < |order| ==> es[i] == EntryOf(sha, order[i], c[order[i]])
  {
    seq(|order|, i requires 0 <= i < |order| => EntryOf(sha, order[i], c[order[i]]))
  }

  lemma {:induction false} EnumerationExists(c: Tree)
    ensures exists order :: Enumerates(order, c)
    decreases c.Keys
  {
    if c == map[] {
      assert Enumerates([], c);
    } else {
      var p :| p in c;
      var rest := c - {p};
      EnumerationExists(rest);
      var tail :| Enumerates(tail, rest);
      assert Enumerates(tail + [p], c);
    }
  }

  lemma {:induction false} EnumerationSize(order: seq<Path>, c: Tree)
    requires Enumerates(order, c)
    ensures |order| == |c|
    decreases order
  {
    if order == [] {
      assert c.Keys == {};
    } else {
      var p, tail := order[|order| - 1], order[..|order| - 1];
      assert order == tail + [p];
      assert p in c && p !in tail;
      var rest := c - {p};
      assert forall q :: q in tail <==> q in rest;
      EnumerationSize(tail, rest);
      assert c.Keys == rest.Keys + {p};
    }
  }

  lemma AcceptedAlong(sha: Hash, c: Tree, order: seq<Path>)
    requires AllCapturable(c) && Enumerates(order, c)
    ensures forall i :: 0 <= i < |order| ==> order[i] in c
    ensures Accepted(Along(sha, c, order)) <==> Recordable(c)
  {
    hide Posix, LengthsFit, Encodable, EntryOf;
    assert forall i :: 0 <= i < |order| ==> order[i] in order;
    var es := Along(sha, c, order);
    EnumerationSize(order, c);
    forall i, j | 0 <= i < j < |es| ensures es[i].path != es[j].path {
      EntryPath(sha, order[i], c[order[i]]);
      EntryPath(sha, order[j], c[order[j]]);
      if es[i].path == es[j].path {
        PosixInjective(order[i], order[j]);
      }
    }
    forall i | 0 <= i < |es|
      ensures Encodable(es[i]) <==> LengthsFit(order[i], c[order[i]])
    {
      EntryPath(sha, order[i], c[order[i]]);
      EntryEncodable(sha, order[i], c[order[i]]);
    }
    AllEncodableAlong(sha, c, order);
  }

  lemma EntryPath(sha: Hash, p: Path, node: Node)
    requires Capturable(p, node)
    ensures p != [] && EntryOf(sha, p, node).path == Posix(p)
  {
  }

  lemma AllEncodableAlong(sha: Hash, c: Tree, order: seq<Path>)
    requires AllCapturable(c) && Enumerates(order, c)
    requires forall i :: 0 <= i < |order| ==> order[i] in c
    ensures (forall e :: e in Along(sha, c, order) ==> Encodable(e))
       <==> (forall p :: p in c ==> p != [] && LengthsFit(p, c[p]))
  {
    hide Posix, LengthsFit, Encodable, EntryOf;
    var es := Along(sha, c, order);
    forall p | p in c ensures p != [] && (Encodable(EntryOf(sha, p, c[p])) <==> LengthsFit(p, c[p])) {
      EntryEncodable(sha, p, c[p]);
    }
    if forall e :: e in es ==> Encodable(e) {
      forall p | p in c ensures LengthsFit(p, c[p]) {
        var i :| 0 <= i < |order| && order[i] == p;
        assert es[i] in es;
      }
    }
  }

  /** Some order of the paths; which one does not matter. */
  ghost function SomeOrder(c: Tree): (order: seq<Path>)
    ensures Enumerates(order, c)
  {
    EnumerationExists(c);
    var order :| Enumerates(order, c);
    order
  }

  /** The record of a content: that of its tuples in any order. */
  ghost function RecordOfContent(sha: Hash, c: Tree): Record
    requires Recordable(c)
  {
    AcceptedAlong(sha, c, SomeOrder(c));
    RecordOf(sha, Along(sha, c, SomeOrder(c)))
  }

  ghost function StreamOfContent(sha: Hash, c: Tree): Bytes
    requires Recordable(c)
  {
    AcceptedAlong(sha, c, SomeOrder(c));
    StreamOf(Along(sha, c, SomeOrder(c)))
  }

  lemma SameMembersSameMultiset(a: seq<Entry>, b: seq<Entry>)
    requires DistinctPaths(a) && DistinctPaths(b)
    requires forall e :: e in a <==> e in b
    ensures multiset(a) == multiset(b)
  {
    forall e ensures multiset(a)[e] == multiset(b)[e] {
      if e in a {
        var i :| 0 <= i < |a| && a[i] == e;
        var j :| 0 <= j < |b| && b[j] == e;
        OnceCounted(a, i);
        OnceCounted(b, j);
      } else {
        assert multiset(a)[e] == 0 && multiset(b)[e] == 0;
      }
    }
  }

  lemma MemberAlong(sha: Hash, c: Tree, order: seq<Path>, p: Path)
    requires AllCapturable(c) && Enumerates(order, c) && p in c
    requires forall i :: 0 <= i < |order| ==> order[i] in c
    ensures EntryOf(sha, p, c[p]) in Along(sha, c, order)
  {
    hide EntryOf;
    var i :| 0 <= i < |order| && order[i] == p;
    assert Along(sha, c, order)[i] == EntryOf(sha, p, c[p]);
  }

  lemma TuplesAlong(sha: Hash, c: Tree, x: seq<Path>, y: seq<Path>)
    requires AllCapturable(c) && Enumerates(x, c) && Enumerates(y, c)
    requires forall i :: 0 <= i < |x| ==> x[i] in c
    requires forall i :: 0 <= i < |y| ==> y[i] in c
    ensures forall e :: e in Along(sha, c, x) ==> e in Along(sha, c, y)
  {
    hide EntryOf, Posix;
    var es := Along(sha, c, x);
    forall e | e in es ensures e in Along(sha, c, y) {
      var i :| 0 <= i < |es| && es[i] == e;
      MemberAlong(sha, c, y, x[i]);
    }
  }

  /** Whatever order a capture loop ran in, it ends at the record of the content. */
  lemma RecordInAnyOrder(sha: Hash, c: Tree, order: seq<Path>)
    requires Recordable(c) && Enumerates(order, c)
    ensures AllCapturable(c) && forall i :: 0 <= i < |order| ==> order[i] in c
    ensures Accepted(Along(sha, c, order))
    ensures RecordOf(sha, Along(sha, c, order)) == RecordOfContent(sha, c)
    ensures StreamOf(Along(sha, c, order)) == StreamOfContent(sha, c)
  {
    hide EntryOf, Posix, LengthsFit, Capturable, SortByPath, Wire;
    var some := SomeOrder(c);
    AcceptedAlong(sha, c, order);
    AcceptedAlong(sha, c, some);
    TuplesAlong(sha, c, order, some);
    TuplesAlong(sha, c, some, order);
    var a, b := Along(sha, c, order), Along(sha, c, some);
    SameMembersSameMultiset(a, b);
    StreamIsCanonical(a, b);
    DistinctIsOrderFree(a, b);
  }

  // ---- the record identifies the content ----

  /** The strings a capture of this content hashes. */
  ghost function HashedBy(sha: Hash, c: Tree): set<Bytes>
    requires Recordable(c)
  {
    {StreamOfContent(sha, c)} + set p | p in c && c[p].FileNode? :: c[p].data
  }

  lemma CanonicalNodeSameEntry(sha: Hash, p: Path, x: Node, y: Node)
    requires Capturable(p, x) && Capturable(p, y)
    requires x.FileNode? && y.FileNode? ==> Separates(sha, {x.data, y.data})
    ensures EntryOf(sha, p, x) == EntryOf(sha, p, y) <==> CanonicalNode(x) == CanonicalNode(y)
  {
    hide Posix, BigEndian;
    if x.FileNode? && y.FileNode? && EntryOf(sha, p, x) == EntryOf(sha, p, y) {
      var a, b := FilePayload(sha, x.data), FilePayload(sha, y.data);
      assert a[8..] == sha(x.data) && b[8..] == sha(y.data);
      assert x.data in {x.data, y.data} && y.data in {x.data, y.data};
    }
  }

  lemma EqualEntriesInclude(sha: Hash, a: Tree, b: Tree, p: Path)
    requires Recordable(a) && Recordable(b) && p in a
    requires Separates(sha, HashedBy(sha, a) + HashedBy(sha, b))
    requires StreamOfContent(sha, a) == StreamOfContent(sha, b)
    ensures p in b && CanonicalNode(b[p]) == CanonicalNode(a[p])
  {
    hide Posix, LengthsFit, SortByPath, Wire, Encodable, CanonicalNode, HasExecBit;
    var x, y := SomeOrder(a), SomeOrder(b);
    AcceptedAlong(sha, a, x);
    AcceptedAlong(sha, b, y);
    var ea, eb := Along(sha, a, x), Along(sha, b, y);
    StreamIsCanonical(ea, eb);
    MemberAlong(sha, a, x, p);
    var e := EntryOf(sha, p, a[p]);
    assert e in multiset(ea) && e in multiset(eb);
    var j :| 0 <= j < |eb| && eb[j] == e;
    EntryPath(sha, p, a[p]);
    EntryPath(sha, y[j], b[y[j]]);
    PosixInjective(p, y[j]);
    SeparatesFiles(sha, a, b, p);
    CanonicalNodeSameEntry(sha, p, a[p], b[p]);
  }

  lemma SeparatesFiles(sha: Hash, a: Tree, b: Tree, p: Path)
    requires Recordable(a) && Recordable(b) && p in a && p in b
    requires Separates(sha, HashedBy(sha, a) + HashedBy(sha, b))
    ensures a[p].FileNode? && b[p].FileNode? ==> Separates(sha, {a[p].data, b[p].data})
  {
    hide StreamOfContent;
    if a[p].FileNode? && b[p].FileNode? {
      assert a[p].data in HashedBy(sha, a) && b[p].data in HashedBy(sha, b);
    }
  }

  lemma CanonicalTreeSameEntries(sha: Hash, a: Tree, b: Tree, order: seq<Path>)
    requires AllCapturable(a) && AllCapturable(b) && CanonicalTree(a) == CanonicalTree(b)
    requires forall i :: 0 <= i < |order| ==> order[i] in a
    ensures forall i :: 0 <= i < |order| ==> order[i] in b
    ensures Along(sha, a, order) == Along(sha, b, order)
  {
    hide Posix, HasExecBit, BigEndian;
    forall i | 0 <= i < |order|
      ensures order[i] in b && EntryOf(sha, order[i], a[order[i]]) == EntryOf(sha, order[i], b[order[i]])
    {
      assert CanonicalTree(a)[order[i]] == CanonicalTree(b)[order[i]];
    }
  }

  lemma CanonicalTreeSameKeys(a: Tree, b: Tree)
    requires CanonicalTree(a) == CanonicalTree(b)
    ensures forall p :: p in a <==> p in b
  {
    assert forall p :: p in a <==> p in CanonicalTree(a);
    assert forall p :: p in b <==> p in CanonicalTree(b);
  }

  lemma CanonicalTreeSameRecord(sha: Hash, a: Tree, b: Tree)
    requires Recordable(a) && Recordable(b) && CanonicalTree(a) == CanonicalTree(b)
    ensures RecordOfContent(sha, a) == RecordOfContent(sha, b)
    ensures StreamOfContent(sha, a) == StreamOfContent(sha, b)
  {
    hide RecordOf, StreamOf, Accepted, LengthsFit, CanonicalTree, RecordOfContent, StreamOfContent;
    CanonicalTreeSameKeys(a, b);
    var order := SomeOrder(a);
    assert Enumerates(order, b);
    RecordInAnyOrder(sha, a, order);
    RecordInAnyOrder(sha, b, order);
    CanonicalTreeSameEntries(sha, a, b, order);
  }

  lemma SameRecordSameStream(sha: Hash, a: Tree, b: Tree)
    requires Recordable(a) && Recordable(b)
    requires Separates(sha, HashedBy(sha, a) + HashedBy(sha, b))
    requires RecordOfContent(sha, a) == RecordOfContent(sha, b)
    ensures StreamOfContent(sha, a) == StreamOfContent(sha, b)
  {
    hide StreamOf, Accepted, LengthsFit;
    assert StreamOfContent(sha, a) in HashedBy(sha, a) && StreamOfContent(sha, b) in HashedBy(sha, b);
  }

  /** The record identifies the content: same paths, kinds, executable bits,
      bytes and targets, as long as none of the strings hashed on either side
      collide. */
  lemma RecordIdentifiesContent(sha: Hash, a: Tree, b: Tree)
    requires Recordable(a) && Recordable(b)
    requires Separates(sha, HashedBy(sha, a) + HashedBy(sha, b))
    ensures RecordOfContent(sha, a) == RecordOfContent(sha, b) <==> CanonicalTree(a) == CanonicalTree(b)
  {
    hide Recordable, HashedBy, StreamOfContent, RecordOfContent, CanonicalNode;
    if CanonicalTree(a) == CanonicalTree(b) {
      CanonicalTreeSameRecord(sha, a, b);
    }
    if RecordOfContent(sha, a) == RecordOfContent(sha, b) {
      SameRecordSameStream(sha, a, b);
      forall p | p in a ensures p in b && CanonicalNode(b[p]) == CanonicalNode(a[p]) {
        EqualEntriesInclude(sha, a, b, p);
      }
      forall p | p in b ensures p in a {
        EqualEntriesInclude(sha, b, a, p);
      }
      assert a.Keys == b.Keys;
    }
  }
}
