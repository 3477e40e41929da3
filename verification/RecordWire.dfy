/** The documented byte stream of a distribution tree, octet by octet, and the
    record as its digest. */
module RecordWire {
  import opened Bytes
  import opened Wrappers
  import opened PathPolicy
  import opened SymlinkTarget
  import opened TreeRecord
  import opened Content

  // ---- octets ----

  /** n as four and as eight octets, the most significant first. */
  function Four(n: nat): Bytes {
    [n / 0x1000000 % 0x100, n / 0x10000 % 0x100, n / 0x100 % 0x100, n % 0x100]
  }

  function Eight(n: nat): Bytes { Four(n / 0x100000000) + Four(n) }

  lemma Quotients(n: nat)
    ensures n / 0x100 / 0x100 == n / 0x10000 && n / 0x10000 / 0x100 == n / 0x1000000
    ensures n / 0x1000000 / 0x100 == n / 0x100000000
  {
  }

  lemma BigEndianStep(n: nat, w: nat)
    requires n < Pow256(w) && w > 0
    ensures n / 256 < Pow256(w - 1) && BigEndian(n, w) == BigEndian(n / 256, w - 1) + [n % 256]
  {
  }

  lemma BigEndianTwo(n: nat, w: nat)
    requires n < Pow256(w) && w >= 2
    ensures n / 0x10000 < Pow256(w - 2) && BigEndian(n, w) == BigEndian(n / 0x10000, w - 2) + [n / 0x100 % 0x100, n % 0x100]
  {
    Quotients(n);
    BigEndianStep(n, w);
    BigEndianStep(n / 0x100, w - 1);
    hide BigEndian, Pow256;
    assert BigEndian(n / 0x10000, w - 2) + [n / 0x100 % 0x100] + [n % 0x100]
        == BigEndian(n / 0x10000, w - 2) + [n / 0x100 % 0x100, n % 0x100];
  }

  lemma LowFour(n: nat, w: nat)
    requires n < Pow256(w) && w >= 4
    ensures n / 0x100000000 < Pow256(w - 4) && BigEndian(n, w) == BigEndian(n / 0x100000000, w - 4) + Four(n)
  {
    Quotients(n);
    Quotients(n / 0x100);
    BigEndianTwo(n, w);
    BigEndianTwo(n / 0x10000, w - 2);
    hide BigEndian, Pow256;
    assert n / 0x10000 / 0x10000 == n / 0x100000000 && n / 0x10000 / 0x100 == n / 0x1000000;
    assert BigEndian(n / 0x100000000, w - 4) + [n / 0x1000000 % 0x100, n / 0x10000 % 0x100] + [n / 0x100 % 0x100, n % 0x100]
        == BigEndian(n / 0x100000000, w - 4) + Four(n);
  }

  lemma BigEndianFour(n: nat)
    requires n < Pow256(4)
    ensures BigEndian(n, 4) == Four(n)
  {
    LowFour(n, 4);
    assert BigEndian(n / 0x100000000, 0) == [];
    hide Four, BigEndian;
    assert [] + Four(n) == Four(n);
  }

  lemma BigEndianEight(n: nat)
    requires n < Pow256(8)
    ensures BigEndian(n, 8) == Eight(n)
  {
    LowFour(n, 8);
    hide Four;
    BigEndianFour(n / 0x100000000);
  }

  // ---- order ----

  /** a is a proper prefix of b, or smaller where they first differ. */
  ghost predicate Before(a: Bytes, b: Bytes) {
    exists n: nat :: BeforeAt(a, b, n)
  }

  predicate BeforeAt(a: Bytes, b: Bytes, n: nat) {
    n <= |a| && n < |b| && a[..n] == b[..n] && (n == |a| || a[n] < b[n])
  }

  lemma {:induction false} LessExactly(a: Bytes, b: Bytes)
    ensures Less(a, b) <==> Before(a, b)
  {
    if a == [] || b == [] || a[0] != b[0] {
      if Before(a, b) {
        var n: nat :| BeforeAt(a, b, n);
        if n > 0 { SameHead(a, b, n); }
      }
      if Less(a, b) {
        assert BeforeAt(a, b, 0);
      }
    } else {
      LessExactly(a[1..], b[1..]);
      if Less(a, b) {
        var n: nat :| BeforeAt(a[1..], b[1..], n);
        assert a[..n + 1] == [a[0]] + a[1..][..n] == b[..n + 1];
        assert BeforeAt(a, b, n + 1);
      }
      if Before(a, b) {
        var n: nat :| BeforeAt(a, b, n);
        BeforeTail(a, b, n);
      }
    }
  }

  lemma SameHead(a: Bytes, b: Bytes, n: nat)
    requires 0 < n <= |a| && n <= |b| && a[..n] == b[..n]
    ensures a[0] == b[0]
  {
    assert a[0] == a[..n][0];
  }

  lemma BeforeTail(a: Bytes, b: Bytes, n: nat)
    requires a != [] && b != [] && a[0] == b[0] && BeforeAt(a, b, n)
    ensures n > 0 && BeforeAt(a[1..], b[1..], n - 1)
  {
    if n > 0 {
      assert a[1..][..n - 1] == a[..n][1..] && b[1..][..n - 1] == b[..n][1..];
    }
  }

  // ---- nodes ----

  /** Some execute bit is set. */
  lemma ExecutableExactly(mode: nat)
    requires mode < 0x1000
    ensures HasExecBit(mode) <==> (mode as bv12) & 0x49 != 0
  {
    ExecuteBits(mode as bv12);
  }

  lemma ExecuteBits(m: bv12)
    ensures m & 0x49 != 0 <==> m % 2 == 1 || (m / 8) % 2 == 1 || (m / 64) % 2 == 1
  {
  }

  /** One node: its kind, path, mode and payload, the lengths before what they count. */
  function NodeBytes(sha: Hash, p: Path, node: Node): Bytes
    requires p != []
  {
    match node
    case DirNode => ['d' as byte] + Eight(|Posix(p)|) + Posix(p) + Four(0x1ED) + Eight(0)
    case LinkNode(target) => ['l' as byte] + Eight(|Posix(p)|) + Posix(p) + Four(0x1FF) + Eight(|target|) + target
    case FileNode(data, mode) =>
      ['f' as byte] + Eight(|Posix(p)|) + Posix(p) + Four(if HasExecBit(mode) then 0x1ED else 0x1A4)
      + Eight(40) + Eight(|data|) + sha(data)
    case SpecialNode => []
  }

  function Nodes(sha: Hash, c: Tree, order: seq<Path>): Bytes
    requires forall i :: 0 <= i < |order| ==> order[i] in c && order[i] != []
  {
    if order == [] then [] else NodeBytes(sha, order[0], c[order[0]]) + Nodes(sha, c, order[1..])
  }

  ghost predicate InPathOrder(order: seq<Path>) {
    && (forall i :: 0 <= i < |order| ==> order[i] != [])
    && forall i, j :: 0 <= i < j < |order| ==> Before(Posix(order[i]), Posix(order[j]))
  }

  lemma EntryBytes(sha: Hash, p: Path, node: Node)
    requires Capturable(p, node) && LengthsFit(p, node)
    ensures Encodable(EntryOf(sha, p, node)) && EntryWire(EntryOf(sha, p, node)) == NodeBytes(sha, p, node)
  {
    EntryEncodable(sha, p, node);
    hide Posix, HasExecBit, Four, Eight, Pow256, EntryWire, Encodable, LengthsFit;
    EntryParts(EntryOf(sha, p, node));
    if node.FileNode? {
      BigEndianEight(|node.data|);
      hide BigEndian;
      Regroup(['f' as byte] + Eight(|Posix(p)|) + Posix(p) + Four(CanonicalMode(node.mode)) + Eight(40), Eight(|node.data|), sha(node.data));
    } else if node.DirNode? {
      Regroup(['d' as byte] + Eight(|Posix(p)|) + Posix(p) + Four(0x1ED) + Eight(0), [], []);
    }
  }

  lemma Regroup(a: Bytes, b: Bytes, c: Bytes)
    ensures a + (b + c) == a + b + c && a + [] == a
  {
  }

  lemma EntryParts(e: Entry)
    requires Encodable(e)
    ensures EntryWire(e) == e.kind + Eight(|e.path|) + e.path + Four(e.mode) + Eight(|e.payload|) + e.payload
  {
    FieldBytes(e.path);
    FieldBytes(e.payload);
    BigEndianFour(ModeFits(e));
    assert EntryWire(e) == e.kind + Field(e.path) + BigEndian(ModeFits(e), 4) + Field(e.payload);
    hide *;
    Regroup(e.kind, Eight(|e.path|), e.path);
    Regroup(e.kind + Eight(|e.path|) + e.path + Four(e.mode), Eight(|e.payload|), e.payload);
  }

  lemma FieldBytes(data: Bytes)
    requires |data| < Pow256(8)
    ensures Field(data) == Eight(|data|) + data
  {
    BigEndianEight(|data|);
  }

  lemma {:induction false} EntriesBytes(sha: Hash, c: Tree, order: seq<Path>)
    requires AllCapturable(c) && forall p :: p in c ==> p != [] && LengthsFit(p, c[p])
    requires forall i :: 0 <= i < |order| ==> order[i] in c && order[i] != []
    ensures forall e :: e in Along(sha, c, order) ==> Encodable(e)
    ensures EntriesWire(Along(sha, c, order)) == Nodes(sha, c, order)
  {
    hide Encodable, EntryOf, LengthsFit, Capturable, NodeBytes, EntryWire, Posix;
    if order == [] {
      assert Along(sha, c, order) == [];
    } else {
      var es := Along(sha, c, order);
      EntryBytes(sha, order[0], c[order[0]]);
      assert es[1..] == Along(sha, c, order[1..]);
      EntriesBytes(sha, c, order[1..]);
    }
  }

  lemma AlongSorted(sha: Hash, c: Tree, order: seq<Path>)
    requires AllCapturable(c) && InPathOrder(order) && forall i :: 0 <= i < |order| ==> order[i] in c
    ensures StrictlySorted(Along(sha, c, order))
  {
    hide EntryOf, Posix, Before;
    var es := Along(sha, c, order);
    forall i, j | 0 <= i < j < |es| ensures Less(es[i].path, es[j].path) {
      EntryPath(sha, order[i], c[order[i]]);
      EntryPath(sha, order[j], c[order[j]]);
      LessExactly(es[i].path, es[j].path);
    }
  }

  lemma SortedStream(sha: Hash, es: seq<Entry>)
    requires Accepted(es) && StrictlySorted(es)
    ensures StreamOf(es) == Wire(es)
  {
    hide Encodable, Wire, Less;
    SortIsSorted(es);
    SortedIsUnique(SortByPath(es), es);
  }

  function Begin(n: nat): Bytes { Ascii("vibecrafted.distribution-tree.v1\0") + Eight(n) }

  lemma WireBytes(es: seq<Entry>)
    requires |es| < Pow256(8) && forall e :: e in es ==> Encodable(e)
    ensures Wire(es) == Begin(|es|) + EntriesWire(es)
  {
    hide EntriesWire, BigEndian, Encodable, Eight;
    BigEndianEight(|es|);
    DomainBytes();
  }

  lemma DomainBytes()
    ensures DOMAIN == Ascii("vibecrafted.distribution-tree.v1\0")
  {
    var s, t := "vibecrafted.distribution-tree.v1\0", "vibecrafted.distribution-tree.v1";
    assert s[..|t|] == t;
    assert forall i :: 0 <= i < |t| ==> s[i] == t[i];
    assert |Ascii(s)| == |t| + 1;
  }

  /** The record of a payload is the digest of the documented stream over its nodes
      in the order of their path bytes, and the number of nodes. */
  lemma RecordIsDocumented(sha: Hash, c: Tree, order: seq<Path>)
    requires Recordable(c) && Enumerates(order, c) && InPathOrder(order)
    ensures forall i :: 0 <= i < |order| ==> order[i] in c && order[i] != []
    ensures RecordOfContent(sha, c) == Record(sha(Begin(|c|) + Nodes(sha, c, order)), |c|)
  {
    assert forall i :: 0 <= i < |order| ==> order[i] in order;
    hide Capturable, LengthsFit, Posix, Encodable, EntryOf, Nodes, Wire, Begin, EntriesWire, Before, SortByPath, RecordOfContent,
      DistinctPaths;
    EnumerationSize(order, c);
    AcceptedAlong(sha, c, order);
    AlongSorted(sha, c, order);
    RecordInAnyOrder(sha, c, order);
    var es := Along(sha, c, order);
    SortedStream(sha, es);
    NamedNodes(c);
    EntriesBytes(sha, c, order);
    WireBytes(es);
  }

  lemma NamedNodes(c: Tree)
    requires Recordable(c)
    ensures AllCapturable(c) && forall p :: p in c ==> p != [] && LengthsFit(p, c[p])
  {
  }

  function Places(ordered: seq<Entry>): (order: seq<Path>)
    ensures |order| == |ordered| && forall i :: 0 <= i < |order| ==> order[i] == Parts(ordered[i].path)
  {
    seq(|ordered|, i requires 0 <= i < |ordered| => Parts(ordered[i].path))
  }

  ghost predicate Spelled(e: Entry, c: Tree) {
    Parts(e.path) != [] && Posix(Parts(e.path)) == e.path && Parts(e.path) in c
  }

  ghost predicate HasPlace(ordered: seq<Entry>, p: Path) { exists e :: e in ordered && Parts(e.path) == p }

  lemma SortedInPathOrder(ordered: seq<Entry>, c: Tree)
    requires StrictlySorted(ordered)
    requires forall e :: e in ordered ==> Spelled(e, c)
    requires forall p :: p in c ==> HasPlace(ordered, p)
    ensures InPathOrder(Places(ordered)) && Enumerates(Places(ordered), c)
  {
    hide Posix, Parts, Before, Less;
    var order := Places(ordered);
    assert forall i :: 0 <= i < |ordered| ==> ordered[i] in ordered && Spelled(ordered[i], c);
    forall i, j | 0 <= i < j < |order| ensures Before(Posix(order[i]), Posix(order[j])) && order[i] != order[j] {
      LessExactly(ordered[i].path, ordered[j].path);
      LessTrichotomy(ordered[i].path, ordered[j].path);
    }
    forall p | p in c ensures p in order {
      assert HasPlace(ordered, p);
      var e :| e in ordered && Parts(e.path) == p;
      var k :| 0 <= k < |ordered| && ordered[k] == e;
      assert order[k] == p;
    }
  }

  /** Such an order always exists. */
  lemma PathOrderExists(sha: Hash, c: Tree)
    requires Recordable(c)
    ensures exists order :: Enumerates(order, c) && InPathOrder(order)
  {
    var some := SomeOrder(c);
    NamedNodes(c);
    AcceptedAlong(sha, c, some);
    var es := Along(sha, c, some);
    var ordered := SortByPath(es);
    SortIsSorted(es);
    SortedEncodable(es);
    hide Capturable, LengthsFit, Posix, Parts, EntryOf, SortByPath, Recordable, Along, Spelled, HasPlace, InPathOrder, Enumerates,
      Encodable, StrictlySorted, AllCapturable, DistinctPaths;
    forall e | e in ordered ensures Spelled(e, c) {
      EntrySpelled(sha, c, some, e);
    }
    forall p | p in c ensures HasPlace(ordered, p) {
      EntryPlaced(sha, c, some, p);
      var e :| e in es && Parts(e.path) == p;
      PlaceIs(ordered, p, e);
    }
    SortedInPathOrder(ordered, c);
  }

  lemma PlaceIs(ordered: seq<Entry>, p: Path, e: Entry)
    requires e in ordered && Parts(e.path) == p
    ensures HasPlace(ordered, p)
  {
  }

  lemma EntrySpelled(sha: Hash, c: Tree, some: seq<Path>, e: Entry)
    requires AllCapturable(c) && forall i :: 0 <= i < |some| ==> some[i] in c
    requires e in Along(sha, c, some)
    ensures Spelled(e, c)
  {
    hide Posix, EntryOf, Parts, Capturable;
    var k :| 0 <= k < |some| && Along(sha, c, some)[k] == e;
    EntryPath(sha, some[k], c[some[k]]);
    PartsOfPosix(some[k]);
  }

  lemma EntryPlaced(sha: Hash, c: Tree, some: seq<Path>, p: Path)
    requires AllCapturable(c) && Enumerates(some, c) && p in c && forall i :: 0 <= i < |some| ==> some[i] in c
    ensures exists e :: e in Along(sha, c, some) && Parts(e.path) == p
  {
    hide Posix, EntryOf, Parts, Capturable;
    MemberAlong(sha, c, some, p);
    EntryPath(sha, p, c[p]);
    PartsOfPosix(p);
  }
}
