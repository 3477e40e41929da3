/** The two comparisons that follow the writing of an archive: with the staged
    files it was written from, and with the Git revision it claims. */
module ArchiveChecks {
  import opened Bytes
  import opened Wrappers
  import opened PathPolicy
  import opened SymlinkTarget
  import opened TreeRecord
  import opened Content
  import opened FileTree
  import opened GitPayload
  import opened Archive
  import opened StagedRevision

  // ---- reading the members ----

  datatype Check = WithStaged | WithRevision

  /** How a check treats the member of the archive root, and the names below it. */
  predicate Readable(check: Check, root: Bytes, m: Member) {
    if m.name == root then m.kind == DirMember && (check == WithStaged ==> m.mode % 4096 == MODE_DIR)
    else
      && UnderRoot(root, m.name)
      && !IsAbsolute(RawRelative(root, m.name)) && !HasDotDot(Relative(root, m))
      && (check == WithStaged ==> Relative(root, m) != [])
  }

  /** The member stands for the path. */
  predicate For(root: Bytes, m: Member, p: Path) {
    m.name != root && UnderRoot(root, m.name) && Relative(root, m) == p
  }

  ghost predicate AllReadable(check: Check, root: Bytes, members: seq<Member>) {
    && (forall k :: 0 <= k < |members| ==> Readable(check, root, members[k]))
    && (forall j, k, p :: 0 <= j < k < |members| && For(root, members[j], p) ==> !For(root, members[k], p))
  }

  /** The dictionary from relative paths to members. */
  ghost predicate Indexes(root: Bytes, members: seq<Member>, actual: map<Path, Member>) {
    && (forall k, p :: 0 <= k < |members| && For(root, members[k], p) ==> p in actual && actual[p] == members[k])
    && (forall p :: p in actual ==> exists k :: 0 <= k < |members| && For(root, members[k], p))
  }

  lemma ReadNext(check: Check, root: Bytes, done: seq<Member>, actual: map<Path, Member>, m: Member)
    requires AllReadable(check, root, done) && Indexes(root, done, actual)
    ensures AllReadable(check, root, done + [m])
            <==> Readable(check, root, m) && (m.name != root ==> Relative(root, m) !in actual)
    ensures AllReadable(check, root, done + [m]) ==>
              Indexes(root, done + [m], if m.name == root then actual else actual[Relative(root, m) := m])
  {
    hide Readable, Relative, UnderRoot;
    var all := done + [m];
    assert all[|done|] == m && forall k :: 0 <= k < |done| ==> all[k] == done[k];
    ReadableUnder(check, root, m);
    if Readable(check, root, m) && m.name != root {
      var p := Relative(root, m);
      if p in actual {
        var k :| 0 <= k < |done| && For(root, done[k], p);
        assert For(root, all[k], p) && For(root, all[|done|], p);
      } else {
        IndexesNext(root, done, actual, m, p);
      }
    } else if Readable(check, root, m) {
      IndexesSame(root, done, actual, m);
    }
  }

  lemma ReadableUnder(check: Check, root: Bytes, m: Member)
    ensures Readable(check, root, m) && m.name != root ==> UnderRoot(root, m.name)
  {
  }

  lemma IndexesNext(root: Bytes, done: seq<Member>, actual: map<Path, Member>, m: Member, p: Path)
    requires Indexes(root, done, actual) && For(root, m, p) && p !in actual
    ensures Indexes(root, done + [m], actual[p := m])
  {
    var all, after := done + [m], actual[p := m];
    assert forall q :: For(root, m, q) ==> q == p;
    hide For;
    forall q | q in after ensures exists k :: 0 <= k < |all| && For(root, all[k], q) {
      if q == p {
        assert all[|done|] == m;
      } else {
        var k :| 0 <= k < |done| && For(root, done[k], q);
        assert all[k] == done[k];
      }
    }
  }

  lemma RootStandsForNothing(root: Bytes, m: Member)
    requires m.name == root
    ensures forall q :: !For(root, m, q)
  {
  }

  lemma IndexesSame(root: Bytes, done: seq<Member>, actual: map<Path, Member>, m: Member)
    requires Indexes(root, done, actual) && m.name == root
    ensures Indexes(root, done + [m], actual)
  {
    hide For;
    var all := done + [m];
    RootStandsForNothing(root, m);
    forall q | q in actual ensures exists k :: 0 <= k < |all| && For(root, all[k], q) {
      var k :| 0 <= k < |done| && For(root, done[k], q);
      assert all[k] == done[k];
    }
  }

  lemma UnreadablePrefix(check: Check, root: Bytes, members: seq<Member>, n: nat)
    requires n <= |members| && AllReadable(check, root, members)
    ensures AllReadable(check, root, members[..n])
  {
    hide Readable, For;
  }

  lemma NothingRead(check: Check, root: Bytes)
    ensures AllReadable(check, root, []) && Indexes(root, [], map[])
  {
  }

  /** The loop over the members; None where some member is refused. */
  method ReadMembers(check: Check, root: Bytes, members: seq<Member>) returns (r: Option<map<Path, Member>>)
    ensures r.Some? <==> AllReadable(check, root, members)
    ensures r.Some? ==> Indexes(root, members, r.value)
  {
    hide AllReadable, Indexes, Readable, Relative, IsAbsolute;
    NothingRead(check, root);
    var actual: map<Path, Member> := map[];
    var i := 0;
    while i < |members|
      invariant i <= |members|
      invariant AllReadable(check, root, members[..i]) && Indexes(root, members[..i], actual)
    {
      var m := members[i];
      assert members[..i + 1] == members[..i] + [m];
      ReadNext(check, root, members[..i], actual, m);
      ReadableUnder(check, root, m);
      if !Readable(check, root, m) || (m.name != root && Relative(root, m) in actual) {
        if AllReadable(check, root, members) { UnreadablePrefix(check, root, members, i + 1); }
        return None;
      }
      if m.name != root {
        actual := actual[Relative(root, m) := m];
      }
      i := i + 1;
    }
    assert members[..i] == members;
    r := Some(actual);
  }

  // ---- _assert_archive_matches_staged_payload ----

  /** One member is a copy of its staged node, as far as types, modes, targets and
      the digests of the bytes tell. */
  predicate Copies(id: BlobId, m: Member, node: Node) {
    match node
    case LinkNode(target) => m.kind == SymMember && m.mode % 4096 == MODE_LINK && m.linkname == target
    case DirNode => m.kind == DirMember && m.mode % 4096 == MODE_DIR
    case FileNode(data, mode) =>
      m.kind == RegMember && m.mode % 4096 == CanonicalMode(mode) && m.size == |m.data| && id(m.data) == id(data)
    case SpecialNode => false
  }

  ghost function VisitedTree(t: Tree): Tree { map p | p in t && Visited(t, p) :: t[p] }

  /** Every member is a copy of a node, and every node has its member. */
  ghost predicate CopiesAll(id: BlobId, root: Bytes, members: seq<Member>, nodes: Tree) {
    && (forall k, p :: 0 <= k < |members| && For(root, members[k], p) ==> p in nodes && Copies(id, members[k], nodes[p]))
    && (forall p :: p in nodes ==> exists k :: 0 <= k < |members| && For(root, members[k], p))
  }

  ghost predicate MatchesStaged(id: BlobId, root: Bytes, t: Tree, members: seq<Member>) {
    AllReadable(WithStaged, root, members) && RootCountOf(root, members) == 1 && CopiesAll(id, root, members, VisitedTree(t))
  }

  ghost predicate IndexCopies(id: BlobId, actual: map<Path, Member>, nodes: Tree) {
    actual.Keys == nodes.Keys && forall p :: p in actual && p in nodes ==> Copies(id, actual[p], nodes[p])
  }

  lemma IndexedCopies(id: BlobId, root: Bytes, members: seq<Member>, actual: map<Path, Member>, nodes: Tree)
    requires Indexes(root, members, actual)
    ensures CopiesAll(id, root, members, nodes) <==> IndexCopies(id, actual, nodes)
  {
    hide For, Copies;
    if CopiesAll(id, root, members, nodes) {
      assert forall p :: p in actual <==> p in nodes;
      forall p | p in actual ensures Copies(id, actual[p], nodes[p]) {
        var k :| 0 <= k < |members| && For(root, members[k], p);
      }
    }
  }

  method CountRoots(root: Bytes, members: seq<Member>) returns (n: nat)
    ensures n == RootCountOf(root, members)
  {
    n := 0;
    var i := 0;
    while i < |members|
      invariant i <= |members| && n == RootCountOf(root, members[..i])
    {
      assert members[..i + 1][..i] == members[..i];
      if members[i].name == root { n := n + 1; }
      i := i + 1;
    }
    assert members[..i] == members;
  }

  method AssertMatchesStaged(id: BlobId, root: Bytes, t: Tree, members: seq<Member>) returns (ok: bool)
    ensures ok <==> MatchesStaged(id, root, t, members)
  {
    hide Copies, AllReadable, Indexes, CopiesAll, RootCountOf, Visited;
    var walked := WalkEntries(t);
    VisitedInTree(t);
    var expected: Tree := map p | p in walked :: t[p];
    assert expected == VisitedTree(t);
    var actual := ReadMembers(WithStaged, root, members);
    if actual == None { return false; }
    var roots := CountRoots(root, members);
    IndexedCopies(id, root, members, actual.value, expected);
    var alike := CompareCopies(id, actual.value, expected);
    ok := roots == 1 && alike;
  }

  /** The two sets of paths, and then each common path. */
  method CompareCopies(id: BlobId, actual: map<Path, Member>, expected: Tree) returns (ok: bool)
    ensures ok <==> IndexCopies(id, actual, expected)
  {
    hide Copies;
    ok := actual.Keys == expected.Keys;
    var left := actual.Keys * expected.Keys;
    while left != {}
      invariant left <= actual.Keys * expected.Keys
      invariant ok <==> actual.Keys == expected.Keys
                        && forall p :: p in actual && p in expected && p !in left ==> Copies(id, actual[p], expected[p])
      decreases |left|
    {
      var p :| p in left;
      if !Copies(id, actual[p], expected[p]) {
        ok := false;
      }
      left := left - {p};
    }
  }

  // ---- what that comparison establishes ----

  lemma CopyIsNode(id: BlobId, m: Member, node: Node)
    requires NoCollision(id, {m.data, BytesOf(node)})
    ensures Copies(id, m, node) ==> MemberNode(m) == CanonicalNode(node) && MemberNode(m) != SpecialNode
  {
    assert m.data in {m.data, BytesOf(node)} && BytesOf(node) in {m.data, BytesOf(node)};
  }

  lemma {:induction false} UnpackAt(check: Check, root: Bytes, members: seq<Member>, k: nat, p: Path)
    requires AllReadable(check, root, members) && k < |members| && For(root, members[k], p)
    ensures p in Unpack(root, members) && Unpack(root, members)[p] == MemberNode(members[k])
  {
    hide Readable, Relative, MemberNode;
    var n := |members| - 1;
    if k < n {
      UnreadablePrefix(check, root, members, n);
      UnpackAt(check, root, members[..n], k, p);
      assert !For(root, members[n], p);
    }
  }

  lemma {:induction false} UnpackFrom(root: Bytes, members: seq<Member>, p: Path)
    requires p in Unpack(root, members)
    ensures exists k :: 0 <= k < |members| && For(root, members[k], p)
  {
    hide Relative, MemberNode;
    var n := |members| - 1;
    if !For(root, members[n], p) {
      UnpackFrom(root, members[..n], p);
      var k :| 0 <= k < n && For(root, members[..n][k], p);
      assert For(root, members[k], p);
    }
  }

  /** The strings whose ids the comparison relies on. */
  ghost function ComparedBytes(members: seq<Member>, t: Tree): set<Bytes> {
    (set k | 0 <= k < |members| :: members[k].data) + (set p | p in t :: BytesOf(t[p]))
  }

  /** A directory of mode 0755, a link of mode 0777, or a whole file of mode 0644 or 0755. */
  predicate CanonicalHeader(m: Member) {
    match m.kind
    case DirMember => m.mode % 0x1000 == 0x1ED
    case SymMember => m.mode % 0x1000 == 0x1FF
    case RegMember => m.mode % 0x1000 in {0x1A4, 0x1ED}
    case OtherMember => false
  }

  /** Every member is the root directory or named below it, without climbing, and the
      latter have canonical headers. */
  ghost predicate CanonicalHeaders(root: Bytes, members: seq<Member>) {
    && (forall k, p :: 0 <= k < |members| && For(root, members[k], p) ==> CanonicalHeader(members[k]))
    && (forall k :: 0 <= k < |members| ==> NamedWell(root, members[k]))
  }

  predicate NamedWell(root: Bytes, m: Member) {
    if m.name == root then m.kind == DirMember
    else
      && root + [47] <= m.name
      && var raw := m.name[|root| + 1..]; (raw == [] || raw[0] != 47) && !HasDotDot(Parts(raw))
  }

  lemma ReadableNamed(check: Check, root: Bytes, members: seq<Member>)
    requires AllReadable(check, root, members)
    ensures forall k :: 0 <= k < |members| ==> NamedWell(root, members[k])
  {
    hide Parts, HasDotDot;
    forall k | 0 <= k < |members| ensures NamedWell(root, members[k]) {
      assert Readable(check, root, members[k]);
    }
  }

  lemma CopyHeader(id: BlobId, m: Member, node: Node)
    requires Copies(id, m, node)
    ensures CanonicalHeader(m)
  {
  }

  lemma CopiedHeaders(id: BlobId, root: Bytes, t: Tree, members: seq<Member>)
    requires MatchesStaged(id, root, t, members)
    ensures CanonicalHeaders(root, members)
  {
    ReadableNamed(WithStaged, root, members);
    hide For, AllReadable, RootCountOf, Copies, CanonicalHeader, Visited, NamedWell;
    forall k, p | 0 <= k < |members| && For(root, members[k], p) ensures CanonicalHeader(members[k]) {
      CopyHeader(id, members[k], VisitedTree(t)[p]);
    }
  }

  /** An archive that matches the staged files unpacks to exactly what the walk sees
      of them, with canonical modes, digest collisions apart. */
  lemma MatchingUnpacks(id: BlobId, root: Bytes, t: Tree, members: seq<Member>)
    requires MatchesStaged(id, root, t, members) && NoCollision(id, ComparedBytes(members, t))
    ensures Unpack(root, members) == CanonicalTree(VisitedTree(t)) && CanonicalHeaders(root, members)
  {
    hide *;
    CopiedHeaders(id, root, t, members);
    UnpackedCopies(id, root, t, members);
  }

  lemma UnpackedCopies(id: BlobId, root: Bytes, t: Tree, members: seq<Member>)
    requires MatchesStaged(id, root, t, members) && NoCollision(id, ComparedBytes(members, t))
    ensures Unpack(root, members) == CanonicalTree(VisitedTree(t))
  {
    hide AllReadable, For, Copies, Unpack, CanonicalNode, MemberNode, Visited, RootCountOf;
    var nodes, u := VisitedTree(t), Unpack(root, members);
    forall p ensures p in u <==> p in nodes {
      if p in u { UnpackFrom(root, members, p); }
      if p in nodes {
        var k :| 0 <= k < |members| && For(root, members[k], p);
        UnpackAt(WithStaged, root, members, k, p);
      }
    }
    forall p | p in nodes ensures u[p] == CanonicalNode(nodes[p]) {
      var k :| 0 <= k < |members| && For(root, members[k], p);
      UnpackAt(WithStaged, root, members, k, p);
      assert members[k].data in ComparedBytes(members, t) && BytesOf(t[p]) in ComparedBytes(members, t);
      CopyIsNode(id, members[k], t[p]);
    }
  }

  // ---- _assert_archive_matches_git_revision ----

  /** json.load of the carrier, where it is one. */
  type Parse = Bytes -> Option<Provenance>

  predicate CarrierFits(parse: Parse, provenance: Provenance, m: Member) {
    m.kind == RegMember && m.mode % 4096 == MODE_PLAIN && parse(m.data) == Some(provenance)
  }

  predicate EntryFits(id: BlobId, e: GitEntry, m: Member) {
    && SupportedMode(e)
    && if e.mode == "120000" then m.kind == SymMember && m.mode % 4096 == MODE_LINK && id(m.linkname) == e.oid
       else m.kind == RegMember && m.size == |m.data| && id(m.data) == e.oid
            && m.mode % 4096 == (if e.mode == "100755" then MODE_EXEC else MODE_PLAIN)
  }

  predicate PathFits(id: BlobId, entries: Entries, directories: set<Path>, p: Path, m: Member) {
    if p in directories then m.kind == DirMember && m.mode % 4096 == MODE_DIR
    else p in entries && EntryFits(id, entries[p], m)
  }

  predicate MemberFits(id: BlobId, parse: Parse, entries: Entries, directories: set<Path>, provenance: Provenance, p: Path, m: Member) {
    if IsCarrier(p) then CarrierFits(parse, provenance, m)
    else p in entries.Keys + directories && PathFits(id, entries, directories, p, m)
  }

  ghost predicate AllFit(id: BlobId, parse: Parse, root: Bytes, entries: Entries, provenance: Provenance, members: seq<Member>) {
    forall k, p :: 0 <= k < |members| && For(root, members[k], p) ==>
      MemberFits(id, parse, entries, Directories(entries), provenance, p, members[k])
  }

  /** Each path has a member. */
  ghost predicate Covers(root: Bytes, members: seq<Member>, paths: set<Path>) {
    forall p :: p in paths ==> exists k :: 0 <= k < |members| && For(root, members[k], p)
  }

  ghost predicate MatchesGit(id: BlobId, parse: Parse, root: Bytes, entries: Entries, provenance: Provenance, members: seq<Member>) {
    && AllReadable(WithRevision, root, members)
    && AllFit(id, parse, root, entries, provenance, members)
    && Covers(root, members, entries.Keys + Directories(entries))
    && exists c :: IsCarrier(c) && Covers(root, members, {c})
  }

  /** The same on the dictionary of the members. */
  ghost predicate IndexFits(id: BlobId, parse: Parse, entries: Entries, directories: set<Path>, provenance: Provenance,
                            actual: map<Path, Member>) {
    && (forall p :: p in actual ==> MemberFits(id, parse, entries, directories, provenance, p, actual[p]))
    && entries.Keys + directories <= actual.Keys
    && (exists p :: IsCarrier(p) && p in actual)
  }

  lemma IndexedFits(id: BlobId, parse: Parse, root: Bytes, entries: Entries, provenance: Provenance,
                    members: seq<Member>, actual: map<Path, Member>)
    requires AllReadable(WithRevision, root, members) && Indexes(root, members, actual)
    ensures MatchesGit(id, parse, root, entries, provenance, members)
            <==> IndexFits(id, parse, entries, Directories(entries), provenance, actual)
  {
    hide AllReadable, For, MemberFits, IsCarrier, Directories;
    var directories := Directories(entries);
    if MatchesGit(id, parse, root, entries, provenance, members) {
      forall p | p in actual ensures MemberFits(id, parse, entries, directories, provenance, p, actual[p]) {
        var k :| 0 <= k < |members| && For(root, members[k], p);
      }
      var c :| IsCarrier(c) && Covers(root, members, {c});
      assert c in {c};
      var k :| 0 <= k < |members| && For(root, members[k], c);
      assert c in actual;
    }
    if IndexFits(id, parse, entries, directories, provenance, actual) {
      forall k, p | 0 <= k < |members| && For(root, members[k], p)
        ensures MemberFits(id, parse, entries, directories, provenance, p, members[k])
      {
        assert actual[p] == members[k];
      }
      var c :| IsCarrier(c) && c in actual;
      assert Covers(root, members, {c});
    }
  }

  method AssertMatchesGit(id: BlobId, parse: Parse, root: Bytes, entries: Entries, provenance: Provenance, members: seq<Member>)
    returns (ok: bool)
    ensures ok <==> MatchesGit(id, parse, root, entries, provenance, members)
  {
    hide MemberFits, IsCarrier, Directories, AllReadable, Indexes, IndexFits;
    var directories := ExpectedGitPayload(entries);
    var read := ReadMembers(WithRevision, root, members);
    if read == None { return false; }
    var actual := read.value;
    IndexedFits(id, parse, root, entries, provenance, members, actual);
    ok := CompareFits(id, parse, entries, directories, provenance, actual);
  }

  method CompareFits(id: BlobId, parse: Parse, entries: Entries, directories: set<Path>, provenance: Provenance,
                     actual: map<Path, Member>)
    returns (ok: bool)
    ensures ok <==> IndexFits(id, parse, entries, directories, provenance, actual)
  {
    hide MemberFits, IsCarrier;
    var expected := entries.Keys + directories;
    var carriers: set<Path> := set p | p in actual && IsCarrier(p);
    ok := expected <= actual.Keys && carriers != {};
    var left := actual.Keys;
    while left != {}
      invariant left <= actual.Keys
      invariant ok <==> expected <= actual.Keys && carriers != {}
                        && forall p :: p in actual && p !in left ==> MemberFits(id, parse, entries, directories, provenance, p, actual[p])
      decreases |left|
    {
      var p :| p in left;
      if !MemberFits(id, parse, entries, directories, provenance, p, actual[p]) {
        ok := false;
      }
      left := left - {p};
    }
    if p :| IsCarrier(p) && p in actual {
      assert p in carriers;
    } else {
      assert carriers == {};
    }
  }

  // ---- and what that one establishes ----

  /** The strings whose ids the comparison relies on. */
  ghost function FittedBytes(members: seq<Member>, entries: Entries, blobs: Blobs): set<Bytes> {
    (set k | 0 <= k < |members| :: BytesOf(MemberNode(members[k])))
    + (set p | p in entries && entries[p].oid in blobs :: blobs[entries[p].oid])
  }

  lemma EntryFitsNode(id: BlobId, p: Path, e: GitEntry, blobs: Blobs, m: Member)
    requires p != [] && SupportedEntry(p, e, blobs) && e.oid in blobs && id(blobs[e.oid]) == e.oid && EntryFits(id, e, m)
    requires NoCollision(id, {BytesOf(MemberNode(m)), blobs[e.oid]})
    ensures MemberNode(m) == GitNode(e, blobs)
  {
    hide TargetAccepted;
    assert BytesOf(MemberNode(m)) in {BytesOf(MemberNode(m)), blobs[e.oid]} && blobs[e.oid] in {BytesOf(MemberNode(m)), blobs[e.oid]};
  }

  lemma FitsAt(id: BlobId, entries: Entries, blobs: Blobs, members: seq<Member>, k: nat, p: Path)
    requires AllSupported(entries, blobs) && NoConflict(entries) && Consistent(id, entries, blobs) && k < |members|
    requires NoCollision(id, FittedBytes(members, entries, blobs))
    requires p in entries.Keys + Directories(entries) && PathFits(id, entries, Directories(entries), p, members[k])
    ensures p in Materialized(entries, blobs) && MemberNode(members[k]) == Materialized(entries, blobs)[p]
  {
    hide EntryFits, SupportedEntry, GitNode, Directories, MemberNode;
    if p in entries {
      SupportedHasBlob(p, entries[p], blobs);
      assert BytesOf(MemberNode(members[k])) in FittedBytes(members, entries, blobs);
      assert blobs[entries[p].oid] in FittedBytes(members, entries, blobs);
      EntryFitsNode(id, p, entries[p], blobs, members[k]);
    } else {
      DirMemberNode(members[k]);
    }
  }

  lemma DirMemberNode(m: Member)
    ensures m.kind == DirMember ==> MemberNode(m) == DirNode
  {
  }

  /** An archive that matches the revision unpacks to exactly the tree that the
      objects describe, and to a carrier that holds the provenance, collisions of
      blob ids apart. */
  lemma MatchingRevisionUnpacks(id: BlobId, parse: Parse, root: Bytes, entries: Entries, blobs: Blobs, provenance: Provenance,
                                members: seq<Member>)
    requires MatchesGit(id, parse, root, entries, provenance, members)
    requires AllSupported(entries, blobs) && NoConflict(entries) && Consistent(id, entries, blobs)
    requires NoCollision(id, FittedBytes(members, entries, blobs))
    ensures WithoutCarrier(Unpack(root, members)) == WithoutCarrier(Materialized(entries, blobs))
    ensures CanonicalHeaders(root, members)
    ensures exists c :: IsCarrier(c) && c in Unpack(root, members) && Unpack(root, members)[c].FileNode?
                        && Unpack(root, members)[c].mode == 0x1A4 && parse(Unpack(root, members)[c].data) == Some(provenance)
  {
    var u, t := Unpack(root, members), Materialized(entries, blobs);
    forall p | p in u ensures Same(u, t, p) {
      UnpackedFits(id, parse, root, entries, blobs, provenance, members, p);
    }
    forall p | p in entries.Keys + Directories(entries) ensures p in u {
      UnpackedAll(id, parse, root, entries, provenance, members, p);
    }
    UnpackedCarrier(id, parse, root, entries, provenance, members);
    MaterializedKeys(entries, blobs);
    FittedHeaders(id, parse, root, entries, provenance, members);
    hide *;
    SameWithoutCarrier(u, t);
  }

  lemma FittedHeaders(id: BlobId, parse: Parse, root: Bytes, entries: Entries, provenance: Provenance, members: seq<Member>)
    requires MatchesGit(id, parse, root, entries, provenance, members)
    ensures CanonicalHeaders(root, members)
  {
    ReadableNamed(WithRevision, root, members);
    hide For, Directories, AllReadable, Covers, IsCarrier, CanonicalHeader, NamedWell;
    forall k, p | 0 <= k < |members| && For(root, members[k], p) ensures CanonicalHeader(members[k]) {
      FittedHeader(id, parse, entries, Directories(entries), provenance, p, members[k]);
    }
  }

  lemma FittedHeader(id: BlobId, parse: Parse, entries: Entries, directories: set<Path>, provenance: Provenance, p: Path, m: Member)
    requires MemberFits(id, parse, entries, directories, provenance, p, m)
    ensures CanonicalHeader(m)
  {
    hide IsCarrier;
  }

  lemma MaterializedKeys(entries: Entries, blobs: Blobs)
    requires AllSupported(entries, blobs)
    ensures Materialized(entries, blobs).Keys == entries.Keys + Directories(entries)
  {
    hide AllSupported, Directories, GitNode;
  }

  lemma SameWithoutCarrier(u: Tree, t: Tree)
    requires forall p :: p in u ==> Same(u, t, p)
    requires forall p :: p in t.Keys ==> p in u
    ensures WithoutCarrier(u) == WithoutCarrier(t)
  {
    hide IsCarrier;
    var a, b := WithoutCarrier(u), WithoutCarrier(t);
    assert forall p :: p in u ==> Same(u, t, p);
    assert a.Keys == b.Keys;
  }

  lemma UnpackedFits(id: BlobId, parse: Parse, root: Bytes, entries: Entries, blobs: Blobs, provenance: Provenance,
                     members: seq<Member>, p: Path)
    requires MatchesGit(id, parse, root, entries, provenance, members)
    requires AllSupported(entries, blobs) && NoConflict(entries) && Consistent(id, entries, blobs)
    requires NoCollision(id, FittedBytes(members, entries, blobs)) && p in Unpack(root, members)
    ensures Same(Unpack(root, members), Materialized(entries, blobs), p)
  {
    hide AllReadable, For, PathFits, CarrierFits, Unpack, MemberNode, IsCarrier, Directories, AllSupported, NoConflict, Consistent,
      NoCollision, FittedBytes, Materialized, Covers;
    UnpackFrom(root, members, p);
    var k :| 0 <= k < |members| && For(root, members[k], p);
    UnpackAt(WithRevision, root, members, k, p);
    if !IsCarrier(p) { FitsAt(id, entries, blobs, members, k, p); }
  }

  lemma UnpackedAll(id: BlobId, parse: Parse, root: Bytes, entries: Entries, provenance: Provenance, members: seq<Member>, p: Path)
    requires MatchesGit(id, parse, root, entries, provenance, members) && p in entries.Keys + Directories(entries)
    ensures p in Unpack(root, members)
  {
    hide AllReadable, For, AllFit, Unpack, IsCarrier, Directories;
    var k :| 0 <= k < |members| && For(root, members[k], p);
    UnpackAt(WithRevision, root, members, k, p);
  }

  lemma UnpackedCarrier(id: BlobId, parse: Parse, root: Bytes, entries: Entries, provenance: Provenance, members: seq<Member>)
    requires MatchesGit(id, parse, root, entries, provenance, members)
    ensures exists c :: IsCarrier(c) && c in Unpack(root, members) && Unpack(root, members)[c].FileNode?
                        && Unpack(root, members)[c].mode == 0x1A4 && parse(Unpack(root, members)[c].data) == Some(provenance)
  {
    hide AllReadable, For, PathFits, CarrierFits, Unpack, MemberNode, IsCarrier, Directories;
    var c :| IsCarrier(c) && Covers(root, members, {c});
    assert c in {c};
    var k :| 0 <= k < |members| && For(root, members[k], c);
    UnpackAt(WithRevision, root, members, k, c);
    CarrierNode(parse, provenance, members[k]);
  }

  /** Off the carrier, u has at p what t has there. */
  ghost predicate Same(u: Tree, t: Tree, p: Path) {
    p in u && (!IsCarrier(p) ==> p in t && u[p] == t[p])
  }

  lemma CarrierNode(parse: Parse, provenance: Provenance, m: Member)
    requires CarrierFits(parse, provenance, m)
    ensures MemberNode(m) == FileNode(m.data, 0x1A4) && parse(m.data) == Some(provenance)
  {
  }
}
