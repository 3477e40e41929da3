/** The distribution archive: writing a payload tree as tar members, and
    verifying members against the provenance that travels with them. */
module Archive {
  import opened Bytes
  import opened Wrappers
  import opened PathPolicy
  import opened SymlinkTarget
  import opened TreeRecord
  import opened Content
  import opened FileTree

  datatype MemberKind = RegMember | DirMember | SymMember | OtherMember

  /** One tar member: its header fields and the bytes its stream yields. */
  datatype Member = Member(name: Bytes, kind: MemberKind, mode: nat, size: nat, linkname: Bytes, data: Bytes)

  datatype Provenance = Provenance(ownerRepo: string, sourceRevision: string, payload: Record)

  /** _canonical_provenance_bytes: canonical JSON text, left abstract. */
  type Render = Provenance -> Bytes

  datatype ArchiveError =
    | InvalidRoot | UnexpectedRoot | UnsafePath | NoncanonicalSpelling | DuplicatePath
    | InvalidCarrier | CarrierSize | DeniedPath | UnexpectedPath | BadMode | BadTarget | BadType
    | RootCount(count: nat) | MissingCarrier | CarrierMismatch | PayloadDigest | SizeChanged | NotWritable

  // ---- names of members ----

  function MemberName(root: Bytes, p: Path): Bytes
    requires p != []
  {
    root + [SLASH] + Posix(p)
  }

  predicate UnderRoot(root: Bytes, name: Bytes) {
    root + [SLASH] <= name
  }

  function RawRelative(root: Bytes, name: Bytes): Bytes
    requires UnderRoot(root, name)
  {
    name[|root| + 1..]
  }

  function Relative(root: Bytes, m: Member): Path
    requires UnderRoot(root, m.name)
  {
    Parts(RawRelative(root, m.name))
  }

  lemma NameRoundTrip(root: Bytes, p: Path)
    requires p != []
    ensures UnderRoot(root, MemberName(root, p)) && MemberName(root, p) != root
    ensures RawRelative(root, MemberName(root, p)) == Posix(p)
    ensures Parts(Posix(p)) == p && !IsAbsolute(Posix(p))
  {
    hide Posix, Parts;
    PartsOfPosix(p);
  }

  // ---- _write_archive ----

  function RootMember(root: Bytes): Member {
    Member(root, DirMember, MODE_DIR, 0, [], [])
  }

  /** The normalised member of one payload node. */
  function MemberOf(root: Bytes, p: Path, node: Node): Member
    requires p != [] && !node.SpecialNode?
  {
    match node
    case DirNode => Member(MemberName(root, p), DirMember, MODE_DIR, 0, [], [])
    case LinkNode(target) => Member(MemberName(root, p), SymMember, MODE_LINK, 0, target, [])
    case FileNode(data, mode) =>
      Member(MemberName(root, p), RegMember, CanonicalMode(mode), |data|, [], data)
  }

  predicate Writable(p: Path, node: Node)
    requires p != [] && !HasDotDot(p)
  {
    !PathIsForbidden(p) && AllowedTopLevel(Text(p[0])) && !node.SpecialNode?
  }

  ghost predicate AllWritable(t: Tree) {
    forall p :: Visited(t, p) ==> p in t && p != [] && !HasDotDot(p) && Writable(p, t[p])
  }

  ghost predicate MembersAlong(root: Bytes, t: Tree, order: seq<Path>, members: seq<Member>) {
    && |members| == |order| + 1
    && members[0] == RootMember(root)
    && forall k :: 0 <= k < |order| ==>
         order[k] in t && order[k] != [] && !t[order[k]].SpecialNode?
         && members[k + 1] == MemberOf(root, order[k], t[order[k]])
  }

  ghost predicate IsArchiveOf(root: Bytes, t: Tree, members: seq<Member>) {
    exists order :: IsWalkOrder(t, order) && MembersAlong(root, t, order, members)
  }

  ghost predicate IsWalkOrder(t: Tree, order: seq<Path>) {
    Content.Distinct(order) && forall p :: p in order <==> Visited(t, p)
  }

  /** The first pass: every path of the inventory is allowed. */
  method CheckInventory(inventory: seq<Path>) returns (errors: seq<ArchiveError>)
    requires forall p :: p in inventory ==> p != [] && !HasDotDot(p)
    ensures errors == [] <==> forall p :: p in inventory ==> PathWritable(p)
  {
    hide PathIsForbidden, AllowedTopLevel;
    errors := [];
    var i := 0;
    while i < |inventory|
      invariant 0 <= i <= |inventory|
      invariant errors == [] <==> forall k :: 0 <= k < i ==> PathWritable(inventory[k])
    {
      var p := inventory[i];
      assert p in inventory;
      if PathIsForbidden(p) {
        errors := errors + [DeniedPath];
      } else if !AllowedTopLevel(Text(p[0])) {
        errors := errors + [UnexpectedRoot];
      }
      i := i + 1;
    }
  }

  /** _write_archive. */
  method WriteArchive(root: Bytes, t: Tree) returns (r: Result<seq<Member>, ArchiveError>)
    requires WellFormed(t)
    ensures r.Success? <==> AllWritable(t)
    ensures r.Success? ==> IsArchiveOf(root, t, r.value)
  {
    hide Visited, PathIsForbidden, AllowedTopLevel, MemberOf;
    VisitedInTree(t);
    var inventory := WalkEntries(t);
    var errors := CheckInventory(inventory);
    if errors != [] {
      return Failure(errors[0]);
    }
    var members := [RootMember(root)];
    var i := 0;
    while i < |inventory|
      invariant 0 <= i <= |inventory|
      invariant MembersAlong(root, t, inventory[..i], members)
    {
      var p := inventory[i];
      assert p in inventory;
      if t[p].SpecialNode? {
        return Failure(NotWritable);
      }
      members := members + [MemberOf(root, p, t[p])];
      assert inventory[..i + 1] == inventory[..i] + [p];
      i := i + 1;
    }
    assert inventory[..i] == inventory;
    assert IsWalkOrder(t, inventory);
    AllWritten(root, t, inventory, members);
    r := Success(members);
  }

  lemma AllWritten(root: Bytes, t: Tree, inventory: seq<Path>, members: seq<Member>)
    requires WellFormed(t) && IsWalkOrder(t, inventory) && MembersAlong(root, t, inventory, members)
    requires forall p :: p in inventory ==> PathWritable(p)
    ensures AllWritable(t)
  {
    hide Visited, PathIsForbidden, AllowedTopLevel, MemberOf;
    forall p | Visited(t, p) ensures p in t && p != [] && !HasDotDot(p) && Writable(p, t[p]) {
      var k :| 0 <= k < |inventory| && inventory[k] == p;
    }
  }

  ghost predicate PathWritable(p: Path) {
    p != [] && !HasDotDot(p) && !PathIsForbidden(p) && AllowedTopLevel(Text(p[0]))
  }

  // ---- what an acceptable member looks like ----

  predicate RootOk(m: Member) {
    m.kind == DirMember && m.mode % 4096 == MODE_DIR && m.size == 0
  }

  predicate SpellingOk(root: Bytes, name: Bytes) {
    && UnderRoot(root, name)
    && var raw := RawRelative(root, name);
       !IsAbsolute(raw) && CanonicalPath(Parts(raw)) && raw == Posix(Parts(raw))
  }

  predicate CarrierOk(m: Member) {
    m.kind == RegMember && m.mode % 4096 == MODE_PLAIN && |m.data| == m.size
  }

  predicate PayloadMemberOk(p: Path, m: Member)
    requires p != [] && !HasDotDot(p)
  {
    && PathIsIncluded(p)
    && match m.kind
       case DirMember => m.mode % 4096 == MODE_DIR && m.size == 0
       case SymMember => m.mode % 4096 == MODE_LINK && m.size == 0 && TargetAccepted(p, m.linkname)
       case RegMember =>
         (m.mode % 4096 == MODE_PLAIN || m.mode % 4096 == MODE_EXEC)
         && |m.data| == m.size && |m.data| < Pow256(8)
       case OtherMember => false
  }

  predicate MemberOk(root: Bytes, m: Member) {
    if m.name == root then RootOk(m)
    else
      && SpellingOk(root, m.name)
      && if IsCarrier(Relative(root, m)) then CarrierOk(m) else PayloadMemberOk(Relative(root, m), m)
  }

  // ---- what members unpack to ----

  function MemberNode(m: Member): Node {
    match m.kind
    case DirMember => DirNode
    case SymMember => LinkNode(m.linkname)
    case RegMember => FileNode(m.data, m.mode % 4096)
    case OtherMember => SpecialNode
  }

  predicate Placed(root: Bytes, m: Member) {
    m.name != root && UnderRoot(root, m.name)
  }

  /** Extraction in member order below the archive root. */
  ghost function Unpack(root: Bytes, members: seq<Member>): Tree {
    if members == [] then map[]
    else
      var before, m := Unpack(root, members[..|members| - 1]), members[|members| - 1];
      if Placed(root, m) then before[Relative(root, m) := MemberNode(m)] else before
  }

  ghost function WithoutCarrier(t: Tree): Tree {
    map p | p in t && !IsCarrier(p) :: t[p]
  }

  /** Every member is acceptable and none names a path twice. */
  ghost predicate WellFormedMembers(root: Bytes, members: seq<Member>) {
    && (forall k :: 0 <= k < |members| ==> MemberOk(root, members[k]))
    && (forall j, k :: 0 <= j < k < |members| && members[j].name != root ==> members[j].name != members[k].name)
  }

  function RootCountOf(root: Bytes, members: seq<Member>): nat {
    if members == [] then 0
    else RootCountOf(root, members[..|members| - 1]) + (if members[|members| - 1].name == root then 1 else 0)
  }

  ghost predicate CarrierHolds(t: Tree, bytes: Bytes) {
    exists p :: IsCarrier(p) && p in t && t[p] == FileNode(bytes, MODE_PLAIN)
  }

  /** What acceptance means, stated on the unpacked tree. */
  ghost predicate ArchiveAccepted(sha: Hash, render: Render, root: Bytes, members: seq<Member>, provenance: Provenance) {
    && WellFormedMembers(root, members)
    && RootCountOf(root, members) == 1
    && CarrierHolds(Unpack(root, members), render(provenance))
    && Recordable(WithoutCarrier(Unpack(root, members)))
    && RecordOfContent(sha, WithoutCarrier(Unpack(root, members))) == provenance.payload
  }

  // ---- _assert_archive_matches_source_provenance ----

  /** What one turn of the verification loop finds out about a member. */
  datatype Finding = Finding(errors: seq<ArchiveError>, raised: bool, seen: Option<Bytes>,
                             entry: Option<Entry>, carrier: Option<Bytes>)

  predicate Clean(f: Finding) {
    f.errors == [] && !f.raised
  }

  ghost predicate FindingFor(sha: Hash, root: Bytes, m: Member, f: Finding) {
    if m.name == root then f == Finding([], false, None, None, None)
    else
      && UnderRoot(root, m.name)
      && var p := Relative(root, m);
         && p != []
         && f.seen == Some(Posix(p))
         && if IsCarrier(p) then f.carrier == Some(m.data) && f.entry == None
            else Capturable(p, MemberNode(m)) && f.carrier == None && f.entry == Some(EntryOf(sha, p, MemberNode(m)))
  }

  method InspectMember(sha: Hash, root: Bytes, m: Member, seen: set<Bytes>) returns (f: Finding)
    ensures Clean(f) <==> MemberOk(root, m) && (m.name != root ==> Posix(Relative(root, m)) !in seen)
    ensures Clean(f) ==> FindingFor(sha, root, m, f)
  {
    hide Posix, Parts, CanonicalPath, PathIsForbidden, AllowedTopLevel, IsCarrier, TargetAccepted, BigEndian;
    if m.name == root {
      return Finding(if RootOk(m) then [] else [InvalidRoot], false, None, None, None);
    }
    if !UnderRoot(root, m.name) {
      return Finding([UnexpectedRoot], false, None, None, None);
    }
    var raw := RawRelative(root, m.name);
    var relative := Parts(raw);
    CanonicalIsNamed(relative);
    if IsAbsolute(raw) || !CanonicalPath(relative) {
      return Finding([UnsafePath], false, None, None, None);
    }
    if raw != Posix(relative) {
      return Finding([NoncanonicalSpelling], false, None, None, None);
    }
    if Posix(relative) in seen {
      return Finding([DuplicatePath], false, None, None, None);
    }
    var noted := Some(Posix(relative));
    if IsCarrier(relative) {
      if m.kind != RegMember || m.mode % 4096 != MODE_PLAIN {
        return Finding([InvalidCarrier], false, noted, None, None);
      }
      return Finding(if |m.data| == m.size then [] else [CarrierSize], false, noted, None, Some(m.data));
    }
    f := InspectPayload(sha, relative, m);
  }

  lemma CanonicalIsNamed(p: Path)
    ensures CanonicalPath(p) ==> p != [] && !HasDotDot(p)
  {
  }

  method InspectPayload(sha: Hash, p: Path, m: Member) returns (f: Finding)
    requires p != [] && !HasDotDot(p)
    ensures Clean(f) <==> PayloadMemberOk(p, m)
    ensures Clean(f) ==> f.seen == Some(Posix(p)) && f.carrier == None
                         && Capturable(p, MemberNode(m)) && f.entry == Some(EntryOf(sha, p, MemberNode(m)))
  {
    hide Posix, CanonicalPath, PathIsForbidden, AllowedTopLevel, TargetAccepted, BigEndian;
    var noted := Some(Posix(p));
    var mode := m.mode % 4096;
    if PathIsForbidden(p) {
      return Finding([DeniedPath], false, noted, None, None);
    }
    if !PathIsIncluded(p) {
      return Finding([ArchiveError.UnexpectedPath], false, noted, None, None);
    }
    match m.kind {
      case DirMember =>
        var errors := if mode != MODE_DIR || m.size != 0 then [BadMode] else [];
        f := Finding(errors, false, noted, Some(Entry(Posix(p), KIND_DIR, MODE_DIR, [])), None);
      case SymMember =>
        var errors := if mode != MODE_LINK || m.size != 0 then [BadMode] else [];
        var error := SymlinkTargetError(p, m.linkname);
        if error.Some? {
          return Finding(errors + [BadTarget], false, noted, None, None);
        }
        f := Finding(errors, false, noted, Some(Entry(Posix(p), KIND_LINK, MODE_LINK, m.linkname)), None);
      case RegMember =>
        var errors := if mode != MODE_PLAIN && mode != MODE_EXEC then [BadMode] else [];
        if |m.data| != m.size || m.size >= Pow256(8) {
          return Finding(errors, true, noted, None, None);
        }
        RegularModes();
        f := Finding(errors, false, noted,
                     Some(Entry(Posix(p), KIND_FILE, mode, BigEndian(m.size, 8) + sha(m.data))), None);
      case OtherMember =>
        f := Finding([BadType], false, noted, None, None);
    }
  }

  lemma RegularModes()
    ensures CanonicalMode(MODE_EXEC) == MODE_EXEC && CanonicalMode(MODE_PLAIN) == MODE_PLAIN
  {
  }

  /** The loop state for the members inspected so far. */
  ghost predicate Inspected(sha: Hash, root: Bytes, done: seq<Member>, order: seq<Path>,
                            seen: set<Bytes>, entries: seq<Entry>, carrier: Option<Bytes>) {
    var u := Unpack(root, done);
    var c := WithoutCarrier(u);
    && (forall p :: p in u ==> p != [] && Posix(p) in seen)
    && (forall b :: b in seen ==> exists p :: p in u && p != [] && Posix(p) == b)
    && AllCapturable(c) && Enumerates(order, c)
    && (forall i :: 0 <= i < |order| ==> order[i] in c)
    && entries == Along(sha, c, order)
    && CarrierNoted(u, carrier)
  }

  ghost predicate CarrierNoted(u: Tree, carrier: Option<Bytes>) {
    match carrier
    case None => forall p :: p in u ==> !IsCarrier(p)
    case Some(b) => CarrierHolds(u, b)
  }

  lemma CarrierUnique(p: Path, q: Path)
    requires IsCarrier(p) && IsCarrier(q)
    ensures p == q
  {
    var x, y := Text(p[0]), Text(q[0]);
    forall i | 0 <= i < |p[0]| ensures p[0][i] == q[0][i] {
      assert x[i] == y[i];
    }
    assert |p[0]| == |x| == |y| == |q[0]|;
    assert p[0] == q[0];
    assert p == [p[0]] && q == [q[0]];
  }

  lemma UnpackSnoc(root: Bytes, done: seq<Member>, m: Member)
    ensures Unpack(root, done + [m]) ==
            if Placed(root, m) then Unpack(root, done)[Relative(root, m) := MemberNode(m)] else Unpack(root, done)
  {
    assert (done + [m])[..|done|] == done;
  }

  lemma AlongSnoc(sha: Hash, c: Tree, order: seq<Path>, p: Path, node: Node)
    requires AllCapturable(c) && Enumerates(order, c) && p !in c && Capturable(p, node)
    requires forall i :: 0 <= i < |order| ==> order[i] in c
    ensures AllCapturable(c[p := node]) && Enumerates(order + [p], c[p := node])
    ensures forall i :: 0 <= i < |order + [p]| ==> (order + [p])[i] in c[p := node]
    ensures Along(sha, c[p := node], order + [p]) == Along(sha, c, order) + [EntryOf(sha, p, node)]
  {
    hide EntryOf, Capturable;
  }

  lemma InspectedStep(sha: Hash, root: Bytes, done: seq<Member>, order: seq<Path>, seen: set<Bytes>,
                      entries: seq<Entry>, carrier: Option<Bytes>, m: Member, f: Finding)
    requires Inspected(sha, root, done, order, seen, entries, carrier)
    requires MemberOk(root, m) && FindingFor(sha, root, m, f)
    requires m.name != root ==> Posix(Relative(root, m)) !in seen
    ensures m.name == root ==> Inspected(sha, root, done + [m], order, seen, entries, carrier)
    ensures m.name != root && f.entry.Some? ==>
              Inspected(sha, root, done + [m], order + [Relative(root, m)], seen + {f.seen.value},
                        entries + [f.entry.value], carrier)
    ensures m.name != root && f.entry.None? ==>
              Inspected(sha, root, done + [m], order, seen + {f.seen.value}, entries, f.carrier)
  {
    hide Posix, Parts, CanonicalPath, PathIsIncluded, IsCarrier, PayloadMemberOk, EntryOf, Capturable,
         Unpack, CarrierHolds, CarrierNoted, AllCapturable, Enumerates, WithoutCarrier;
    UnpackSnoc(root, done, m);
    if m.name != root {
      var u, p, node := Unpack(root, done), Relative(root, m), MemberNode(m);
      assert p !in u;
      if IsCarrier(p) {
        CarrierStep(u, p, node);
        CarrierArrives(u, p, m);
      } else {
        PayloadStep(u, p, node);
        AlongSnoc(sha, WithoutCarrier(u), order, p, node);
        CarrierStays(u, carrier, p, node);
      }
    }
  }

  lemma CarrierStep(u: Tree, p: Path, node: Node)
    requires IsCarrier(p) && p !in u
    ensures WithoutCarrier(u[p := node]) == WithoutCarrier(u)
  {
    hide IsCarrier;
  }

  lemma PayloadStep(u: Tree, p: Path, node: Node)
    requires !IsCarrier(p) && p !in u
    ensures WithoutCarrier(u[p := node]) == WithoutCarrier(u)[p := node] && p !in WithoutCarrier(u)
  {
    hide IsCarrier;
  }

  lemma CarrierArrives(u: Tree, p: Path, m: Member)
    requires IsCarrier(p) && CarrierOk(m)
    ensures CarrierNoted(u[p := MemberNode(m)], Some(m.data))
  {
    assert u[p := MemberNode(m)][p] == FileNode(m.data, MODE_PLAIN);
  }

  lemma CarrierStays(u: Tree, carrier: Option<Bytes>, p: Path, node: Node)
    requires CarrierNoted(u, carrier) && p !in u && !IsCarrier(p)
    ensures CarrierNoted(u[p := node], carrier)
  {
    hide IsCarrier;
    if carrier.Some? {
      var q :| IsCarrier(q) && q in u && u[q] == FileNode(carrier.value, MODE_PLAIN);
      assert u[p := node][q] == u[q];
    }
  }

  lemma MembersSnoc(root: Bytes, done: seq<Member>, m: Member)
    ensures WellFormedMembers(root, done + [m]) ==> WellFormedMembers(root, done) && MemberOk(root, m)
    ensures RootCountOf(root, done + [m]) == RootCountOf(root, done) + (if m.name == root then 1 else 0)
  {
    hide MemberOk;
    var all := done + [m];
    assert all[..|done|] == done && all[|done|] == m;
    assert forall k :: 0 <= k < |done| ==> all[k] == done[k];
  }

  ghost predicate Names(root: Bytes, m: Member, p: Path) {
    m.name != root && p != [] && m.name == MemberName(root, p)
  }

  /** A path already unpacked is one an earlier member named. */
  lemma {:induction false} UnpackedByMember(root: Bytes, done: seq<Member>, p: Path)
    requires WellFormedMembers(root, done) && p in Unpack(root, done)
    ensures exists k :: 0 <= k < |done| && Names(root, done[k], p)
  {
    hide Posix, Parts, CanonicalPath, PathIsIncluded, IsCarrier, PayloadMemberOk;
    var init, m := done[..|done| - 1], done[|done| - 1];
    assert done == init + [m];
    MembersSnoc(root, init, m);
    if Placed(root, m) && Relative(root, m) == p {
      CanonicalIsNamed(p);
      assert m.name == root + [SLASH] + RawRelative(root, m.name);
      assert Names(root, done[|done| - 1], p);
    } else {
      UnpackedByMember(root, init, p);
      var k :| 0 <= k < |init| && Names(root, init[k], p);
      assert done[k] == init[k];
    }
  }

  /** A fresh name keeps the members well formed; a seen path is a second naming. */
  lemma SeenMeansNamed(sha: Hash, root: Bytes, done: seq<Member>, order: seq<Path>, seen: set<Bytes>,
                       entries: seq<Entry>, carrier: Option<Bytes>, m: Member)
    requires WellFormedMembers(root, done) && MemberOk(root, m)
    requires Inspected(sha, root, done, order, seen, entries, carrier)
    ensures WellFormedMembers(root, done + [m]) <==> (m.name != root ==> Posix(Relative(root, m)) !in seen)
  {
    hide Posix, Parts, CanonicalPath, PathIsIncluded, IsCarrier, PayloadMemberOk;
    var all := done + [m];
    assert all[|done|] == m && forall k :: 0 <= k < |done| ==> all[k] == done[k];
    if m.name != root {
      var p := Relative(root, m);
      CanonicalIsNamed(p);
      assert m.name == MemberName(root, p);
      if Posix(p) in seen {
        var q :| q in Unpack(root, done) && q != [] && Posix(q) == Posix(p);
        UnpackedByMember(root, done, q);
        var k :| 0 <= k < |done| && Names(root, done[k], q);
        assert all[k].name == all[|done|].name;
      } else {
        forall k | 0 <= k < |done| && done[k].name != root ensures done[k].name != m.name {
          if done[k].name == m.name {
            PlacedIsUnpacked(root, done, k);
            assert false;
          }
        }
      }
    }
  }

  lemma {:induction false} PlacedIsUnpacked(root: Bytes, done: seq<Member>, k: nat)
    requires k < |done| && Placed(root, done[k])
    ensures Relative(root, done[k]) in Unpack(root, done)
  {
    hide Parts;
    if k < |done| - 1 {
      assert done[..|done| - 1][k] == done[k];
      PlacedIsUnpacked(root, done[..|done| - 1], k);
    }
  }

  lemma NothingInspected(sha: Hash, root: Bytes)
    ensures Inspected(sha, root, [], [], {}, [], None)
    ensures WellFormedMembers(root, [])
  {
    assert WithoutCarrier(Unpack(root, [])) == map[];
  }

  lemma PrefixesWellFormed(root: Bytes, members: seq<Member>, n: nat)
    requires n <= |members|
    ensures WellFormedMembers(root, members) ==> WellFormedMembers(root, members[..n])
  {
    hide MemberOk;
  }

  lemma CarrierBytes(u: Tree, carrier: Option<Bytes>, bytes: Bytes)
    requires CarrierNoted(u, carrier)
    ensures CarrierHolds(u, bytes) <==> carrier == Some(bytes)
  {
    hide IsCarrier;
    if CarrierHolds(u, bytes) && carrier.Some? {
      var p :| IsCarrier(p) && p in u && u[p] == FileNode(bytes, MODE_PLAIN);
      var q :| IsCarrier(q) && q in u && u[q] == FileNode(carrier.value, MODE_PLAIN);
      CarrierUnique(p, q);
    }
  }

  /** The checks after the loop: root count, carrier bytes, payload digest. */
  method FinishVerification(sha: Hash, render: Render, root: Bytes, members: seq<Member>, provenance: Provenance,
                            found: seq<ArchiveError>, rootCount: nat, carrier: Option<Bytes>, entries: seq<Entry>,
                            ghost order: seq<Path>, ghost seen: set<Bytes>)
    returns (errors: seq<ArchiveError>)
    requires found == [] <==> WellFormedMembers(root, members)
    requires rootCount == RootCountOf(root, members)
    requires found == [] ==> Inspected(sha, root, members, order, seen, entries, carrier)
    ensures errors == [] <==> ArchiveAccepted(sha, render, root, members, provenance)
  {
    hide WellFormedMembers, Unpack, Recordable, RecordOfContent, RecordOf, Accepted, CarrierHolds, CarrierNoted,
         IsCarrier, Posix, WithoutCarrier, AllCapturable, Enumerates;
    errors := found;
    if rootCount != 1 {
      errors := errors + [RootCount(rootCount)];
    }
    if carrier == None {
      errors := errors + [MissingCarrier];
    } else if carrier.value != render(provenance) {
      errors := errors + [CarrierMismatch];
    }
    var archived := RecordFromEntries(sha, entries);
    if archived.Failure? || archived.value != provenance.payload {
      errors := errors + [PayloadDigest];
    }
    if found == [] {
      var u := Unpack(root, members);
      CarrierBytes(u, carrier, render(provenance));
      AcceptedAlong(sha, WithoutCarrier(u), order);
      if archived.Success? {
        RecordInAnyOrder(sha, WithoutCarrier(u), order);
      }
    }
  }

  /** What the loop over the members carries on. */
  datatype Tally = Tally(errors: seq<ArchiveError>, entries: seq<Entry>, seen: set<Bytes>, carrier: Option<Bytes>,
                         rootCount: nat)

  ghost predicate TallyFits(sha: Hash, root: Bytes, done: seq<Member>, order: seq<Path>, y: Tally) {
    && (y.errors == [] <==> WellFormedMembers(root, done)) && y.rootCount == RootCountOf(root, done)
    && (y.errors == [] ==> Inspected(sha, root, done, order, y.seen, y.entries, y.carrier))
  }

  function Noted(y: Tally, f: Finding, isRoot: bool): Tally {
    Tally(y.errors + f.errors,
          if f.entry.Some? then y.entries + [f.entry.value] else y.entries,
          if f.seen.Some? then y.seen + {f.seen.value} else y.seen,
          if f.carrier.Some? then f.carrier else y.carrier,
          if isRoot then y.rootCount + 1 else y.rootCount)
  }

  /** The paths of the entries, if the member adds one. */
  ghost function OrderNoted(order: seq<Path>, root: Bytes, m: Member, f: Finding): seq<Path> {
    if f.entry.Some? && UnderRoot(root, m.name) then order + [Relative(root, m)] else order
  }

  lemma TallyNext(sha: Hash, root: Bytes, done: seq<Member>, order: seq<Path>, y: Tally, m: Member, f: Finding)
    requires TallyFits(sha, root, done, order, y)
    requires Clean(f) <==> MemberOk(root, m) && (m.name != root ==> Posix(Relative(root, m)) !in y.seen)
    requires Clean(f) ==> FindingFor(sha, root, m, f)
    ensures f.raised ==> !WellFormedMembers(root, done + [m])
    ensures !f.raised ==> TallyFits(sha, root, done + [m], OrderNoted(order, root, m, f), Noted(y, f, m.name == root))
  {
    MembersSnoc(root, done, m);
    hide MemberOk, Relative, Posix, WellFormedMembers, Inspected, RootCountOf, IsCarrier, EntryOf, Capturable;
    if y.errors == [] && MemberOk(root, m) {
      MemberUnder(root, m);
      SeenMeansNamed(sha, root, done, order, y.seen, y.entries, y.carrier, m);
      if Clean(f) {
        InspectedStep(sha, root, done, order, y.seen, y.entries, y.carrier, m, f);
      }
    }
  }

  lemma MemberUnder(root: Bytes, m: Member)
    requires MemberOk(root, m)
    ensures m.name != root ==> UnderRoot(root, m.name)
  {
  }

  /** _assert_archive_matches_source_provenance: no error exactly for the
      accepted archives. */
  method VerifyArchive(sha: Hash, render: Render, root: Bytes, members: seq<Member>, provenance: Provenance)
    returns (errors: seq<ArchiveError>)
    ensures errors == [] <==> ArchiveAccepted(sha, render, root, members, provenance)
  {
    hide *;
    var y := Tally([], [], {}, None, 0);
    ghost var order: seq<Path> := [];
    NothingTallied(sha, root);
    var i := 0;
    while i < |members|
      invariant 0 <= i <= |members|
      invariant TallyFits(sha, root, members[..i], order, y)
    {
      var m := members[i];
      assert members[..i + 1] == members[..i] + [m];
      var f := InspectMember(sha, root, m, y.seen);
      TallyNext(sha, root, members[..i], order, y, m, f);
      if f.raised {
        RefusedEarly(sha, render, root, members, provenance, i + 1);
        return [SizeChanged];
      }
      order := OrderNoted(order, root, m, f);
      y := Noted(y, f, m.name == root);
      i := i + 1;
    }
    assert members[..i] == members;
    TallyIs(sha, root, members, order, y);
    errors := FinishVerification(sha, render, root, members, provenance, y.errors, y.rootCount, y.carrier, y.entries, order, y.seen);
  }

  lemma NothingTallied(sha: Hash, root: Bytes)
    ensures TallyFits(sha, root, [], [], Tally([], [], {}, None, 0))
  {
    NothingInspected(sha, root);
    hide Inspected, WellFormedMembers;
  }

  lemma TallyIs(sha: Hash, root: Bytes, done: seq<Member>, order: seq<Path>, y: Tally)
    requires TallyFits(sha, root, done, order, y)
    ensures (y.errors == [] <==> WellFormedMembers(root, done)) && y.rootCount == RootCountOf(root, done)
    ensures y.errors == [] ==> Inspected(sha, root, done, order, y.seen, y.entries, y.carrier)
  {
    hide Inspected, WellFormedMembers, RootCountOf;
  }

  lemma RefusedEarly(sha: Hash, render: Render, root: Bytes, members: seq<Member>, provenance: Provenance, n: nat)
    requires n <= |members| && !WellFormedMembers(root, members[..n])
    ensures !ArchiveAccepted(sha, render, root, members, provenance)
  {
    PrefixesWellFormed(root, members, n);
    hide WellFormedMembers, Unpack, CarrierHolds, Recordable, RecordOfContent, WithoutCarrier, RootCountOf;
  }
}
