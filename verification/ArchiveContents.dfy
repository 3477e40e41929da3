/** What an accepted archive can hold, in the words of the payload rules: no
    credential, no path outside them, no link out of the payload, no odd mode. */
module ArchiveContents {
  import opened Bytes
  import opened Wrappers
  import opened PathPolicy
  import opened PayloadRules
  import opened SymlinkTarget
  import opened TreeRecord
  import opened Content
  import opened FileTree
  import opened GitPayload
  import opened Archive

  /** A target that leads to an admitted path below the payload root, and on the
      way never above the root. */
  ghost predicate Contained(p: Path, target: Bytes)
    requires p != []
  {
    && ValidUtf8(target) && target != [] && 0 !in target && target[0] != 47
    && StaysInside(Parent(p) + Parts(target))
    && Admitted(Normal(Parent(p) + Parts(target), 0))
  }

  /** 0o644 and 0o755. */
  predicate PlainMode(mode: nat) { mode == 420 || mode == 493 }

  ghost predicate Harmless(p: Path, node: Node) {
    && Spelled(p) && NoSecrets(p)
    && if |p| == 1 && Text(p[0]) == "source-provenance.json" then node.FileNode? && node.mode == 420
       else
         && Admitted(p)
         && match node
            case DirNode => true
            case FileNode(_, mode) => PlainMode(mode)
            case LinkNode(target) => Contained(p, target)
            case SpecialNode => false
  }

  ghost predicate AllHarmless(t: Tree) { forall p :: p in t ==> Harmless(p, t[p]) }

  lemma TargetExactly(p: Path, target: Bytes)
    requires p != []
    ensures TargetAccepted(p, target) <==> Contained(p, target)
  {
    IncludedExactly(Normal(TargetComponents(p, target), 0));
    hide StaysInside, ValidUtf8, Parts, Normal, PathIsIncluded, Admitted;
  }

  predicate Spelled(p: Path) {
    p != [] && !HasDotDot(p) && ValidUtf8(Posix(p)) && 0 !in Posix(p) && 92 !in Posix(p)
  }

  lemma SpelledExactly(p: Path)
    ensures CanonicalPath(p) <==> Spelled(p)
  {
    hide ValidUtf8, Posix, HasDotDot;
  }

  lemma CarrierIs(p: Path)
    ensures IsCarrier(p) <==> |p| == 1 && Text(p[0]) == "source-provenance.json"
  {
    hide Text;
  }

  lemma CarrierHarmless(p: Path, m: Member)
    requires CanonicalPath(p) && IsCarrier(p) && CarrierOk(m)
    ensures Harmless(p, MemberNode(m))
  {
    SpelledExactly(p);
    CarrierIs(p);
    CarrierHasNoSecrets(p);
    hide Posix, HasDotDot, ValidUtf8, Text, NoSecrets, IsCarrier, CanonicalPath, Admitted;
    assert MODE_PLAIN == 420;
  }

  lemma PayloadHarmless(p: Path, m: Member)
    requires CanonicalPath(p) && !IsCarrier(p) && p != [] && !HasDotDot(p) && PayloadMemberOk(p, m)
    ensures Harmless(p, MemberNode(m))
  {
    SpelledExactly(p);
    CarrierIs(p);
    IncludedExactly(p);
    IncludedHasNoSecrets(p);
    hide Posix, HasDotDot, ValidUtf8, Text, NoSecrets, IsCarrier, CanonicalPath, Admitted, PathIsIncluded, TargetAccepted, Contained;
    if m.kind == SymMember {
      TargetExactly(p, m.linkname);
    }
    assert MODE_PLAIN == 420 && MODE_EXEC == 493;
  }

  /** An acceptable member unpacks to a harmless node. */
  lemma MemberHarmless(root: Bytes, m: Member)
    requires MemberOk(root, m) && Placed(root, m)
    ensures Harmless(Relative(root, m), MemberNode(m))
  {
    var p := Relative(root, m);
    hide Parts, CanonicalPath, IsCarrier, PayloadMemberOk, CarrierOk, Harmless, MemberNode;
    CanonicalIsNamed(p);
    if IsCarrier(p) {
      CarrierHarmless(p, m);
    } else {
      PayloadHarmless(p, m);
    }
  }

  lemma {:induction false} MembersHarmless(root: Bytes, members: seq<Member>)
    requires WellFormedMembers(root, members)
    ensures AllHarmless(Unpack(root, members))
  {
    hide WellFormedMembers, MemberOk, Harmless, Relative, MemberNode, Placed;
    if members == [] {
      assert Unpack(root, members) == map[];
    } else {
      var init, m := members[..|members| - 1], members[|members| - 1];
      assert members == init + [m];
      MembersSnoc(root, init, m);
      MembersHarmless(root, init);
      if Placed(root, m) {
        MemberHarmless(root, m);
      }
    }
  }

  /** Whatever passes verification holds nothing else. */
  lemma AcceptedIsHarmless(sha: Hash, render: Render, root: Bytes, members: seq<Member>, provenance: Provenance)
    requires ArchiveAccepted(sha, render, root, members, provenance)
    ensures AllHarmless(Unpack(root, members))
  {
    MembersHarmless(root, members);
    hide AllHarmless, Unpack, WellFormedMembers, Recordable, RecordOfContent, CarrierHolds;
  }

  // ---- the members ----

  /** What a member at a path of the payload looks like. */
  ghost predicate PlacedWell(p: Path, m: Member)
    requires p != []
  {
    if |p| == 1 && Text(p[0]) == "source-provenance.json" then
      m.kind == RegMember && m.mode % 0x1000 == 0x1A4 && |m.data| == m.size
    else
      && Admitted(p)
      && match m.kind
         case DirMember => m.mode % 0x1000 == 0x1ED && m.size == 0
         case SymMember => m.mode % 0x1000 == 0x1FF && m.size == 0 && Contained(p, m.linkname)
         case RegMember => m.mode % 0x1000 in {0x1A4, 0x1ED} && |m.data| == m.size < 0x10000000000000000
         case OtherMember => false
  }

  /** A member passes exactly if it is the root directory, or is named by the one
      spelling of a path of the payload and looks as it must there. */
  lemma MemberExactly(root: Bytes, m: Member)
    ensures MemberOk(root, m) <==>
              if m.name == root then m.kind == DirMember && m.mode % 0x1000 == 0x1ED && m.size == 0
              else exists p :: p != [] && Spelled(p) && m.name == root + [47] + Posix(p) && PlacedWell(p, m)
  {
    hide Parts, Posix, CanonicalPath, Spelled, IsCarrier, PayloadMemberOk, CarrierOk, PlacedWell;
    if m.name != root {
      if MemberOk(root, m) {
        var p := Relative(root, m);
        SpelledExactly(p);
        CanonicalIsNamed(p);
        PlacedExactly(p, m);
        assert m.name == root + [47] + Posix(p);
      }
      if p :| p != [] && Spelled(p) && m.name == root + [47] + Posix(p) && PlacedWell(p, m) {
        NameRoundTrip(root, p);
        SpelledExactly(p);
        CanonicalIsNamed(p);
        PlacedExactly(p, m);
        assert m.name == MemberName(root, p);
      }
    }
  }

  lemma PlacedExactly(p: Path, m: Member)
    requires p != [] && !HasDotDot(p)
    ensures (if IsCarrier(p) then CarrierOk(m) else PayloadMemberOk(p, m)) <==> PlacedWell(p, m)
  {
    CarrierIs(p);
    IncludedExactly(p);
    TargetExactly(p, m.linkname);
    assert Pow256(8) == 0x10000000000000000;
    hide Text, IsCarrier, Admitted, PathIsIncluded, TargetAccepted, Contained, Pow256, HasDotDot;
    assert MODE_PLAIN == 0x1A4 && MODE_EXEC == 0x1ED && MODE_DIR == 0x1ED && MODE_LINK == 0x1FF;
  }

  // ---- the objects of a revision ----

  /** An entry of a revision is supported exactly if it is a blob of one of three
      modes, the object is there, and, for a link, leads to an admitted path. */
  lemma SupportedExactly(p: Path, e: GitEntry, blobs: Blobs)
    requires p != []
    ensures SupportedEntry(p, e, blobs) <==>
              e.kind == "blob" && e.mode in {"100644", "100755", "120000"} && e.oid in blobs
              && (e.mode == "120000" ==> Contained(p, blobs[e.oid]))
  {
    if e.oid in blobs { TargetExactly(p, blobs[e.oid]); }
    hide TargetAccepted, Contained;
  }

  /** The tree of a revision: every entry with its bytes, executable for 100755, a
      link for 120000, and a directory for each proper prefix of an entry. */
  lemma MaterializedExactly(entries: Entries, blobs: Blobs, p: Path)
    requires AllSupported(entries, blobs)
    ensures p in Materialized(entries, blobs) <==> p in entries || (p != [] && exists q :: q in entries && |p| < |q| && q[..|p|] == p)
    ensures p in Materialized(entries, blobs) && p !in entries ==> Materialized(entries, blobs)[p] == DirNode
    ensures p in entries ==>
              && entries[p].oid in blobs
              && Materialized(entries, blobs)[p] ==
                   if entries[p].mode == "120000" then LinkNode(blobs[entries[p].oid])
                   else FileNode(blobs[entries[p].oid], if entries[p].mode == "100755" then 0x1ED else 0x1A4)
  {
    hide TargetAccepted;
    if p in Directories(entries) {
      var q, k :| q in entries && 0 < k < |q| && p == q[..k];
      assert q in entries && |p| < |q| && q[..|p|] == p;
    }
    if p in entries {
      assert SupportedEntry(p, entries[p], blobs);
    }
  }

  /** Which rows of a revision become entries of the payload. */
  lemma RowCountsExactly(row: Row)
    ensures RowCounts(row) <==>
              (row.rawPath == [] || row.rawPath[0] != 47) && !HasDotDot(Parts(row.rawPath)) && Admitted(Parts(row.rawPath))
              && !(|Parts(row.rawPath)| == 1 && Text(Parts(row.rawPath)[0]) == "source-provenance.json")
  {
    var p := Parts(row.rawPath);
    CarrierIs(p);
    if !HasDotDot(p) { IncludedExactly(p); }
    CarrierPlain(p);
    hide Parts, Admitted, PathIsIncluded, IsCarrier, HasDotDot, Text;
  }

  lemma CarrierPlain(p: Path)
    ensures IsCarrier(p) ==> !HasDotDot(p)
  {
    if IsCarrier(p) { CarrierIncluded(p); }
  }

  /** Row i speaks for its path: it counts, and no later row of the path does. */
  ghost predicate Decides(rows: seq<Row>, i: int) {
    && 0 <= i < |rows| && RowCounts(rows[i])
    && forall j :: i < j < |rows| && RowCounts(rows[j]) ==> Parts(rows[j].rawPath) != Parts(rows[i].rawPath)
  }

  lemma {:induction false} SomeRowDecides(rows: seq<Row>, i: nat)
    requires i < |rows| && RowCounts(rows[i])
    ensures exists k :: Decides(rows, k) && Parts(rows[k].rawPath) == Parts(rows[i].rawPath)
    decreases |rows| - i
  {
    hide Parts, RowCounts;
    if j :| i < j < |rows| && RowCounts(rows[j]) && Parts(rows[j].rawPath) == Parts(rows[i].rawPath) {
      SomeRowDecides(rows, j);
    } else {
      assert Decides(rows, i);
    }
  }

  /** The entries of a revision: a path for each row that counts, with the mode, kind
      and object of the last of its rows. */
  lemma EntriesExactly(rows: seq<Row>, entries: Entries, p: Path)
    requires EntriesOfRows(rows, entries)
    ensures p in entries <==> exists i :: 0 <= i < |rows| && RowCounts(rows[i]) && Parts(rows[i].rawPath) == p
    ensures forall i :: Decides(rows, i) && Parts(rows[i].rawPath) == p ==>
              p in entries && entries[p].mode == rows[i].mode && entries[p].kind == rows[i].kind && entries[p].oid == rows[i].oid
  {
    hide Parts, RowCounts;
    if p in entries {
      var k :| 0 <= k < |rows| && LastRowOf(rows, k, p) && entries[p] == EntryOfRow(rows[k]);
      forall i | Decides(rows, i) && Parts(rows[i].rawPath) == p ensures i == k {
      }
    }
  }

  /** The same for a payload that the capture accepts. */
  lemma CapturedIsAdmitted(t: Tree, p: Path)
    requires WellFormed(t) && WalkAccepted(t) && p in CapturedTree(t)
    ensures p != [] && !HasDotDot(p) && Admitted(p) && NoSecrets(p) && (t[p].LinkNode? ==> Contained(p, t[p].target))
  {
    assert PathAccepted(p, t[p]);
    hide PathIsIncluded, CanonicalPath, TargetAccepted, Contained, Admitted, NoSecrets, Recordable, CapturedTree;
    IncludedExactly(p);
    IncludedHasNoSecrets(p);
    if t[p].LinkNode? {
      TargetExactly(p, t[p].target);
    }
  }
}
