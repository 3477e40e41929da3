/** What an archive that passes verification holds: exactly the payload tree
    that its provenance was computed from, and every archive written from such
    a tree passes. */
module ArchiveRoundTrip {
  import opened Bytes
  import opened Wrappers
  import opened PathPolicy
  import opened SymlinkTarget
  import opened TreeRecord
  import opened Content
  import opened FileTree
  import opened Archive

  /** A staged payload: its tree has the recorded identity, and the canonical
      carrier stands at its root as a plain file. */
  ghost predicate Staged(sha: Hash, render: Render, t: Tree, provenance: Provenance) {
    && WellFormed(t)
    && WalkAccepted(t)
    && RecordOfContent(sha, CapturedTree(t)) == provenance.payload
    && exists c :: IsCarrier(c) && c in t && IsPlainFile(t[c], render(provenance))
  }

  predicate IsPlainFile(node: Node, bytes: Bytes) {
    node.FileNode? && node.data == bytes && !HasExecBit(node.mode)
  }

  // ---- a written archive is accepted ----

  /** What extraction of a written archive yields: every visited node, with its
      mode reduced to the two canonical ones. */
  ghost function Extracted(t: Tree, order: seq<Path>): Tree
    requires forall i :: 0 <= i < |order| ==> order[i] in t
  {
    map p | p in order :: CanonicalNode(t[p])
  }

  lemma NodeRoundTrip(root: Bytes, p: Path, node: Node)
    requires p != [] && !node.SpecialNode?
    ensures Placed(root, MemberOf(root, p, node))
    ensures Relative(root, MemberOf(root, p, node)) == p
    ensures MemberNode(MemberOf(root, p, node)) == CanonicalNode(node)
  {
    hide Parts, Posix;
    NameRoundTrip(root, p);
  }

  lemma {:induction false} UnpackInvertsWriting(root: Bytes, t: Tree, order: seq<Path>, members: seq<Member>)
    requires MembersAlong(root, t, order, members)
    requires forall i :: 0 <= i < |order| ==> order[i] in t
    ensures Unpack(root, members) == Extracted(t, order)
    decreases |order|
  {
    hide MemberOf, MemberNode, Relative, Placed, CanonicalNode;
    var init, last := members[..|members| - 1], members[|members| - 1];
    if order == [] {
      assert init == [];
      RootNotPlaced(root);
      assert Unpack(root, members) == map[];
    } else {
      var n := |order| - 1;
      assert order == order[..n] + [order[n]];
      UnpackInvertsWriting(root, t, order[..n], init);
      assert last == MemberOf(root, order[n], t[order[n]]);
      NodeRoundTrip(root, order[n], t[order[n]]);
      assert Extracted(t, order) == Extracted(t, order[..n])[order[n] := CanonicalNode(t[order[n]])];
    }
  }

  lemma RootNotPlaced(root: Bytes)
    ensures !Placed(root, RootMember(root))
  {
  }

  lemma {:induction false} OneRoot(root: Bytes, t: Tree, order: seq<Path>, members: seq<Member>)
    requires MembersAlong(root, t, order, members)
    ensures RootCountOf(root, members) == 1
    decreases |order|
  {
    hide Posix;
    var init := members[..|members| - 1];
    if order != [] {
      var n := |order| - 1;
      OneRoot(root, t, order[..n], init);
      NameRoundTrip(root, order[n]);
    } else {
      assert init == [];
    }
  }

  lemma WrittenMemberOk(root: Bytes, p: Path, node: Node)
    requires p != [] && !HasDotDot(p)
    requires !IsCarrier(p) ==> PathAccepted(p, node)
    requires IsCarrier(p) ==> node.FileNode? && !HasExecBit(node.mode)
    ensures !node.SpecialNode? && MemberOk(root, MemberOf(root, p, node))
  {
    hide Posix, Parts, PathIsIncluded, IsCarrier, CanonicalPath, TargetAccepted, HasExecBit;
    NameRoundTrip(root, p);
    if IsCarrier(p) {
      CarrierCanonical(p);
    }
    assert MODE_EXEC % 4096 == MODE_EXEC && MODE_PLAIN % 4096 == MODE_PLAIN
           && MODE_LINK % 4096 == MODE_LINK && MODE_DIR % 4096 == MODE_DIR;
  }

  lemma DistinctNames(root: Bytes, t: Tree, order: seq<Path>, members: seq<Member>)
    requires MembersAlong(root, t, order, members) && Content.Distinct(order)
    ensures forall j, k :: 0 <= j < k < |members| && members[j].name != root ==> members[j].name != members[k].name
  {
    hide Posix, Parts;
    forall j, k | 0 <= j < k < |members| && members[j].name != root ensures members[j].name != members[k].name {
      NameRoundTrip(root, order[j - 1]);
      NameRoundTrip(root, order[k - 1]);
      assert members[j - 1 + 1] == MemberOf(root, order[j - 1], t[order[j - 1]]);
      assert members[k - 1 + 1] == MemberOf(root, order[k - 1], t[order[k - 1]]);
      if members[j].name == members[k].name {
        PosixInjective(order[j - 1], order[k - 1]);
      }
    }
  }

  lemma StagedPath(sha: Hash, render: Render, t: Tree, provenance: Provenance, p: Path)
    requires Staged(sha, render, t, provenance) && Visited(t, p)
    ensures p in t && p != [] && !HasDotDot(p)
    ensures !IsCarrier(p) ==> PathAccepted(p, t[p])
    ensures IsCarrier(p) ==> IsPlainFile(t[p], render(provenance))
  {
    hide Visited, IsCarrier, PathAccepted, Recordable, RecordOfContent;
    VisitedInTree(t);
    if IsCarrier(p) {
      var c :| IsCarrier(c) && c in t && IsPlainFile(t[c], render(provenance));
      CarrierUnique(c, p);
    } else {
      assert p in CapturedTree(t);
    }
  }

  lemma WrittenWellFormed(sha: Hash, render: Render, root: Bytes, t: Tree, provenance: Provenance,
                          order: seq<Path>, members: seq<Member>)
    requires Staged(sha, render, t, provenance)
    requires IsWalkOrder(t, order) && MembersAlong(root, t, order, members)
    ensures WellFormedMembers(root, members)
  {
    hide Staged, MemberOk, MemberOf, Visited;
    DistinctNames(root, t, order, members);
    forall k | 0 <= k < |members| ensures MemberOk(root, members[k]) {
      if k == 0 {
        RootMemberOk(root);
      } else {
        assert order[k - 1] in order;
        StagedPath(sha, render, t, provenance, order[k - 1]);
        WrittenMemberOk(root, order[k - 1], t[order[k - 1]]);
        assert members[k - 1 + 1] == MemberOf(root, order[k - 1], t[order[k - 1]]);
      }
    }
  }

  lemma RootMemberOk(root: Bytes)
    ensures MemberOk(root, RootMember(root))
  {
  }

  /** Extraction of the members gives the staged content back. */
  lemma ExtractedContent(t: Tree, order: seq<Path>)
    requires IsWalkOrder(t, order) && forall i :: 0 <= i < |order| ==> order[i] in t
    ensures WithoutCarrier(Extracted(t, order)) == CanonicalTree(CapturedTree(t))
  {
    hide Visited, IsCarrier, CanonicalNode;
    VisitedInTree(t);
    assert forall p :: p in Extracted(t, order) <==> Visited(t, p);
  }

  lemma CanonicalTwice(c: Tree)
    requires Recordable(c)
    ensures Recordable(CanonicalTree(c)) && CanonicalTree(CanonicalTree(c)) == CanonicalTree(c)
  {
    hide Posix, LengthsFit, HasExecBit;
    CanonicalModesAreCanonical();
    var d := CanonicalTree(c);
    assert d.Keys == c.Keys;
    forall p | p in d ensures Capturable(p, d[p]) && LengthsFit(p, d[p]) {
      SameLengths(p, c[p]);
    }
  }

  lemma SameLengths(p: Path, node: Node)
    requires Capturable(p, node)
    ensures LengthsFit(p, CanonicalNode(node)) <==> LengthsFit(p, node)
  {
  }

  lemma CanonicalModesAreCanonical()
    ensures HasExecBit(MODE_EXEC) && !HasExecBit(MODE_PLAIN)
  {
  }

  lemma VisitedTop(t: Tree, c: Path)
    requires c in t && |c| == 1
    ensures Visited(t, c)
  {
  }

  /** Every archive written from a staged payload passes verification, and
      extracting it gives back the staged tree up to canonical modes. */
  lemma WrittenArchiveAccepted(sha: Hash, render: Render, root: Bytes, t: Tree, provenance: Provenance,
                               members: seq<Member>)
    requires Staged(sha, render, t, provenance) && IsArchiveOf(root, t, members)
    ensures ArchiveAccepted(sha, render, root, members, provenance)
    ensures WithoutCarrier(Unpack(root, members)) == CanonicalTree(CapturedTree(t))
  {
    hide MembersAlong, Unpack, Visited, Recordable, RecordOfContent, CapturedTree, CanonicalTree,
         WellFormedMembers, PathAccepted, Extracted, WithoutCarrier;
    var order :| IsWalkOrder(t, order) && MembersAlong(root, t, order, members);
    VisitedInTree(t);
    assert forall i :: 0 <= i < |order| ==> order[i] in order;
    UnpackInvertsWriting(root, t, order, members);
    OneRoot(root, t, order, members);
    WrittenWellFormed(sha, render, root, t, provenance, order, members);
    ExtractedContent(t, order);
    CanonicalTwice(CapturedTree(t));
    CanonicalTreeSameRecord(sha, CapturedTree(t), CanonicalTree(CapturedTree(t)));
    CarrierExtracted(sha, render, t, provenance, order);
  }

  lemma CarrierExtracted(sha: Hash, render: Render, t: Tree, provenance: Provenance, order: seq<Path>)
    requires Staged(sha, render, t, provenance) && IsWalkOrder(t, order)
    requires forall i :: 0 <= i < |order| ==> order[i] in t
    ensures CarrierHolds(Extracted(t, order), render(provenance))
  {
    hide Recordable, RecordOfContent, CapturedTree, PathAccepted, HasExecBit, Visited, WellFormed, WalkAccepted;
    var c :| IsCarrier(c) && c in t && IsPlainFile(t[c], render(provenance));
    VisitedTop(t, c);
    assert c in Extracted(t, order);
  }

  // ---- an accepted archive holds what was recorded ----

  lemma {:induction false} MembersAreCanonical(root: Bytes, members: seq<Member>, p: Path)
    requires WellFormedMembers(root, members) && p in Unpack(root, members)
    ensures CanonicalNode(Unpack(root, members)[p]) == Unpack(root, members)[p]
    decreases |members|
  {
    hide Posix, Parts, SpellingOk, IsCarrier, PathIsIncluded, TargetAccepted, HasExecBit;
    CanonicalModesAreCanonical();
    var init, m := members[..|members| - 1], members[|members| - 1];
    assert members == init + [m];
    MembersSnoc(root, init, m);
    if !(Placed(root, m) && Relative(root, m) == p) {
      MembersAreCanonical(root, init, p);
    }
  }

  /** Whatever tree the provenance was computed from, an archive that passes
      unpacks to exactly its paths, kinds, executable bits, bytes and targets,
      plus the carrier with the canonical provenance bytes, provided that none
      of the strings hashed on the two sides collide. */
  lemma AcceptedArchiveIsThePayload(sha: Hash, render: Render, root: Bytes, members: seq<Member>,
                                    provenance: Provenance, c: Tree)
    requires ArchiveAccepted(sha, render, root, members, provenance)
    requires Recordable(c) && RecordOfContent(sha, c) == provenance.payload
    requires Separates(sha, HashedBy(sha, c) + HashedBy(sha, WithoutCarrier(Unpack(root, members))))
    ensures WithoutCarrier(Unpack(root, members)) == CanonicalTree(c)
    ensures CarrierHolds(Unpack(root, members), render(provenance))
  {
    hide Unpack, Recordable, RecordOfContent, HashedBy, IsCarrier, CanonicalNode, Separates, WellFormedMembers;
    var u := Unpack(root, members);
    var d := WithoutCarrier(u);
    RecordIdentifiesContent(sha, c, d);
    forall p | p in d ensures CanonicalNode(d[p]) == d[p] {
      MembersAreCanonical(root, members, p);
    }
    assert CanonicalTree(d) == d;
  }

  lemma StagedWellFormed(sha: Hash, render: Render, t: Tree, provenance: Provenance)
    requires Staged(sha, render, t, provenance)
    ensures WellFormed(t)
  {
  }

  lemma StagedIsWritable(sha: Hash, render: Render, t: Tree, provenance: Provenance)
    requires Staged(sha, render, t, provenance)
    ensures AllWritable(t)
  {
    hide Staged, Visited, PathIsForbidden, AllowedTopLevel, IsCarrier, CanonicalPath, TargetAccepted, HasExecBit;
    forall p | Visited(t, p) ensures p in t && p != [] && !HasDotDot(p) && Writable(p, t[p]) {
      StagedPath(sha, render, t, provenance, p);
      if IsCarrier(p) {
        CarrierIncluded(p);
      }
    }
  }
}
