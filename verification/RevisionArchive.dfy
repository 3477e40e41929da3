/** From a Git revision to an accepted archive: staging, writing, and all the
    comparisons in between. */
module RevisionArchive {
  import opened Bytes
  import opened Wrappers
  import opened PathPolicy
  import opened SymlinkTarget
  import opened TreeRecord
  import opened Content
  import opened FileTree
  import opened GitPayload
  import opened GitAgreement
  import opened StagedRevision
  import opened Archive
  import opened ArchiveRoundTrip
  import opened ArchiveChecks
  import opened ArchiveContents

  // ---- a written archive passes the two comparisons ----

  lemma WrittenFor(root: Bytes, t: Tree, order: seq<Path>, members: seq<Member>, k: nat, p: Path)
    requires MembersAlong(root, t, order, members) && k < |members|
    ensures For(root, members[k], p) <==> k > 0 && order[k - 1] == p
    ensures k == 0 <==> members[k].name == root
  {
    hide Posix, Parts, MemberOf;
    if k > 0 {
      var q := order[k - 1];
      assert members[k - 1 + 1] == MemberOf(root, q, t[q]);
      MemberIsNamed(root, q, t[q]);
      NodeRoundTrip(root, q, t[q]);
      NameRoundTrip(root, q);
    }
  }

  lemma MemberIsNamed(root: Bytes, p: Path, node: Node)
    requires p != [] && !node.SpecialNode?
    ensures MemberOf(root, p, node).name == MemberName(root, p)
  {
  }

  lemma MemberReadable(check: Check, root: Bytes, p: Path, node: Node)
    requires p != [] && !HasDotDot(p) && !node.SpecialNode?
    ensures Readable(check, root, MemberOf(root, p, node))
  {
    hide Posix, Parts;
    NameRoundTrip(root, p);
  }

  lemma WrittenReadable(check: Check, root: Bytes, t: Tree, order: seq<Path>, members: seq<Member>)
    requires WellFormed(t) && MembersAlong(root, t, order, members) && Content.Distinct(order)
    ensures AllReadable(check, root, members)
  {
    hide Readable, For, MemberOf;
    forall k | 0 <= k < |members| ensures Readable(check, root, members[k]) {
      if k == 0 {
        RootReadable(check, root);
      } else {
        assert members[k - 1 + 1] == MemberOf(root, order[k - 1], t[order[k - 1]]);
        MemberReadable(check, root, order[k - 1], t[order[k - 1]]);
      }
    }
    forall j, k, p | 0 <= j < k < |members| && For(root, members[j], p) ensures !For(root, members[k], p) {
      WrittenFor(root, t, order, members, j, p);
      WrittenFor(root, t, order, members, k, p);
    }
  }

  lemma RootReadable(check: Check, root: Bytes)
    ensures Readable(check, root, RootMember(root))
  {
    assert MODE_DIR % 4096 == MODE_DIR;
  }

  /** The member for a path is that of its node. */
  lemma WrittenAt(root: Bytes, t: Tree, order: seq<Path>, members: seq<Member>, k: nat, p: Path)
    requires IsWalkOrder(t, order) && MembersAlong(root, t, order, members) && k < |members| && For(root, members[k], p)
    ensures Visited(t, p) && p in t && p != [] && !t[p].SpecialNode? && members[k] == MemberOf(root, p, t[p])
  {
    hide For, Visited, MemberOf;
    WrittenFor(root, t, order, members, k, p);
    assert p in order && members[k - 1 + 1] == MemberOf(root, p, t[p]);
  }

  /** Every path that the walk sees has a member. */
  lemma WrittenCovers(root: Bytes, t: Tree, order: seq<Path>, members: seq<Member>, paths: set<Path>)
    requires IsWalkOrder(t, order) && MembersAlong(root, t, order, members)
    requires forall p :: p in paths ==> Visited(t, p)
    ensures Covers(root, members, paths)
  {
    hide For, Visited, MemberOf;
    forall p | p in paths ensures exists k :: 0 <= k < |members| && For(root, members[k], p) {
      var i :| 0 <= i < |order| && order[i] == p;
      WrittenFor(root, t, order, members, i + 1, p);
    }
  }

  lemma MemberCopies(id: BlobId, root: Bytes, p: Path, node: Node)
    requires p != [] && !node.SpecialNode?
    ensures Copies(id, MemberOf(root, p, node), node)
  {
    hide HasExecBit;
    assert MODE_EXEC % 4096 == MODE_EXEC && MODE_PLAIN % 4096 == MODE_PLAIN
           && MODE_LINK % 4096 == MODE_LINK && MODE_DIR % 4096 == MODE_DIR;
  }

  /** Every written archive matches the staged files. */
  lemma WrittenMatchesStaged(id: BlobId, root: Bytes, t: Tree, members: seq<Member>)
    requires WellFormed(t) && IsArchiveOf(root, t, members)
    ensures MatchesStaged(id, root, t, members)
  {
    hide *;
    var order := OrderOf(root, t, members);
    OrderDistinct(t, order);
    WrittenReadable(WithStaged, root, t, order, members);
    OneRoot(root, t, order, members);
    WrittenCopies(id, root, t, order, members);
    MatchesStagedParts(id, root, t, members);
  }

  lemma MatchesStagedParts(id: BlobId, root: Bytes, t: Tree, members: seq<Member>)
    requires AllReadable(WithStaged, root, members) && RootCountOf(root, members) == 1
    requires CopiesAll(id, root, members, VisitedTree(t))
    ensures MatchesStaged(id, root, t, members)
  {
  }

  lemma WrittenCopies(id: BlobId, root: Bytes, t: Tree, order: seq<Path>, members: seq<Member>)
    requires IsWalkOrder(t, order) && MembersAlong(root, t, order, members)
    ensures CopiesAll(id, root, members, VisitedTree(t))
  {
    VisitedInTree(t);
    WrittenCovers(root, t, order, members, VisitedTree(t).Keys);
    hide *;
    forall k, p | 0 <= k < |members| && For(root, members[k], p) ensures CopyOf(id, t, members[k], p) {
      CopyWritten(id, root, t, order, members, k, p);
    }
    CopiesAllFrom(id, root, t, members);
  }

  ghost predicate CopyOf(id: BlobId, t: Tree, m: Member, p: Path) { Visited(t, p) && p in t && Copies(id, m, t[p]) }

  lemma CopyWritten(id: BlobId, root: Bytes, t: Tree, order: seq<Path>, members: seq<Member>, k: nat, p: Path)
    requires IsWalkOrder(t, order) && MembersAlong(root, t, order, members) && k < |members| && For(root, members[k], p)
    ensures CopyOf(id, t, members[k], p)
  {
    hide For, Copies, Visited, MemberOf, IsWalkOrder, MembersAlong;
    WrittenAt(root, t, order, members, k, p);
    MemberCopies(id, root, p, t[p]);
  }

  lemma CopiesAllFrom(id: BlobId, root: Bytes, t: Tree, members: seq<Member>)
    requires forall k, p :: 0 <= k < |members| && For(root, members[k], p) ==> CopyOf(id, t, members[k], p)
    requires Covers(root, members, VisitedTree(t).Keys)
    ensures CopiesAll(id, root, members, VisitedTree(t))
  {
    hide For, Copies, Visited;
  }

  // ---- the staged tree of a revision ----

  const CARRIER: Path := [Ascii(SOURCE_PROVENANCE_FILE)]

  lemma CarrierPath()
    ensures IsCarrier(CARRIER) && CARRIER != [] && !HasDotDot(CARRIER)
  {
    CarrierText();
    hide SOURCE_PROVENANCE_FILE, Text;
    assert IsCarrier(CARRIER);
    CarrierIncluded(CARRIER);
  }

  lemma CarrierText()
    ensures |CARRIER| == 1 && Text(CARRIER[0]) == SOURCE_PROVENANCE_FILE
  {
    var name := CARRIER[0];
    forall i | 0 <= i < |SOURCE_PROVENANCE_FILE| ensures Text(name)[i] == SOURCE_PROVENANCE_FILE[i] {
      CarrierLetters(i);
    }
  }

  /** A payload with its carrier beside it. */
  ghost function WithCarrier(t: Tree, carrier: Bytes): Tree {
    t[CARRIER := FileNode(carrier, MODE_PLAIN)]
  }

  /** The carrier hides nothing and changes nothing that the walk captures. */
  lemma CarrierAside(t: Tree, carrier: Bytes)
    requires WellFormed(t) && CARRIER !in t
    ensures WellFormed(WithCarrier(t, carrier))
    ensures forall p :: Visited(WithCarrier(t, carrier), p) <==> p == CARRIER || Visited(t, p)
    ensures CapturedTree(WithCarrier(t, carrier)) == CapturedTree(t)
  {
    CarrierPath();
    hide IsCarrier, PathIsForbidden, HasDotDot, CARRIER;
    var t' := WithCarrier(t, carrier);
    assert |CARRIER| == 1 by { CarrierLength(); }
    forall d ensures Descends(t', d) <==> Descends(t, d) {
    }
    forall p | IsCarrier(p) ensures p == CARRIER {
      CarrierUnique(p, CARRIER);
    }
    hide Descends;
    assert forall p :: Visited(t', p) <==> p == CARRIER || Visited(t, p);
  }

  lemma CarrierLength()
    ensures |CARRIER| == 1
  {
  }

  lemma CarrierAbsent(entries: Entries, blobs: Blobs)
    requires Materializable(entries, blobs) && !CarrierIsDirectory(entries)
    ensures CARRIER !in Materialized(entries, blobs)
  {
    CarrierPath();
    hide IsCarrier, Directories, SupportedEntry;
  }

  /** What staging a revision ends with. */
  lemma RevisionIsStaged(sha: Hash, render: Render, entries: Entries, blobs: Blobs, provenance: Provenance)
    requires IncludedEntries(entries) && GitAccepted(entries, blobs) && AncestorsAllowed(entries) && !CarrierIsDirectory(entries)
    requires provenance.payload == RecordOfContent(sha, Materialized(entries, blobs))
    ensures WellFormed(Materialized(entries, blobs))
    ensures Staged(sha, render, WithCarrier(Materialized(entries, blobs), render(provenance)), provenance)
  {
    var t := Materialized(entries, blobs);
    MaterializedWellFormed(entries, blobs);
    CarrierAbsent(entries, blobs);
    CarrierAside(t, render(provenance));
    GitAndWalkAgree(sha, entries, blobs);
    CarrierPath();
    CarrierIsPlain(render(provenance));
    hide CapturedTree, Materialized, PathAccepted, Recordable, RecordOfContent, IsCarrier, CARRIER, GitAccepted,
         AncestorsAllowed, IncludedEntries, IsPlainFile, WellFormed;
    SameWalk(t, WithCarrier(t, render(provenance)));
    assert WithCarrier(t, render(provenance))[CARRIER] == FileNode(render(provenance), MODE_PLAIN);
  }

  lemma CarrierIsPlain(carrier: Bytes)
    ensures IsPlainFile(FileNode(carrier, MODE_PLAIN), carrier)
  {
  }

  lemma SameWalk(t: Tree, u: Tree)
    requires WellFormed(t) && WellFormed(u) && CapturedTree(u) == CapturedTree(t)
    ensures WalkAccepted(u) <==> WalkAccepted(t)
  {
    hide PathAccepted, Recordable, WellFormed;
    forall p | p in CapturedTree(t) ensures u[p] == t[p] {
      CapturedInTree(t, p);
      CapturedInTree(u, p);
    }
  }

  // ---- the comparison with the revision ----

  lemma EntryMemberFits(id: BlobId, root: Bytes, p: Path, e: GitEntry, blobs: Blobs)
    requires p != [] && SupportedMode(e) && e.oid in blobs && id(blobs[e.oid]) == e.oid
    ensures EntryFits(id, e, MemberOf(root, p, GitNode(e, blobs)))
  {
    assert HasExecBit(MODE_EXEC) && !HasExecBit(MODE_PLAIN);
    assert MODE_EXEC % 4096 == MODE_EXEC && MODE_PLAIN % 4096 == MODE_PLAIN && MODE_LINK % 4096 == MODE_LINK;
  }

  lemma OwnMemberFits(id: BlobId, root: Bytes, entries: Entries, blobs: Blobs, p: Path)
    requires Materializable(entries, blobs) && Consistent(id, entries, blobs)
    requires p in Materialized(entries, blobs) && p != []
    ensures !Materialized(entries, blobs)[p].SpecialNode?
    ensures PathFits(id, entries, Directories(entries), p, MemberOf(root, p, Materialized(entries, blobs)[p]))
  {
    hide Directories, IncludedEntries, TargetAccepted, EntryFits;
    if p in entries {
      SupportedHasBlob(p, entries[p], blobs);
      EntryMemberFits(id, root, p, entries[p], blobs);
    } else {
      assert MODE_DIR % 4096 == MODE_DIR;
    }
  }

  lemma CarrierMemberFits(parse: Parse, render: Render, root: Bytes, provenance: Provenance)
    requires parse(render(provenance)) == Some(provenance)
    ensures CARRIER != [] && CarrierFits(parse, provenance, MemberOf(root, CARRIER, FileNode(render(provenance), MODE_PLAIN)))
  {
    assert !HasExecBit(MODE_PLAIN) && MODE_PLAIN % 4096 == MODE_PLAIN;
    CarrierPath();
  }

  /** The member of each path of the staged tree fits the revision. */
  lemma StagedMemberFits(id: BlobId, parse: Parse, render: Render, root: Bytes, entries: Entries, blobs: Blobs,
                         provenance: Provenance, p: Path)
    requires Materializable(entries, blobs) && Consistent(id, entries, blobs) && !CarrierIsDirectory(entries)
    requires parse(render(provenance)) == Some(provenance)
    requires p != [] && p in WithCarrier(Materialized(entries, blobs), render(provenance))
    ensures var node := WithCarrier(Materialized(entries, blobs), render(provenance))[p];
            !node.SpecialNode? && MemberFits(id, parse, entries, Directories(entries), provenance, p, MemberOf(root, p, node))
  {
    CarrierPath();
    CarrierAbsent(entries, blobs);
    hide MemberOf, PathFits, CarrierFits, IsCarrier, CARRIER, Materializable, Consistent, AllSupported, CarrierIsDirectory, Directories;
    if p == CARRIER {
      CarrierMemberFits(parse, render, root, provenance);
    } else {
      if IsCarrier(p) {
        CarrierUnique(p, CARRIER);
      }
      OwnMemberFits(id, root, entries, blobs, p);
      MaterializedKeys(entries, blobs);
    }
  }

  lemma MaterializedKeys(entries: Entries, blobs: Blobs)
    requires Materializable(entries, blobs)
    ensures Materialized(entries, blobs).Keys == entries.Keys + Directories(entries)
  {
    hide Directories, SupportedEntry, GitNode;
  }

  /** Of the staged tree of a revision the walk sees everything. */
  lemma AllSeen(entries: Entries, blobs: Blobs, carrier: Bytes, p: Path)
    requires Materializable(entries, blobs) && AncestorsAllowed(entries) && !CarrierIsDirectory(entries)
    ensures var t := WithCarrier(Materialized(entries, blobs), carrier); Visited(t, p) <==> p in t
  {
    var t := Materialized(entries, blobs);
    MaterializedWellFormed(entries, blobs);
    CarrierAbsent(entries, blobs);
    CarrierAside(t, carrier);
    VisitedInTree(t);
    hide Visited, Materialized, Materializable, AncestorsAllowed, CarrierIsDirectory, CARRIER, WellFormed, AllSupported;
    if p in t {
      EverythingVisited(entries, blobs, p);
    }
  }

  /** The archive of a staged revision matches the revision. */
  lemma WrittenMatchesGit(id: BlobId, parse: Parse, render: Render, root: Bytes, entries: Entries, blobs: Blobs,
                          provenance: Provenance, members: seq<Member>)
    requires Materializable(entries, blobs) && Consistent(id, entries, blobs)
    requires AncestorsAllowed(entries) && !CarrierIsDirectory(entries)
    requires parse(render(provenance)) == Some(provenance)
    requires IsArchiveOf(root, WithCarrier(Materialized(entries, blobs), render(provenance)), members)
    ensures MatchesGit(id, parse, root, entries, provenance, members)
  {
    hide *;
    EntriesSupported(entries, blobs);
    var t := WithCarrier(Materialized(entries, blobs), render(provenance));
    StagedKeys(entries, blobs, render(provenance));
    var order := OrderOf(root, t, members);
    OrderDistinct(t, order);
    WrittenReadable(WithRevision, root, t, order, members);
    RevisionFits(id, parse, render, root, entries, blobs, provenance, order, members);
    RevisionCovered(root, entries, blobs, render(provenance), order, members);
    MatchesGitParts(id, parse, root, entries, provenance, members);
  }

  lemma EntriesSupported(entries: Entries, blobs: Blobs)
    requires Materializable(entries, blobs)
    ensures AllSupported(entries, blobs)
  {
    hide AllSupported, IncludedEntries, NoConflict;
  }

  lemma OrderOf(root: Bytes, t: Tree, members: seq<Member>) returns (order: seq<Path>)
    requires IsArchiveOf(root, t, members)
    ensures IsWalkOrder(t, order) && MembersAlong(root, t, order, members)
  {
    hide IsWalkOrder, MembersAlong;
    order :| IsWalkOrder(t, order) && MembersAlong(root, t, order, members);
  }

  lemma MatchesGitParts(id: BlobId, parse: Parse, root: Bytes, entries: Entries, provenance: Provenance, members: seq<Member>)
    requires AllReadable(WithRevision, root, members) && AllFit(id, parse, root, entries, provenance, members)
    requires Covers(root, members, entries.Keys + Directories(entries) + {CARRIER})
    ensures MatchesGit(id, parse, root, entries, provenance, members)
  {
    CarrierPath();
    hide AllReadable, AllFit, For, IsCarrier, CARRIER, Directories;
    assert Covers(root, members, entries.Keys + Directories(entries));
    assert Covers(root, members, {CARRIER});
  }

  lemma RevisionFits(id: BlobId, parse: Parse, render: Render, root: Bytes, entries: Entries, blobs: Blobs,
                     provenance: Provenance, order: seq<Path>, members: seq<Member>)
    requires Materializable(entries, blobs) && Consistent(id, entries, blobs) && !CarrierIsDirectory(entries)
    requires parse(render(provenance)) == Some(provenance)
    requires var t := WithCarrier(Materialized(entries, blobs), render(provenance));
             IsWalkOrder(t, order) && MembersAlong(root, t, order, members)
    ensures AllFit(id, parse, root, entries, provenance, members)
  {
    var t := WithCarrier(Materialized(entries, blobs), render(provenance));
    hide *;
    EntriesSupported(entries, blobs);
    forall k, p | 0 <= k < |members| && For(root, members[k], p)
      ensures MemberFits(id, parse, entries, Directories(entries), provenance, p, members[k])
    {
      WrittenAt(root, t, order, members, k, p);
      StagedMemberFits(id, parse, render, root, entries, blobs, provenance, p);
    }
    FitsAll(id, parse, root, entries, provenance, members);
  }

  lemma FitsAll(id: BlobId, parse: Parse, root: Bytes, entries: Entries, provenance: Provenance, members: seq<Member>)
    requires forall k, p :: 0 <= k < |members| && For(root, members[k], p) ==>
               MemberFits(id, parse, entries, Directories(entries), provenance, p, members[k])
    ensures AllFit(id, parse, root, entries, provenance, members)
  {
  }

  lemma RevisionCovered(root: Bytes, entries: Entries, blobs: Blobs, carrier: Bytes, order: seq<Path>, members: seq<Member>)
    requires Materializable(entries, blobs) && AncestorsAllowed(entries) && !CarrierIsDirectory(entries)
    requires var t := WithCarrier(Materialized(entries, blobs), carrier);
             IsWalkOrder(t, order) && MembersAlong(root, t, order, members)
    ensures Covers(root, members, entries.Keys + Directories(entries) + {CARRIER})
  {
    var t := WithCarrier(Materialized(entries, blobs), carrier);
    StagedKeys(entries, blobs, carrier);
    hide For, Visited, WithCarrier, Materialized, Materializable, AllSupported, AncestorsAllowed, CarrierIsDirectory, Directories,
         CARRIER, WellFormed, IsWalkOrder, MembersAlong;
    forall p | p in entries.Keys + Directories(entries) + {CARRIER} ensures Visited(t, p) {
      AllSeen(entries, blobs, carrier, p);
    }
    WrittenCovers(root, t, order, members, entries.Keys + Directories(entries) + {CARRIER});
  }

  lemma OrderDistinct(t: Tree, order: seq<Path>)
    requires IsWalkOrder(t, order)
    ensures Content.Distinct(order)
  {
  }

  lemma StagedKeys(entries: Entries, blobs: Blobs, carrier: Bytes)
    requires Materializable(entries, blobs) && !CarrierIsDirectory(entries)
    ensures WellFormed(WithCarrier(Materialized(entries, blobs), carrier))
    ensures WithCarrier(Materialized(entries, blobs), carrier).Keys == entries.Keys + Directories(entries) + {CARRIER}
  {
    MaterializedWellFormed(entries, blobs);
    CarrierAbsent(entries, blobs);
    CarrierAside(Materialized(entries, blobs), carrier);
    MaterializedKeys(entries, blobs);
    hide Materialized, Materializable, AllSupported, CarrierIsDirectory, Directories, CARRIER, WellFormed, Visited;
  }

  // ---- create_archive ----

  /** The part after staging: the payload is written, and the archive compared with
      the staged files and with its provenance. For a staged payload that succeeds. */
  method ArchiveStaged(sha: Hash, id: BlobId, render: Render, root: Bytes, t: Tree, provenance: Provenance)
    returns (r: Option<seq<Member>>)
    requires Staged(sha, render, t, provenance)
    ensures r.Some? && WellFormed(t) && IsArchiveOf(root, t, r.value)
    ensures MatchesStaged(id, root, t, r.value) && ArchiveAccepted(sha, render, root, r.value, provenance)
    ensures WithoutCarrier(Unpack(root, r.value)) == CanonicalTree(CapturedTree(t))
  {
    hide *;
    StagedIsWritable(sha, render, t, provenance);
    StagedWellFormed(sha, render, t, provenance);
    r := None;
    var written := WriteArchive(root, t);
    var members := written.value;
    WrittenMatchesStaged(id, root, t, members);
    WrittenArchiveAccepted(sha, render, root, t, provenance, members);
    var copies := AssertMatchesStaged(id, root, t, members);
    if !copies { return; }
    var errors := VerifyArchive(sha, render, root, members, provenance);
    if errors != [] { return; }
    r := Some(members);
  }

  /** create_archive for a checkout at a revision: its payload is staged, written,
      and compared with the staged files, with its provenance, and with the
      revision. It succeeds exactly when the record can be derived, no directory
      above an entry is denied, and none bears the carrier's name; the archive then
      passes all comparisons and unpacks to the tree the objects describe, with the
      canonical carrier beside it, and so to nothing that the payload rules keep out. */
  method CreateArchive(sha: Hash, id: BlobId, render: Render, parse: Parse, root: Bytes, owner: string, revision: string,
                       entries: Entries, blobs: Blobs)
    returns (r: Option<(seq<Member>, Provenance)>)
    requires IncludedEntries(entries) && Consistent(id, entries, blobs)
    requires forall p :: parse(render(p)) == Some(p)
    ensures r.Some? <==> GitAccepted(entries, blobs) && AncestorsAllowed(entries) && !CarrierIsDirectory(entries)
    ensures r.Some? ==>
              var (members, provenance) := r.value;
              && provenance == Provenance(owner, revision, RecordOfContent(sha, Materialized(entries, blobs)))
              && ArchiveAccepted(sha, render, root, members, provenance)
              && MatchesStaged(id, root, WithCarrier(Materialized(entries, blobs), render(provenance)), members)
              && MatchesGit(id, parse, root, entries, provenance, members)
              && WithoutCarrier(Unpack(root, members)) == Materialized(entries, blobs)
              && CarrierHolds(Unpack(root, members), render(provenance))
              && AllHarmless(Unpack(root, members))
  {
    hide *;
    r := None;
    var staged := StageRevision(sha, id, entries, blobs);
    if staged == None { return; }
    var provenance := Provenance(owner, revision, staged.value.1);
    AcceptedParts(entries, blobs);
    RevisionIsStaged(sha, render, entries, blobs, provenance);
    var t := staged.value.0[CARRIER := FileNode(render(provenance), MODE_PLAIN)];
    IsWithCarrier(staged.value.0, render(provenance));
    var archived := ArchiveStaged(sha, id, render, root, t, provenance);
    var members := archived.value;
    WrittenMatchesGit(id, parse, render, root, entries, blobs, provenance, members);
    UnpacksToRevision(entries, blobs, render(provenance));
    AcceptedHolds(sha, render, root, members, provenance);
    AcceptedIsHarmless(sha, render, root, members, provenance);
    var fits := AssertMatchesGit(id, parse, root, entries, provenance, members);
    if !fits { return; }
    r := Some((members, provenance));
  }

  lemma AcceptedParts(entries: Entries, blobs: Blobs)
    requires IncludedEntries(entries) && GitAccepted(entries, blobs)
    ensures Materializable(entries, blobs) && AllSupported(entries, blobs) && Recordable(Materialized(entries, blobs))
  {
    hide IncludedEntries, AllSupported, NoConflict, Recordable, CanonicalPath;
  }

  lemma IsWithCarrier(t: Tree, carrier: Bytes)
    ensures WithCarrier(t, carrier) == t[CARRIER := FileNode(carrier, MODE_PLAIN)]
  {
  }

  lemma AcceptedHolds(sha: Hash, render: Render, root: Bytes, members: seq<Member>, provenance: Provenance)
    requires ArchiveAccepted(sha, render, root, members, provenance)
    ensures CarrierHolds(Unpack(root, members), render(provenance))
  {
    hide WellFormedMembers, RootCountOf, CarrierHolds, Recordable, RecordOfContent, Unpack, WithoutCarrier;
  }

  lemma UnpacksToRevision(entries: Entries, blobs: Blobs, carrier: Bytes)
    requires Materializable(entries, blobs) && AncestorsAllowed(entries) && !CarrierIsDirectory(entries)
    ensures CanonicalTree(CapturedTree(WithCarrier(Materialized(entries, blobs), carrier))) == Materialized(entries, blobs)
  {
    MaterializedWellFormed(entries, blobs);
    CarrierAbsent(entries, blobs);
    CarrierAside(Materialized(entries, blobs), carrier);
    CapturedIsMaterialized(entries, blobs);
    CanonicalAlready(entries, blobs);
    hide *;
  }

  lemma CanonicalAlready(entries: Entries, blobs: Blobs)
    requires Materializable(entries, blobs)
    ensures CanonicalTree(Materialized(entries, blobs)) == Materialized(entries, blobs)
  {
    hide SupportedEntry, Directories, IncludedEntries, NoConflict;
    var t := Materialized(entries, blobs);
    CanonicalModes();
    forall p | p in t ensures CanonicalNode(t[p]) == t[p] {
      if p in entries { SupportedHasBlob(p, entries[p], blobs); }
    }
  }
}
