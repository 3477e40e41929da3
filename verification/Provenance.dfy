/** The skill provenance manifest: an additive merge, a canonical rendering and
    its loader, at the level of the JSON structure. */
module Provenance {
  import opened Json
  import opened Ordering
  import opened Wrappers

  const SCHEMA := "vibecrafted.skill-provenance.v3"
  const NULL_OID := "0000000000000000000000000000000000000000"

  /** Everything released for one skill. */
  datatype SkillRecord = SkillRecord(sha256: set<string>, files: map<string, set<string>>)
  type Manifest = map<string, SkillRecord>

  const EMPTY := SkillRecord({}, map[])

  predicate RealOid(oid: string) { oid != NULL_OID && |oid| == 40 }

  function FilesAt(files: map<string, set<string>>, rel: string): set<string> { if rel in files then files[rel] else {} }
  function RecordAt(m: Manifest, name: string): SkillRecord { if name in m then m[name] else EMPTY }

  function Real(oids: set<string>): set<string> { set o | o in oids && RealOid(o) }

  /** SkillRecord.add_file */
  function AddFile(r: SkillRecord, rel: string, oids: set<string>): SkillRecord {
    r.(files := r.files[rel := FilesAt(r.files, rel) + Real(oids)])
  }

  class SkillRecordObject {
    var sha256: set<string>
    var files: map<string, set<string>>

    function Value(): SkillRecord
      reads this
    {
      SkillRecord(sha256, files)
    }

    constructor ()
      ensures Value() == EMPTY
    {
      sha256, files := {}, map[];
    }

    method Add(rel: string, oids: set<string>)
      modifies this
      ensures Value() == AddFile(old(Value()), rel, oids)
    {
      if rel !in files {
        files := files[rel := {}];
      }
      files := files[rel := files[rel] + Real(oids)];
      assert files == old(files)[rel := FilesAt(old(files), rel) + Real(oids)];
    }
  }

  // ---- the semilattice ----

  function JoinFiles(a: map<string, set<string>>, b: map<string, set<string>>): map<string, set<string>> {
    map rel | rel in a.Keys + b.Keys :: FilesAt(a, rel) + FilesAt(b, rel)
  }

  function JoinRecords(a: SkillRecord, b: SkillRecord): SkillRecord {
    SkillRecord(a.sha256 + b.sha256, JoinFiles(a.files, b.files))
  }

  function Join(a: Manifest, b: Manifest): Manifest {
    map name | name in a.Keys + b.Keys :: JoinRecords(RecordAt(a, name), RecordAt(b, name))
  }

  ghost predicate FilesWithin(a: map<string, set<string>>, b: map<string, set<string>>) {
    forall rel :: rel in a ==> rel in b && a[rel] <= b[rel]
  }

  /** Every entry of a is in b: skills, hashes, paths and blob ids. */
  ghost predicate Within(a: Manifest, b: Manifest) {
    forall name :: name in a ==>
      name in b && a[name].sha256 <= b[name].sha256 && FilesWithin(a[name].files, b[name].files)
  }

  lemma FilesJoinAt(a: map<string, set<string>>, b: map<string, set<string>>, rel: string)
    ensures FilesAt(JoinFiles(a, b), rel) == FilesAt(a, rel) + FilesAt(b, rel)
  {
  }

  lemma SameFiles(a: map<string, set<string>>, b: map<string, set<string>>)
    requires a.Keys == b.Keys && forall rel :: FilesAt(a, rel) == FilesAt(b, rel)
    ensures a == b
  {
    forall rel | rel in a ensures a[rel] == b[rel] {
      assert FilesAt(a, rel) == FilesAt(b, rel);
    }
  }

  lemma FilesCommute(a: map<string, set<string>>, b: map<string, set<string>>)
    ensures JoinFiles(a, b) == JoinFiles(b, a)
  {
    forall rel ensures FilesAt(JoinFiles(a, b), rel) == FilesAt(JoinFiles(b, a), rel) {
      FilesJoinAt(a, b, rel);
      FilesJoinAt(b, a, rel);
    }
    hide FilesAt;
    SameFiles(JoinFiles(a, b), JoinFiles(b, a));
  }

  lemma FilesAssociate(a: map<string, set<string>>, b: map<string, set<string>>, c: map<string, set<string>>)
    ensures JoinFiles(JoinFiles(a, b), c) == JoinFiles(a, JoinFiles(b, c))
  {
    hide FilesAt;
    forall rel ensures FilesAt(JoinFiles(JoinFiles(a, b), c), rel) == FilesAt(JoinFiles(a, JoinFiles(b, c)), rel) {
      FilesJoinAt(a, b, rel);
      FilesJoinAt(b, c, rel);
      FilesJoinAt(JoinFiles(a, b), c, rel);
      FilesJoinAt(a, JoinFiles(b, c), rel);
    }
    SameFiles(JoinFiles(JoinFiles(a, b), c), JoinFiles(a, JoinFiles(b, c)));
  }

  lemma FilesUnit(a: map<string, set<string>>)
    ensures JoinFiles(map[], a) == a == JoinFiles(a, map[]) && JoinFiles(a, a) == a
  {
    assert FilesWithin(map[], a) && FilesWithin(a, a);
    FilesContain(map[], a);
    FilesContain(a, a);
    FilesCommute(map[], a);
  }

  lemma FilesContain(a: map<string, set<string>>, b: map<string, set<string>>)
    ensures FilesWithin(a, b) <==> JoinFiles(a, b) == b
  {
    if JoinFiles(a, b) == b {
      forall rel | rel in a ensures rel in b && a[rel] <= b[rel] {
        assert rel in JoinFiles(a, b);
        FilesJoinAt(a, b, rel);
      }
    }
    if FilesWithin(a, b) {
      forall rel ensures FilesAt(JoinFiles(a, b), rel) == FilesAt(b, rel) {
        FilesJoinAt(a, b, rel);
        assert FilesAt(a, rel) <= FilesAt(b, rel);
      }
      assert JoinFiles(a, b).Keys == b.Keys;
      SameFiles(JoinFiles(a, b), b);
    }
  }

  lemma RecordLaws(a: SkillRecord, b: SkillRecord, c: SkillRecord)
    ensures JoinRecords(a, b) == JoinRecords(b, a) && JoinRecords(a, a) == a
    ensures JoinRecords(JoinRecords(a, b), c) == JoinRecords(a, JoinRecords(b, c))
    ensures JoinRecords(EMPTY, a) == a == JoinRecords(a, EMPTY)
    ensures a.sha256 <= b.sha256 && FilesWithin(a.files, b.files) <==> JoinRecords(a, b) == b
  {
    hide JoinFiles, FilesWithin, FilesAt;
    FilesCommute(a.files, b.files);
    FilesAssociate(a.files, b.files, c.files);
    FilesUnit(a.files);
    FilesContain(a.files, b.files);
  }

  lemma JoinCommutes(a: Manifest, b: Manifest)
    ensures Join(a, b) == Join(b, a)
  {
    hide JoinRecords, RecordAt;
    forall name ensures RecordAt(Join(a, b), name) == RecordAt(Join(b, a), name) {
      JoinAt(a, b, name);
      JoinAt(b, a, name);
      RecordLaws(RecordAt(a, name), RecordAt(b, name), EMPTY);
    }
    SameManifest(Join(a, b), Join(b, a));
  }

  lemma JoinAt(a: Manifest, b: Manifest, name: string)
    ensures RecordAt(Join(a, b), name) == JoinRecords(RecordAt(a, name), RecordAt(b, name))
  {
    RecordLaws(EMPTY, EMPTY, EMPTY);
    hide JoinRecords;
  }

  lemma AssociatesAt(a: Manifest, b: Manifest, c: Manifest, name: string)
    ensures RecordAt(Join(Join(a, b), c), name) == RecordAt(Join(a, Join(b, c)), name)
  {
    hide *;
    JoinAt(a, b, name);
    JoinAt(b, c, name);
    JoinAt(Join(a, b), c, name);
    JoinAt(a, Join(b, c), name);
    RecordLaws(RecordAt(a, name), RecordAt(b, name), RecordAt(c, name));
  }

  lemma JoinAssociates(a: Manifest, b: Manifest, c: Manifest)
    ensures Join(Join(a, b), c) == Join(a, Join(b, c))
  {
    hide JoinRecords, RecordAt;
    forall name ensures RecordAt(Join(Join(a, b), c), name) == RecordAt(Join(a, Join(b, c)), name) {
      AssociatesAt(a, b, c, name);
    }
    SameManifest(Join(Join(a, b), c), Join(a, Join(b, c)));
  }

  lemma SameManifest(a: Manifest, b: Manifest)
    requires a.Keys == b.Keys && forall name :: RecordAt(a, name) == RecordAt(b, name)
    ensures a == b
  {
    forall name | name in a ensures a[name] == b[name] {
      assert RecordAt(a, name) == RecordAt(b, name);
    }
  }

  lemma ContainsAt(a: Manifest, b: Manifest, name: string)
    ensures RecordAt(a, name).sha256 <= RecordAt(b, name).sha256
            && FilesWithin(RecordAt(a, name).files, RecordAt(b, name).files)
            <==> RecordAt(Join(a, b), name) == RecordAt(b, name)
  {
    hide JoinRecords, FilesWithin, Join;
    JoinAt(a, b, name);
    RecordLaws(RecordAt(a, name), RecordAt(b, name), EMPTY);
  }

  /** The order of the merge is containment. */
  lemma JoinContains(a: Manifest, b: Manifest)
    ensures Within(a, b) <==> Join(a, b) == b
  {
    hide JoinRecords, FilesWithin;
    if Join(a, b) == b {
      forall name | name in a
        ensures name in b && a[name].sha256 <= b[name].sha256 && FilesWithin(a[name].files, b[name].files)
      {
        assert name in Join(a, b);
        ContainsAt(a, b, name);
      }
    }
    if Within(a, b) {
      assert Join(a, b).Keys == b.Keys;
      forall name ensures RecordAt(Join(a, b), name) == RecordAt(b, name) {
        EmptyWithin(RecordAt(b, name));
        ContainsAt(a, b, name);
      }
      SameManifest(Join(a, b), b);
    }
  }

  lemma EmptyWithin(r: SkillRecord)
    ensures EMPTY.sha256 <= r.sha256 && FilesWithin(EMPTY.files, r.files)
  {
  }

  lemma JoinIdempotent(a: Manifest, b: Manifest)
    ensures Join(a, a) == a && Join(Join(a, b), b) == Join(a, b)
    ensures Within(a, Join(a, b)) && Within(b, Join(a, b))
  {
    hide *;
    JoinContains(a, a);
    JoinContains(b, b);
    JoinAssociates(a, b, b);
    JoinAssociates(a, a, b);
    JoinCommutes(a, b);
    JoinCommutes(b, Join(a, b));
    JoinContains(a, Join(a, b));
    JoinContains(b, Join(a, b));
    SelfWithin(a);
    SelfWithin(b);
  }

  lemma SelfWithin(a: Manifest)
    ensures Within(a, a)
  {
  }
}
