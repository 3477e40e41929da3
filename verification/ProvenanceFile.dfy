/** The manifest file: its rendering, its loader, and the check that a
    regeneration would render the same. */
module ProvenanceFile {
  import opened Json
  import opened Ordering
  import opened Provenance
  import opened Wrappers

  type Fields = seq<(string, Json)>

  // ---- load_manifest ----

  function StringSet(j: Json): set<string> {
    if j.List? then set x | x in j.items && x.Str? :: x.s else {}
  }

  function LoadFiles(r: SkillRecord, fields: Fields): SkillRecord {
    if fields == [] then r
    else
      var n := |fields| - 1;
      AddFile(LoadFiles(r, fields[..n]), fields[n].0, StringSet(fields[n].1))
  }

  function LoadRecord(entry: Fields): SkillRecord {
    var r := SkillRecord(StringSet(Get(entry, "sha256")), map[]);
    var files := Get(entry, "files");
    if files.Dict? then LoadFiles(r, files.fields) else r
  }

  function LoadSkills(fields: Fields): Manifest {
    if fields == [] then map[]
    else
      var n := |fields| - 1;
      var before := LoadSkills(fields[..n]);
      if fields[n].1.Dict? then before[fields[n].0 := LoadRecord(fields[n].1.fields)] else before
  }

  /** The manifest on disk; None stands for an unreadable or malformed file. */
  function Load(doc: Option<Json>): Manifest {
    if doc == Option.None || !doc.value.Dict? || Get(doc.value.fields, "schema") != Str(SCHEMA) then map[]
    else
      var skills := Get(doc.value.fields, "skills");
      if skills.Dict? then LoadSkills(skills.fields) else map[]
  }

  // ---- render_manifest ----

  function RenderStrings(l: seq<string>): Json {
    List(seq(|l|, i requires 0 <= i < |l| => Str(l[i])))
  }

  ghost function RenderFiles(files: map<string, set<string>>, names: seq<string>): Fields
    requires forall x :: x in names ==> x in files
  {
    seq(|names|, i requires 0 <= i < |names| => (names[i], RenderStrings(Sorted(files[names[i]]))))
  }

  ghost function RenderRecord(r: SkillRecord): Json {
    Dict([("sha256", RenderStrings(Sorted(r.sha256))), ("files", Dict(RenderFiles(r.files, Sorted(r.files.Keys))))])
  }

  ghost function RenderSkills(m: Manifest, names: seq<string>): Fields
    requires forall x :: x in names ==> x in m
  {
    seq(|names|, i requires 0 <= i < |names| => (names[i], RenderRecord(m[names[i]])))
  }

  ghost function Render(m: Manifest, generatedAt: string): Json {
    Dict([("schema", Str(SCHEMA)), ("generated_at", Str(generatedAt)), ("skills", Dict(RenderSkills(m, Sorted(m.Keys))))])
  }

  // ---- the loader inverts the rendering ----

  /** What add_file guarantees of every record. */
  predicate OnlyRealOids(m: Manifest) {
    forall name :: name in m ==> RealFiles(m[name].files)
  }

  lemma StringsBack(s: set<string>)
    ensures StringSet(RenderStrings(Sorted(s))) == s
  {
    var l := Sorted(s);
    var items := RenderStrings(l).items;
    forall x | x in s ensures exists y :: y in items && y.Str? && y.s == x {
      assert x in l;
      var i :| 0 <= i < |l| && l[i] == x;
      assert items[i] == Str(x) && items[i] in items;
    }
    forall x | x in StringSet(RenderStrings(l)) ensures x in s {
      var y :| y in items && y.Str? && y.s == x;
      var i :| 0 <= i < |items| && items[i] == y;
      assert l[i] == x && l[i] in l;
    }
  }

  function Restrict<V>(m: map<string, V>, names: seq<string>): map<string, V> {
    map x | x in m && x in names :: m[x]
  }

  lemma RenderFilesSnoc(files: map<string, set<string>>, names: seq<string>, x: string)
    requires x in files && forall y :: y in names ==> y in files
    ensures RenderFiles(files, names + [x]) == RenderFiles(files, names) + [(x, RenderStrings(Sorted(files[x])))]
  {
  }

  lemma LoadFilesSnoc(r: SkillRecord, fields: Fields, f: (string, Json))
    ensures LoadFiles(r, fields + [f]) == AddFile(LoadFiles(r, fields), f.0, StringSet(f.1))
  {
    assert (fields + [f])[..|fields|] == fields;
    hide AddFile, StringSet;
  }

  lemma AddRestricted(r: SkillRecord, files: map<string, set<string>>, names: seq<string>, x: string)
    requires x in files && RealFiles(files)
    ensures AddFile(r.(files := Restrict(files, names)), x, files[x]) == r.(files := Restrict(files, names + [x]))
  {
    RealOnly(files[x], FilesAt(Restrict(files, names), x));
    hide Real;
    assert Restrict(files, names)[x := files[x]] == Restrict(files, names + [x]);
  }

  lemma {:induction false} FilesBack(r: SkillRecord, files: map<string, set<string>>, names: seq<string>)
    requires r.files == map[] && forall x :: x in names ==> x in files
    requires RealFiles(files)
    ensures LoadFiles(r, RenderFiles(files, names)) == r.(files := Restrict(files, names))
  {
    if names == [] {
      assert RenderFiles(files, names) == [] && Restrict(files, names) == map[];
    } else {
      var before, x := names[..|names| - 1], names[|names| - 1];
      assert names == before + [x];
      FilesBack(r, files, before);
      hide RenderFiles, LoadFiles, Restrict, AddFile, StringSet, RenderStrings, Real;
      StringsBack(files[x]);
      RenderFilesSnoc(files, before, x);
      LoadFilesSnoc(r, RenderFiles(files, before), (x, RenderStrings(Sorted(files[x]))));
      AddRestricted(r, files, before, x);
    }
  }

  lemma RealOnly(oids: set<string>, before: set<string>)
    requires Real(oids) == oids && (before == {} || before == oids)
    ensures before + Real(oids) == oids
  {
  }

  lemma RecordBack(r: SkillRecord)
    requires RealFiles(r.files)
    ensures LoadRecord(RenderRecord(r).fields) == r
  {
    var entry := RenderRecord(r).fields;
    assert entry[1..][0].0 == "files";
    assert "sha256" != "files" by { assert |"sha256"| != |"files"|; }
    assert Get(entry, "files") == Get(entry[1..], "files") == entry[1].1;
    StringsBack(r.sha256);
    FilesBack(SkillRecord(r.sha256, map[]), r.files, Sorted(r.files.Keys));
    assert Restrict(r.files, Sorted(r.files.Keys)) == r.files;
  }

  lemma {:induction false} SkillsBack(m: Manifest, names: seq<string>)
    requires OnlyRealOids(m) && forall x :: x in names ==> x in m
    ensures LoadSkills(RenderSkills(m, names)) == Restrict(m, names)
  {
    hide LoadRecord, RealFiles;
    if names == [] {
      assert RenderSkills(m, names) == [] && Restrict(m, names) == map[];
    } else {
      var n := |names| - 1;
      var x := names[n];
      assert names == names[..n] + [x];
      SkillsBack(m, names[..n]);
      RecordBack(m[x]);
      assert RenderSkills(m, names)[..n] == RenderSkills(m, names[..n]);
      assert Restrict(m, names[..n])[x := m[x]] == Restrict(m, names);
    }
  }

  lemma HeaderFields(m: Manifest, at: string)
    ensures var f := Render(m, at).fields;
            && Get(f, "schema") == Str(SCHEMA) && Get(f, "skills") == Dict(RenderSkills(m, Sorted(m.Keys)))
            && Set(f, "generated_at", Str("")) == Render(m, "").fields
  {
    var f := Render(m, at).fields;
    KeysDiffer();
    hide RenderSkills, RenderRecord;
    assert f[1..][1..][0] == f[2] && f[1..][0] == f[1];
    assert Get(f, "skills") == Get(f[1..], "skills") == Get(f[1..][1..], "skills") == f[2].1;
    assert Set(f, "generated_at", Str("")) == [f[0]] + Set(f[1..], "generated_at", Str(""));
    assert Set(f[1..], "generated_at", Str("")) == [("generated_at", Str(""))] + f[1..][1..];
  }

  lemma KeysDiffer()
    ensures "schema" != "skills" && "generated_at" != "skills" && "schema" != "generated_at"
  {
    assert "schema"[1] != "skills"[1];
    assert |"generated_at"| != |"skills"|;
  }

  /** Loading a rendered manifest gives back the same records. */
  lemma LoadInvertsRender(m: Manifest, generatedAt: string)
    requires OnlyRealOids(m)
    ensures Load(Some(Render(m, generatedAt))) == m
  {
    HeaderFields(m, generatedAt);
    SkillsBack(m, Sorted(m.Keys));
    hide RenderSkills, LoadSkills;
    assert Restrict(m, Sorted(m.Keys)) == m;
  }

  // ---- the loader yields real ids only ----

  predicate RealFiles(files: map<string, set<string>>) {
    forall rel :: rel in files ==> Real(files[rel]) == files[rel]
  }

  lemma RealUnion(x: set<string>, y: set<string>)
    ensures Real(x + y) == Real(x) + Real(y) && Real(Real(x)) == Real(x) && Real({}) == {}
  {
  }

  lemma AddFileReal(r: SkillRecord, rel: string, oids: set<string>)
    requires RealFiles(r.files)
    ensures RealFiles(AddFile(r, rel, oids).files)
  {
    RealUnion(FilesAt(r.files, rel), Real(oids));
    RealUnion(oids, {});
    hide Real;
  }

  lemma {:induction false} LoadedFilesReal(r: SkillRecord, fields: Fields)
    requires RealFiles(r.files)
    ensures RealFiles(LoadFiles(r, fields).files)
  {
    if fields != [] {
      var n := |fields| - 1;
      LoadedFilesReal(r, fields[..n]);
      AddFileReal(LoadFiles(r, fields[..n]), fields[n].0, StringSet(fields[n].1));
    }
  }

  lemma LoadedRecordReal(entry: Fields)
    ensures RealFiles(LoadRecord(entry).files)
  {
    if Get(entry, "files").Dict? {
      LoadedFilesReal(SkillRecord(StringSet(Get(entry, "sha256")), map[]), Get(entry, "files").fields);
    }
  }

  lemma {:induction false} LoadedSkillsReal(fields: Fields)
    ensures OnlyRealOids(LoadSkills(fields))
  {
    if fields != [] {
      var n := |fields| - 1;
      LoadedSkillsReal(fields[..n]);
      if fields[n].1.Dict? {
        LoadedRecordReal(fields[n].1.fields);
      }
      hide LoadRecord, Real;
    }
  }

  lemma LoadedReal(doc: Option<Json>)
    ensures OnlyRealOids(Load(doc))
  {
    if doc.Some? && doc.value.Dict? && Get(doc.value.fields, "skills").Dict? {
      LoadedSkillsReal(Get(doc.value.fields, "skills").fields);
    }
  }

  // ---- build ----

  /** What the repository shows, with the ids that add_file would refuse left out. */
  function Shown(facts: Manifest): Manifest {
    map name | name in facts :: ShownRecord(facts[name])
  }

  function ShownRecord(r: SkillRecord): SkillRecord {
    SkillRecord(r.sha256, ShownFiles(r.files))
  }

  function ShownFiles(files: map<string, set<string>>): map<string, set<string>> {
    map rel | rel in files :: Real(files[rel])
  }

  function Build(doc: Option<Json>, facts: Manifest): Manifest {
    Join(Load(doc), Shown(facts))
  }

  lemma BuildReal(doc: Option<Json>, facts: Manifest)
    ensures OnlyRealOids(Build(doc, facts))
  {
    LoadedReal(doc);
    assert forall oids: set<string> :: Real(Real(oids)) == Real(oids);
    assert forall x: set<string>, y: set<string> :: Real(x + y) == Real(x) + Real(y);
    hide Load, Real;
  }

  /** A regeneration never drops an entry, and records everything it is shown. */
  lemma BuildOnlyAdds(doc: Option<Json>, facts: Manifest)
    ensures Within(Load(doc), Build(doc, facts)) && Within(Shown(facts), Build(doc, facts))
  {
    JoinIdempotent(Load(doc), Shown(facts));
    JoinIdempotent(Shown(facts), Load(doc));
  }

  /** Regenerating from one's own output renders the same document again. */
  lemma BuildIsIdempotent(doc: Option<Json>, facts: Manifest, at: string)
    ensures Build(Some(Render(Build(doc, facts), at)), facts) == Build(doc, facts)
  {
    BuildReal(doc, facts);
    LoadInvertsRender(Build(doc, facts), at);
    JoinIdempotent(Load(doc), Shown(facts));
    hide Join, Load, Shown, Render;
  }

  // ---- --check ----

  /** _without_timestamp */
  function Neutral(doc: Json): Json {
    if doc.Dict? then Dict(Set(doc.fields, "generated_at", Str(""))) else doc
  }

  /** The comparison of --check: an unreadable file fails it. */
  ghost predicate CheckPasses(doc: Option<Json>, facts: Manifest, at: string) {
    doc.Some? && Neutral(doc.value) == Neutral(Render(Build(doc, facts), at))
  }

  lemma NeutralRender(m: Manifest, at: string)
    ensures Neutral(Render(m, at)) == Render(m, "")
  {
    HeaderFields(m, at);
  }

  lemma NeutralLoads(doc: Json)
    ensures Load(Some(Neutral(doc))) == Load(Some(doc))
  {
    if doc.Dict? {
      KeysDiffer();
      SetElsewhere(doc.fields, "generated_at", Str(""), "schema");
      SetElsewhere(doc.fields, "generated_at", Str(""), "skills");
    }
  }

  /** The check passes right after a write, whatever the day. */
  lemma CheckAfterWrite(doc: Option<Json>, facts: Manifest, wrote: string, checked: string)
    ensures CheckPasses(Some(Render(Build(doc, facts), wrote)), facts, checked)
  {
    BuildIsIdempotent(doc, facts, wrote);
    NeutralRender(Build(doc, facts), wrote);
    NeutralRender(Build(doc, facts), checked);
  }

  /** The check passes exactly for a document in canonical form that already
      holds everything the repository shows. */
  lemma CheckMeans(doc: Json, facts: Manifest, at: string)
    ensures CheckPasses(Some(doc), facts, at)
            <==> Neutral(doc) == Render(Load(Some(doc)), "") && Within(Shown(facts), Load(Some(doc)))
  {
    var m, b := Load(Some(doc)), Build(Some(doc), facts);
    NeutralRender(b, at);
    NeutralLoads(doc);
    BuildReal(Some(doc), facts);
    LoadInvertsRender(b, "");
    BuildOnlyAdds(Some(doc), facts);
    JoinContains(Shown(facts), m);
    JoinCommutes(m, Shown(facts));
    hide Join, Load, Shown, Render, Neutral, Within;
  }

  // ---- the loops ----

  method LoadManifest(doc: Option<Json>) returns (merged: Manifest)
    ensures merged == Load(doc)
  {
    if doc == Option.None || !doc.value.Dict? || Get(doc.value.fields, "schema") != Str(SCHEMA) { return map[]; }
    var skills := Get(doc.value.fields, "skills");
    if !skills.Dict? { return map[]; }
    hide LoadRecord;
    merged := map[];
    var i := 0;
    assert skills.fields[..0] == [];
    while i < |skills.fields|
      invariant i <= |skills.fields|
      invariant merged == LoadSkills(skills.fields[..i])
    {
      var (name, entry) := skills.fields[i];
      assert skills.fields[..i + 1][..i] == skills.fields[..i];
      if entry.Dict? {
        var record := LoadEntry(entry.fields);
        merged := merged[name := record];
      }
      i := i + 1;
    }
    assert skills.fields[..i] == skills.fields;
  }

  method LoadEntry(entry: Fields) returns (record: SkillRecord)
    ensures record == LoadRecord(entry)
  {
    record := SkillRecord(StringSet(Get(entry, "sha256")), map[]);
    var files := Get(entry, "files");
    if files.Dict? {
      ghost var start := record;
      var i := 0;
      assert files.fields[..0] == [];
      hide StringSet, AddFile;
      while i < |files.fields|
        invariant i <= |files.fields|
        invariant record == LoadFiles(start, files.fields[..i])
      {
        assert files.fields[..i + 1] == files.fields[..i] + [files.fields[i]];
        LoadFilesSnoc(start, files.fields[..i], files.fields[i]);
        record := AddFile(record, files.fields[i].0, StringSet(files.fields[i].1));
        i := i + 1;
      }
      assert files.fields[..i] == files.fields;
    }
  }

  method RenderManifest(m: Manifest, generatedAt: string) returns (doc: Json)
    ensures doc == Render(m, generatedAt)
  {
    var names := Sort(m.Keys);
    var skills: Fields := [];
    var i := 0;
    hide RenderRecord;
    while i < |names|
      invariant i <= |names|
      invariant skills == RenderSkills(m, names[..i])
    {
      assert names[i] in names;
      var entry := RenderEntry(m[names[i]]);
      skills := skills + [(names[i], entry)];
      i := i + 1;
    }
    assert names[..i] == names;
    doc := Dict([("schema", Str(SCHEMA)), ("generated_at", Str(generatedAt)), ("skills", Dict(skills))]);
  }

  method RenderEntry(r: SkillRecord) returns (entry: Json)
    ensures entry == RenderRecord(r)
  {
    var digests := Sort(r.sha256);
    var rels := Sort(r.files.Keys);
    var files: Fields := [];
    var i := 0;
    hide RenderStrings;
    while i < |rels|
      invariant i <= |rels|
      invariant files == RenderFiles(r.files, rels[..i])
    {
      assert rels[i] in rels;
      var oids := Sort(r.files[rels[i]]);
      assert rels[..i + 1] == rels[..i] + [rels[i]];
      RenderFilesSnoc(r.files, rels[..i], rels[i]);
      files := files + [(rels[i], RenderStrings(oids))];
      i := i + 1;
    }
    assert rels[..i] == rels;
    entry := Dict([("sha256", RenderStrings(digests)), ("files", Dict(files))]);
  }

  /** The records of the SKILL.md history: a blob without a known digest adds none. */
  function FromHistory(oids: map<string, set<string>>, digests: map<string, string>): Manifest {
    map name | name in oids ::
      SkillRecord(set o | o in oids[name] && o in digests && digests[o] != "" :: digests[o], map[])
  }

  function FromFiles(files: map<string, map<string, set<string>>>): Manifest {
    map name | name in files :: SkillRecord({}, files[name])
  }

  lemma ShownFilesAt(files: map<string, set<string>>, rel: string)
    ensures FilesAt(ShownFiles(files), rel) == Real(FilesAt(files, rel))
  {
    RealUnion({}, {});
  }

  lemma ShownFilesJoin(a: map<string, set<string>>, b: map<string, set<string>>)
    ensures ShownFiles(JoinFiles(a, b)) == JoinFiles(ShownFiles(a), ShownFiles(b))
  {
    hide FilesAt, Real;
    forall rel ensures FilesAt(ShownFiles(JoinFiles(a, b)), rel) == FilesAt(JoinFiles(ShownFiles(a), ShownFiles(b)), rel) {
      ShownFilesAt(JoinFiles(a, b), rel);
      ShownFilesAt(a, rel);
      ShownFilesAt(b, rel);
      FilesJoinAt(a, b, rel);
      FilesJoinAt(ShownFiles(a), ShownFiles(b), rel);
      RealUnion(FilesAt(a, rel), FilesAt(b, rel));
    }
    SameFiles(ShownFiles(JoinFiles(a, b)), JoinFiles(ShownFiles(a), ShownFiles(b)));
  }

  lemma ShownAt(m: Manifest, name: string)
    ensures RecordAt(Shown(m), name) == ShownRecord(RecordAt(m, name))
  {
    assert ShownFiles(map[]) == map[];
  }

  lemma ShownJoins(a: Manifest, b: Manifest)
    ensures Shown(Join(a, b)) == Join(Shown(a), Shown(b))
  {
    hide RecordAt, JoinFiles, ShownFiles;
    assert Shown(Join(a, b)).Keys == Join(Shown(a), Shown(b)).Keys;
    hide Shown, Join;
    forall name ensures RecordAt(Shown(Join(a, b)), name) == RecordAt(Join(Shown(a), Shown(b)), name) {
      ShownAt(Join(a, b), name);
      ShownAt(a, name);
      ShownAt(b, name);
      JoinAt(a, b, name);
      JoinAt(Shown(a), Shown(b), name);
      ShownFilesJoin(RecordAt(a, name).files, RecordAt(b, name).files);
    }
    SameManifest(Shown(Join(a, b)), Join(Shown(a), Shown(b)));
  }

  function Only<V>(m: map<string, V>, names: set<string>): map<string, V> {
    map x | x in m && x in names :: m[x]
  }

  lemma AddIsJoin(m: map<string, set<string>>, rel: string, oids: set<string>)
    ensures m[rel := FilesAt(m, rel) + oids] == JoinFiles(m, map[rel := oids])
  {
    var updated := m[rel := FilesAt(m, rel) + oids];
    forall x ensures FilesAt(updated, x) == FilesAt(JoinFiles(m, map[rel := oids]), x) {
      FilesJoinAt(m, map[rel := oids], x);
      hide JoinFiles;
      assert x != rel ==> FilesAt(m, x) + {} == FilesAt(m, x);
    }
    SameFiles(updated, JoinFiles(m, map[rel := oids]));
  }

  lemma OnlyFilesGrow(files: map<string, set<string>>, done: set<string>, rel: string)
    requires rel in files && rel !in done
    ensures ShownFiles(Only(files, done + {rel})) == JoinFiles(ShownFiles(Only(files, done)), map[rel := Real(files[rel])])
  {
    hide Real;
    var was, more := ShownFiles(Only(files, done)), ShownFiles(Only(files, done + {rel}));
    AddIsJoin(was, rel, Real(files[rel]));
    hide JoinFiles;
    assert {} + Real(files[rel]) == Real(files[rel]);
    assert was[rel := Real(files[rel])] == more;
  }

  /** The files merged so far, and one path more. */
  lemma FilesGrow(before: map<string, set<string>>, files: map<string, set<string>>, done: set<string>, rel: string)
    requires rel in files && rel !in done
    ensures var was := JoinFiles(before, ShownFiles(Only(files, done)));
            was[rel := FilesAt(was, rel) + Real(files[rel])] == JoinFiles(before, ShownFiles(Only(files, done + {rel})))
  {
    hide *;
    AddIsJoin(JoinFiles(before, ShownFiles(Only(files, done))), rel, Real(files[rel]));
    OnlyFilesGrow(files, done, rel);
    FilesAssociate(before, ShownFiles(Only(files, done)), map[rel := Real(files[rel])]);
  }

  lemma SetIsJoin(m: Manifest, name: string, r: SkillRecord)
    ensures m[name := JoinRecords(RecordAt(m, name), r)] == Join(m, map[name := r])
  {
    hide JoinRecords;
    forall x | x in m && x != name ensures JoinRecords(m[x], EMPTY) == m[x] {
      RecordLaws(m[x], EMPTY, EMPTY);
    }
  }

  lemma OnlyRecordsGrow(m: Manifest, done: set<string>, name: string)
    requires name in m && name !in done
    ensures Shown(Only(m, done + {name})) == Join(Shown(Only(m, done)), map[name := ShownRecord(m[name])])
  {
    hide ShownRecord, JoinRecords;
    var was, more := Shown(Only(m, done)), Shown(Only(m, done + {name}));
    SetIsJoin(was, name, ShownRecord(m[name]));
    RecordLaws(ShownRecord(m[name]), EMPTY, EMPTY);
    hide Join;
    assert was[name := ShownRecord(m[name])] == more;
  }

  lemma RecordsGrow(before: Manifest, additions: Manifest, done: set<string>, name: string)
    requires name in additions && name !in done
    ensures var was := Join(before, Shown(Only(additions, done)));
            was[name := JoinRecords(RecordAt(was, name), ShownRecord(additions[name]))]
            == Join(before, Shown(Only(additions, done + {name})))
  {
    hide *;
    SetIsJoin(Join(before, Shown(Only(additions, done))), name, ShownRecord(additions[name]));
    OnlyRecordsGrow(additions, done, name);
    JoinAssociates(before, Shown(Only(additions, done)), map[name := ShownRecord(additions[name])]);
  }

  /** for name, record in additions.items(): update, and add_file for each path */
  method MergeInto(before: Manifest, additions: Manifest) returns (merged: Manifest)
    ensures merged == Join(before, Shown(additions))
  {
    merged := before;
    var left := additions.Keys;
    MergedNone(before, additions);
    hide *;
    while left != {}
      invariant left <= additions.Keys
      invariant merged == Join(before, Shown(Only(additions, additions.Keys - left)))
      decreases |left|
    {
      var name :| name in left;
      var record := MergeRecord(RecordAt(merged, name), additions[name]);
      RecordsGrow(before, additions, additions.Keys - left, name);
      assert additions.Keys - (left - {name}) == additions.Keys - left + {name};
      merged := merged[name := record];
      left := left - {name};
    }
    OnlyAll(additions);
    assert additions.Keys - left == additions.Keys;
  }

  lemma OnlyAll<V>(m: map<string, V>)
    ensures Only(m, m.Keys) == m
  {
  }

  lemma MergedNone(before: Manifest, additions: Manifest)
    ensures Join(before, Shown(Only(additions, additions.Keys - additions.Keys))) == before
  {
    assert additions.Keys - additions.Keys == {} && Only(additions, {}) == map[] && Shown(map[]) == map[];
    JoinContains(map[], before);
    JoinCommutes(map[], before);
  }

  method MergeFiles(before: map<string, set<string>>, files: map<string, set<string>>, sha256: set<string>)
    returns (record: SkillRecord)
    ensures record == SkillRecord(sha256, JoinFiles(before, ShownFiles(files)))
  {
    record := SkillRecord(sha256, before);
    var left := files.Keys;
    FilesNone(before, files);
    hide *;
    while left != {}
      invariant left <= files.Keys
      invariant record == SkillRecord(sha256, JoinFiles(before, ShownFiles(Only(files, files.Keys - left))))
      decreases |left|
    {
      var rel :| rel in left;
      FilesGrow(before, files, files.Keys - left, rel);
      AddFileIs(record, rel, files[rel]);
      assert files.Keys - (left - {rel}) == files.Keys - left + {rel};
      record := AddFile(record, rel, files[rel]);
      left := left - {rel};
    }
    OnlyAll(files);
    assert files.Keys - left == files.Keys;
  }

  lemma AddFileIs(r: SkillRecord, rel: string, oids: set<string>)
    ensures AddFile(r, rel, oids) == SkillRecord(r.sha256, r.files[rel := FilesAt(r.files, rel) + Real(oids)])
  {
  }

  lemma FilesNone(before: map<string, set<string>>, files: map<string, set<string>>)
    ensures JoinFiles(before, ShownFiles(Only(files, files.Keys - files.Keys))) == before
  {
    assert files.Keys - files.Keys == {} && Only(files, {}) == map[] && ShownFiles(map[]) == map[];
    FilesUnit(before);
  }

  method MergeRecord(before: SkillRecord, addition: SkillRecord) returns (record: SkillRecord)
    ensures record == JoinRecords(before, ShownRecord(addition))
  {
    record := MergeFiles(before.files, addition.files, before.sha256 + addition.sha256);
  }

  /** build, over what Git and the working tree show. */
  method BuildManifest(doc: Option<Json>, oids: map<string, set<string>>, digests: map<string, string>,
                       history: map<string, map<string, set<string>>>, worktree: Manifest)
    returns (merged: Manifest)
    ensures merged == Build(doc, Join(FromHistory(oids, digests), Join(FromFiles(history), worktree)))
  {
    hide *;
    merged := LoadManifest(doc);
    ghost var start := merged;
    var a, b := FromHistory(oids, digests), FromFiles(history);
    merged := MergeInto(merged, a);
    merged := MergeInto(merged, b);
    merged := MergeInto(merged, worktree);
    ShownJoins(b, worktree);
    ShownJoins(a, Join(b, worktree));
    JoinAssociates(start, Shown(a), Shown(b));
    JoinAssociates(start, Join(Shown(a), Shown(b)), Shown(worktree));
    JoinAssociates(Shown(a), Shown(b), Shown(worktree));
    BuildIs(doc, Join(a, Join(b, worktree)));
  }

  lemma BuildIs(doc: Option<Json>, facts: Manifest)
    ensures Build(doc, facts) == Join(Load(doc), Shown(facts))
  {
  }
}
