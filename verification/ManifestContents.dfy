/** Which blob ids and digests a manifest holds: after loading a document, and
    after building from the repository. */
module ManifestContents {
  import opened Json
  import opened Ordering
  import opened Provenance
  import opened ProvenanceFile
  import opened Wrappers

  /** Forty characters, not all of them zeros. */
  ghost predicate Recordable(oid: string) { |oid| == 40 && exists i :: 0 <= i < 40 && oid[i] != '0' }

  lemma RealOidExactly(oid: string)
    ensures RealOid(oid) <==> Recordable(oid)
  {
    assert |NULL_OID| == 40;
    if |oid| == 40 && !Recordable(oid) {
      assert oid == NULL_OID;
    }
  }

  predicate HoldsDigest(m: Manifest, name: string, digest: string) { name in m && digest in m[name].sha256 }

  predicate HoldsId(m: Manifest, name: string, rel: string, oid: string) {
    name in m && rel in m[name].files && oid in m[name].files[rel]
  }

  predicate ListsString(j: Json, x: string) { j.List? && Str(x) in j.items }

  lemma ListsStringExactly(j: Json, x: string)
    ensures x in StringSet(j) <==> ListsString(j, x)
  {
  }

  // ---- a loaded document ----

  ghost predicate FieldLists(fields: Fields, key: string, x: string) {
    exists f :: f in fields && f.0 == key && ListsString(f.1, x)
  }

  lemma FieldListsNext(fields: Fields, key: string, x: string)
    requires fields != []
    ensures var n := |fields| - 1;
            FieldLists(fields, key, x) <==> FieldLists(fields[..n], key, x) || (fields[n].0 == key && ListsString(fields[n].1, x))
  {
    hide ListsString;
    var n := |fields| - 1;
    assert fields == fields[..n] + [fields[n]];
  }

  lemma {:induction false} LoadedIds(r: SkillRecord, fields: Fields, rel: string, oid: string)
    ensures oid in FilesAt(LoadFiles(r, fields).files, rel)
            <==> oid in FilesAt(r.files, rel) || (Recordable(oid) && FieldLists(fields, rel, oid))
    ensures LoadFiles(r, fields).sha256 == r.sha256
  {
    if fields != [] {
      var n := |fields| - 1;
      LoadedIds(r, fields[..n], rel, oid);
      FieldListsNext(fields, rel, oid);
      ListsStringExactly(fields[n].1, oid);
      RealOidExactly(oid);
      hide Recordable, RealOid, ListsString, FieldLists, StringSet;
    }
  }

  lemma RecordLoads(entry: Fields, rel: string, oid: string, digest: string)
    ensures digest in LoadRecord(entry).sha256 <==> ListsString(Get(entry, "sha256"), digest)
    ensures oid in FilesAt(LoadRecord(entry).files, rel)
            <==> Recordable(oid) && Get(entry, "files").Dict? && FieldLists(Get(entry, "files").fields, rel, oid)
  {
    var r := SkillRecord(StringSet(Get(entry, "sha256")), map[]);
    ListsStringExactly(Get(entry, "sha256"), digest);
    if Get(entry, "files").Dict? {
      LoadedIds(r, Get(entry, "files").fields, rel, oid);
    }
    hide LoadFiles, Recordable, FieldLists, ListsString, StringSet;
  }

  /** The keys of one object differ. */
  ghost predicate DistinctKeys(fields: Fields) {
    forall i, j :: 0 <= i < j < |fields| ==> fields[i].0 != fields[j].0
  }

  lemma {:induction false} SkillsLoad(fields: Fields, name: string)
    requires DistinctKeys(fields)
    ensures name in LoadSkills(fields) <==> exists entry :: (name, Dict(entry)) in fields
    ensures forall entry :: (name, Dict(entry)) in fields ==> name in LoadSkills(fields) && LoadSkills(fields)[name] == LoadRecord(entry)
  {
    if fields != [] {
      var n := |fields| - 1;
      SkillsLoad(fields[..n], name);
      hide LoadRecord;
      assert fields == fields[..n] + [fields[n]];
      forall entry | (name, Dict(entry)) in fields
        ensures name in LoadSkills(fields) && LoadSkills(fields)[name] == LoadRecord(entry)
      {
        if fields[n] == (name, Dict(entry)) {
        } else {
          assert (name, Dict(entry)) in fields[..n];
        }
      }
      if name in LoadSkills(fields) {
        if fields[n].0 == name && fields[n].1.Dict? {
          assert (name, Dict(fields[n].1.fields)) in fields;
        } else {
          var entry :| (name, Dict(entry)) in fields[..n];
          assert (name, Dict(entry)) in fields;
        }
      }
    }
  }

  /** A document of the third schema, and no other, is loaded: each skill that is an
      object, its digests, and its well-formed ids. */
  lemma LoadedExactly(doc: Fields, skills: Fields, name: string, rel: string, oid: string, digest: string)
    requires Get(doc, "schema") == Str("vibecrafted.skill-provenance.v3") && Get(doc, "skills") == Dict(skills) && DistinctKeys(skills)
    ensures var m := Load(Some(Dict(doc)));
            && (name in m <==> exists entry :: (name, Dict(entry)) in skills)
            && forall entry :: (name, Dict(entry)) in skills ==>
                 && (HoldsDigest(m, name, digest) <==> ListsString(Get(entry, "sha256"), digest))
                 && (HoldsId(m, name, rel, oid) <==>
                       Recordable(oid) && Get(entry, "files").Dict? && FieldLists(Get(entry, "files").fields, rel, oid))
  {
    var m := Load(Some(Dict(doc)));
    assert m == LoadSkills(skills);
    SkillsLoad(skills, name);
    hide Load, LoadSkills, LoadRecord, Recordable, FieldLists, ListsString;
    forall entry | (name, Dict(entry)) in skills
      ensures HoldsDigest(m, name, digest) <==> ListsString(Get(entry, "sha256"), digest)
      ensures HoldsId(m, name, rel, oid) <==>
                Recordable(oid) && Get(entry, "files").Dict? && FieldLists(Get(entry, "files").fields, rel, oid)
    {
      RecordLoads(entry, rel, oid, digest);
    }
  }

  lemma OtherSchemaIsDropped(doc: Option<Json>)
    requires doc == Option.None || !doc.value.Dict? || Get(doc.value.fields, "schema") != Str("vibecrafted.skill-provenance.v3")
    ensures Load(doc) == map[]
  {
  }

  // ---- a build ----

  lemma JoinHolds(a: Manifest, b: Manifest, name: string, rel: string, oid: string, digest: string)
    ensures HoldsDigest(Join(a, b), name, digest) <==> HoldsDigest(a, name, digest) || HoldsDigest(b, name, digest)
    ensures HoldsId(Join(a, b), name, rel, oid) <==> HoldsId(a, name, rel, oid) || HoldsId(b, name, rel, oid)
  {
    var c := Join(a, b);
    if name in c {
      assert c[name] == JoinRecords(RecordAt(a, name), RecordAt(b, name));
      FilesJoinAt(RecordAt(a, name).files, RecordAt(b, name).files, rel);
      hide Join, JoinFiles;
    }
  }

  lemma ShownHolds(m: Manifest, name: string, rel: string, oid: string, digest: string)
    ensures HoldsDigest(Shown(m), name, digest) <==> HoldsDigest(m, name, digest)
    ensures HoldsId(Shown(m), name, rel, oid) <==> HoldsId(m, name, rel, oid) && Recordable(oid)
  {
    RealOidExactly(oid);
    hide Recordable, RealOid;
  }

  /** What is built holds a digest exactly if it was in the old manifest, is that of a
      SKILL.md blob in the history, or of one in the working tree; and a blob id
      exactly if it was in the old manifest, or is well-formed and belongs to the
      path in the history or in the working tree. */
  lemma BuildHoldsExactly(doc: Option<Json>, oids: map<string, set<string>>, digests: map<string, string>,
                          history: map<string, map<string, set<string>>>, worktree: Manifest,
                          name: string, rel: string, oid: string, digest: string)
    ensures var m := Build(doc, Join(FromHistory(oids, digests), Join(FromFiles(history), worktree)));
            && (HoldsDigest(m, name, digest) <==>
                  || HoldsDigest(Load(doc), name, digest)
                  || (name in oids && digest != "" && exists o :: o in oids[name] && o in digests && digests[o] == digest)
                  || HoldsDigest(worktree, name, digest))
            && (HoldsId(m, name, rel, oid) <==>
                  || HoldsId(Load(doc), name, rel, oid)
                  || (Recordable(oid) && name in history && rel in history[name] && oid in history[name][rel])
                  || (Recordable(oid) && HoldsId(worktree, name, rel, oid)))
  {
    var a, b := FromHistory(oids, digests), FromFiles(history);
    var facts := Join(a, Join(b, worktree));
    JoinHolds(b, worktree, name, rel, oid, digest);
    JoinHolds(a, Join(b, worktree), name, rel, oid, digest);
    ShownHolds(facts, name, rel, oid, digest);
    JoinHolds(Load(doc), Shown(facts), name, rel, oid, digest);
    HistoryHolds(oids, digests, name, rel, oid, digest);
    FilesHold(history, name, rel, oid, digest);
    hide FromHistory, FromFiles, Join, Shown, Load, Recordable, HoldsDigest, HoldsId;
  }

  lemma HistoryHolds(oids: map<string, set<string>>, digests: map<string, string>, name: string, rel: string, oid: string, digest: string)
    ensures HoldsDigest(FromHistory(oids, digests), name, digest)
            <==> name in oids && digest != "" && exists o :: o in oids[name] && o in digests && digests[o] == digest
    ensures !HoldsId(FromHistory(oids, digests), name, rel, oid)
  {
  }

  lemma FilesHold(history: map<string, map<string, set<string>>>, name: string, rel: string, oid: string, digest: string)
    ensures !HoldsDigest(FromFiles(history), name, digest)
    ensures HoldsId(FromFiles(history), name, rel, oid) <==> name in history && rel in history[name] && oid in history[name][rel]
  {
  }

  // ---- a rendered document ----

  /** Keys in increasing order. */
  ghost predicate KeysIncrease(fields: Fields) {
    forall i, j :: 0 <= i < j < |fields| ==> Less(fields[i].0, fields[j].0)
  }

  ghost predicate ListIncreases(j: Json) {
    j.List? && (forall x :: x in j.items ==> x.Str?)
    && forall i, k :: 0 <= i < k < |j.items| ==> j.items[i].Str? && j.items[k].Str? && Less(j.items[i].s, j.items[k].s)
  }

  ghost predicate EntryInOrder(entry: Json) {
    && entry.Dict? && |entry.fields| == 2 && entry.fields[0].0 == "sha256" && entry.fields[1].0 == "files"
    && ListIncreases(entry.fields[0].1)
    && entry.fields[1].1.Dict? && KeysIncrease(entry.fields[1].1.fields)
    && forall f :: f in entry.fields[1].1.fields ==> ListIncreases(f.1)
  }

  lemma StringsInOrder(s: set<string>)
    ensures ListIncreases(RenderStrings(Sorted(s)))
  {
    hide Less;
  }

  lemma EntryRendered(r: SkillRecord)
    ensures EntryInOrder(RenderRecord(r))
  {
    StringsInOrder(r.sha256);
    var names := Sorted(r.files.Keys);
    assert forall x :: x in names ==> x in r.files;
    var fields := RenderFiles(r.files, names);
    hide Less, ListIncreases;
    forall f | f in fields ensures ListIncreases(f.1) {
      var i :| 0 <= i < |fields| && fields[i] == f;
      StringsInOrder(r.files[names[i]]);
    }
  }

  /** A document is the schema, the date and the skills, in this order; skills, paths
      and lists are in increasing order. */
  lemma RenderedInOrder(m: Manifest, at: string)
    ensures var doc := Render(m, at);
            && doc.Dict? && |doc.fields| == 3
            && doc.fields[0] == ("schema", Str("vibecrafted.skill-provenance.v3"))
            && doc.fields[1] == ("generated_at", Str(at))
            && doc.fields[2].0 == "skills" && doc.fields[2].1.Dict? && KeysIncrease(doc.fields[2].1.fields)
            && forall f :: f in doc.fields[2].1.fields ==> EntryInOrder(f.1)
  {
    var names := Sorted(m.Keys);
    assert forall x :: x in names ==> x in m;
    var fields := RenderSkills(m, names);
    hide EntryInOrder, RenderRecord, Less;
    forall f | f in fields ensures EntryInOrder(f.1) {
      var i :| 0 <= i < |fields| && fields[i] == f;
      EntryRendered(m[names[i]]);
    }
  }
}
