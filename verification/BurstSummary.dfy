/** What the one line of a burst says, read off the calls themselves. */
module BurstSummary {
  import opened ToolBurst
  import opened Wrappers

  /** The places that bear the value x. */
  function Places(keys: seq<Option<string>>, x: string): set<int> {
    set i | 0 <= i < |keys| && keys[i] == Some(x)
  }

  /** The values in order, with their places forgotten. */
  function Values(keys: seq<Option<string>>): seq<string> {
    if keys == [] then []
    else
      var n := |keys| - 1;
      Values(keys[..n]) + (if keys[n].Some? then [keys[n].value] else [])
  }

  predicate Seen(keys: seq<Option<string>>, x: string, before: int) {
    exists i :: 0 <= i < before <= |keys| && keys[i] == Some(x)
  }

  /** d lists each value once, and each only after those that appeared before it. */
  ghost predicate InOrderOfAppearance(d: seq<string>, keys: seq<Option<string>>) {
    && NoRepeats(d)
    && (forall x :: x in d <==> Seen(keys, x, |keys|))
    && (forall a, b, j :: 0 <= a < b < |d| && 0 <= j < |keys| && keys[j] == Some(d[b]) ==> Seen(keys, d[a], j))
  }

  lemma {:induction false} ValuesSeen(keys: seq<Option<string>>, x: string)
    ensures x in Values(keys) <==> Seen(keys, x, |keys|)
  {
    if keys != [] {
      var n := |keys| - 1;
      ValuesSeen(keys[..n], x);
      SeenLater(keys, x, n, n);
      SeenNow(keys, x);
    }
  }

  lemma SeenLater(keys: seq<Option<string>>, x: string, before: nat, n: nat)
    requires before <= n <= |keys|
    ensures Seen(keys[..n], x, before) <==> Seen(keys, x, before)
  {
    if Seen(keys, x, before) {
      var i :| 0 <= i < before && keys[i] == Some(x);
      assert keys[..n][i] == Some(x);
    }
  }

  lemma SeenNow(keys: seq<Option<string>>, x: string)
    requires keys != []
    ensures Seen(keys, x, |keys|) <==> Seen(keys, x, |keys| - 1) || keys[|keys| - 1] == Some(x)
  {
  }

  lemma {:induction false} DistinctInOrder(keys: seq<Option<string>>)
    ensures InOrderOfAppearance(Distinct(Values(keys)), keys)
  {
    DistinctValues(Values(keys));
    forall x ensures x in Distinct(Values(keys)) <==> Seen(keys, x, |keys|) {
      ValuesSeen(keys, x);
    }
    var d := Distinct(Values(keys));
    forall a, b, j | 0 <= a < b < |d| && 0 <= j < |keys| && keys[j] == Some(d[b]) ensures Seen(keys, d[a], j) {
      EarlierSeen(keys, a, b, j);
    }
  }

  lemma {:induction false} EarlierSeen(keys: seq<Option<string>>, a: nat, b: nat, j: nat)
    requires a < b < |Distinct(Values(keys))| && j < |keys| && keys[j] == Some(Distinct(Values(keys))[b])
    ensures Seen(keys, Distinct(Values(keys))[a], j)
  {
    var n := |keys| - 1;
    var before, d := Distinct(Values(keys[..n])), Distinct(Values(keys));
    GrowsByOne(keys);
    DistinctValues(Values(keys[..n]));
    hide Distinct, Values, Seen, NoRepeats;
    if b < |before| && j < n {
      EarlierSeen(keys[..n], a, b, j);
      SeenLater(keys, d[a], j, n);
    } else if j < n {
      ValuesSeen(keys[..n], d[b]);
      SeenIs(keys[..n], d[b], j);
      assert false;
    } else {
      ValuesSeen(keys[..n], d[a]);
      SeenLater(keys, d[a], n, n);
    }
  }

  lemma SeenIs(keys: seq<Option<string>>, x: string, j: nat)
    requires j < |keys| && keys[j] == Some(x)
    ensures Seen(keys, x, |keys|)
  {
  }

  lemma GrowsByOne(keys: seq<Option<string>>)
    requires keys != []
    ensures var n, before := |keys| - 1, Distinct(Values(keys[..|keys| - 1]));
            Distinct(Values(keys)) == before
            || (keys[n].Some? && keys[n].value !in before && Distinct(Values(keys)) == before + [keys[n].value])
  {
    var n := |keys| - 1;
    if keys[n].Some? {
      assert Values(keys)[..|Values(keys)| - 1] == Values(keys[..n]);
    } else {
      assert Values(keys) == Values(keys[..n]);
    }
  }

  lemma {:induction false} CountIsPlaces(keys: seq<Option<string>>, x: string)
    ensures CountOf(Values(keys), x) == |Places(keys, x)|
  {
    if keys == [] {
      assert Places(keys, x) == {};
    } else {
      var n := |keys| - 1;
      CountIsPlaces(keys[..n], x);
      assert Places(keys, x) == Places(keys[..n], x) + (if keys[n] == Some(x) then {n} else {});
      if keys[n].Some? {
        assert Values(keys)[..|Values(keys)| - 1] == Values(keys[..n]);
      } else {
        assert Values(keys) == Values(keys[..n]);
      }
    }
  }

  // ---- the keys of a burst ----

  function NameKeys(notes: seq<ToolNote>): (keys: seq<Option<string>>)
    ensures |keys| == |notes| && forall i :: 0 <= i < |notes| ==> keys[i] == Some(notes[i].name)
  {
    seq(|notes|, i requires 0 <= i < |notes| => Some(notes[i].name))
  }

  /** The command heads of the calls of one tool; a call without a head has none. */
  function HeadKeys(notes: seq<ToolNote>, name: string, headOf: string -> string): (keys: seq<Option<string>>)
    ensures |keys| == |notes|
    ensures forall i :: 0 <= i < |notes| ==>
              keys[i] == if notes[i].name == name && headOf(notes[i].detail) != "" then Some(headOf(notes[i].detail))
                         else Option.None
  {
    seq(|notes|, i requires 0 <= i < |notes| =>
          if notes[i].name == name && headOf(notes[i].detail) != "" then Some(headOf(notes[i].detail)) else Option.None)
  }

  lemma {:induction false} NamesAreValues(notes: seq<ToolNote>)
    ensures Values(NameKeys(notes)) == NameList(notes)
  {
    if notes != [] {
      var n := |notes| - 1;
      NamesAreValues(notes[..n]);
      assert NameKeys(notes)[..n] == NameKeys(notes[..n]);
      assert NameList(notes) == NameList(notes[..n]) + [notes[n].name];
    }
  }

  lemma {:induction false} HeadsAreValues(notes: seq<ToolNote>, name: string, headOf: string -> string)
    ensures Values(HeadKeys(notes, name, headOf)) == HeadList(Group(notes, name), headOf)
  {
    if notes != [] {
      var n := |notes| - 1;
      HeadsAreValues(notes[..n], name, headOf);
      assert HeadKeys(notes, name, headOf)[..n] == HeadKeys(notes[..n], name, headOf);
      var group := Group(notes[..n], name);
      if notes[n].name == name {
        assert (group + [notes[n]])[..|group|] == group;
      } else {
        assert Group(notes, name) == group;
      }
    }
  }

  // ---- the line ----

  /** Names or heads with their numbers of places, in order of appearance. */
  ghost predicate Tallies(counts: seq<(string, nat)>, keys: seq<Option<string>>) {
    && InOrderOfAppearance(seq(|counts|, i requires 0 <= i < |counts| => counts[i].0), keys)
    && forall i :: 0 <= i < |counts| ==> counts[i].1 == |Places(keys, counts[i].0)|
  }

  lemma CountedTallies(keys: seq<Option<string>>)
    ensures Tallies(Counted(Distinct(Values(keys)), Values(keys)), keys)
  {
    var d := Distinct(Values(keys));
    var counts := Counted(d, Values(keys));
    DistinctInOrder(keys);
    assert seq(|counts|, i requires 0 <= i < |counts| => counts[i].0) == d;
    forall i | 0 <= i < |counts| ensures counts[i].1 == |Places(keys, counts[i].0)| {
      CountIsPlaces(keys, d[i]);
    }
  }

  /** The summary of two calls or more names the first stamp and the last, and tells
      of each tool, in order of appearance, its number of calls and its command
      heads, these with their numbers and in order of appearance too. */
  lemma SummaryExactly(notes: seq<ToolNote>, headOf: string -> string)
    requires |notes| >= 2
    ensures var r := Rendered(notes, headOf);
            && r.Summary? && r.first == notes[0].stamp && r.last == notes[|notes| - 1].stamp
            && Tallies(seq(|r.parts|, i requires 0 <= i < |r.parts| => (r.parts[i].name, r.parts[i].count)), NameKeys(notes))
            && forall p :: p in r.parts ==> Tallies(p.heads, HeadKeys(notes, p.name, headOf))
  {
    var d := Distinct(NameList(notes));
    var parts := PartsOf(notes, d, headOf);
    NamesAreValues(notes);
    CountedTallies(NameKeys(notes));
    forall i | 0 <= i < |d|
      ensures parts[i].count == CountOf(NameList(notes), d[i]) && Tallies(parts[i].heads, HeadKeys(notes, d[i], headOf))
    {
      GroupSize(notes, d[i]);
      HeadsAreValues(notes, d[i], headOf);
      CountedTallies(HeadKeys(notes, d[i], headOf));
      hide Tallies;
    }
    hide Tallies;
    assert seq(|parts|, i requires 0 <= i < |parts| => (parts[i].name, parts[i].count)) == Counted(d, NameList(notes));
  }

  /** A single call is shown as it is, and no call as nothing. */
  lemma FewCallsShown(notes: seq<ToolNote>, headOf: string -> string)
    ensures |notes| == 1 ==> Rendered(notes, headOf) == Single(notes[0])
    ensures notes == [] <==> Rendered(notes, headOf) == Nothing
  {
  }
}
