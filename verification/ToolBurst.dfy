/** One burst of tool calls and its one-line summary. */
module ToolBurst {
  /** A held tool call: when, which tool, on what. */
  datatype ToolNote = ToolNote(stamp: string, name: string, detail: string)

  /** `12x Bash: grep 8, loct 2` is Part(12, "Bash", [("grep", 8), ("loct", 2)]). */
  datatype Part = Part(count: nat, name: string, heads: seq<(string, nat)>)

  datatype Rendering =
    | Nothing
    | Single(note: ToolNote)
    | Summary(first: string, last: string, parts: seq<Part>)

  // ---- distinct values in order of first appearance, and their counts ----

  function Distinct(s: seq<string>): seq<string> {
    if s == [] then []
    else
      var before, x := Distinct(s[..|s| - 1]), s[|s| - 1];
      if x in before then before else before + [x]
  }

  ghost predicate NoRepeats(d: seq<string>) {
    forall i, j :: 0 <= i < j < |d| ==> d[i] != d[j]
  }

  lemma {:induction false} DistinctValues(s: seq<string>)
    ensures forall x :: x in Distinct(s) <==> x in s
    ensures NoRepeats(Distinct(s))
  {
    if s != [] {
      DistinctValues(s[..|s| - 1]);
      assert s == s[..|s| - 1] + [s[|s| - 1]];
    }
  }

  function CountOf(s: seq<string>, x: string): nat {
    if s == [] then 0 else CountOf(s[..|s| - 1], x) + (if s[|s| - 1] == x then 1 else 0)
  }

  function Counted(d: seq<string>, s: seq<string>): (c: seq<(string, nat)>)
    ensures |c| == |d| && forall i :: 0 <= i < |d| ==> c[i] == (d[i], CountOf(s, d[i]))
  {
    seq(|d|, i requires 0 <= i < |d| => (d[i], CountOf(s, d[i])))
  }

  function Total(counts: seq<(string, nat)>): nat {
    if counts == [] then 0 else Total(counts[..|counts| - 1]) + counts[|counts| - 1].1
  }

  lemma {:induction false} NotCounted(s: seq<string>, x: string)
    requires x !in s
    ensures CountOf(s, x) == 0
  {
    if s != [] {
      NotCounted(s[..|s| - 1], x);
    }
  }

  /** One more value raises the total by one for each of its places in d. */
  lemma {:induction false} TotalGrows(d: seq<string>, s: seq<string>, x: string)
    ensures Total(Counted(d, s + [x])) == Total(Counted(d, s)) + CountOf(d, x)
  {
    if d != [] {
      var n := |d| - 1;
      TotalGrows(d[..n], s, x);
      assert Counted(d, s)[..n] == Counted(d[..n], s);
      assert Counted(d, s + [x])[..n] == Counted(d[..n], s + [x]);
      assert (s + [x])[..|s|] == s;
    }
  }

  lemma {:induction false} CountedOnce(d: seq<string>, x: string)
    requires x in d && NoRepeats(d)
    ensures CountOf(d, x) == 1
  {
    var n := |d| - 1;
    if d[n] == x {
      NotCounted(d[..n], x);
    } else {
      CountedOnce(d[..n], x);
    }
  }

  /** Counting by distinct value counts every element once. */
  lemma {:induction false} CountsAddUp(s: seq<string>)
    ensures Total(Counted(Distinct(s), s)) == |s|
  {
    if s != [] {
      var before, x := s[..|s| - 1], s[|s| - 1];
      CountsAddUp(before);
      assert s == before + [x];
      var d := Distinct(before);
      DistinctValues(before);
      TotalGrows(d, before, x);
      if x in d {
        CountedOnce(d, x);
      } else {
        NotCounted(d, x);
        assert Counted(d + [x], s)[..|d|] == Counted(d, s);
        NotCounted(before, x);
        assert s[..|s| - 1] == before;
      }
    }
  }

  // ---- the summary ----

  function NameList(notes: seq<ToolNote>): (names: seq<string>)
    ensures |names| == |notes| && forall i :: 0 <= i < |notes| ==> names[i] == notes[i].name
  {
    seq(|notes|, i requires 0 <= i < |notes| => notes[i].name)
  }

  function Group(notes: seq<ToolNote>, name: string): seq<ToolNote> {
    if notes == [] then []
    else
      var n := |notes| - 1;
      Group(notes[..n], name) + (if notes[n].name == name then [notes[n]] else [])
  }

  /** The command heads of a group; a detail without a head adds none. */
  function HeadList(notes: seq<ToolNote>, headOf: string -> string): seq<string> {
    if notes == [] then []
    else
      var n := |notes| - 1;
      HeadList(notes[..n], headOf) + (if headOf(notes[n].detail) != "" then [headOf(notes[n].detail)] else [])
  }

  function PartOf(notes: seq<ToolNote>, name: string, headOf: string -> string): Part {
    var group := Group(notes, name);
    var heads := HeadList(group, headOf);
    Part(|group|, name, Counted(Distinct(heads), heads))
  }

  function PartsOf(notes: seq<ToolNote>, names: seq<string>, headOf: string -> string): seq<Part> {
    seq(|names|, i requires 0 <= i < |names| => PartOf(notes, names[i], headOf))
  }

  function Rendered(notes: seq<ToolNote>, headOf: string -> string): Rendering {
    if notes == [] then Nothing
    else if |notes| == 1 then Single(notes[0])
    else Summary(notes[0].stamp, notes[|notes| - 1].stamp, PartsOf(notes, Distinct(NameList(notes)), headOf))
  }

  /** What a reader adds up from the rendered line. */
  function CallsShown(r: Rendering): nat {
    match r
    case Nothing => 0
    case Single(_) => 1
    case Summary(_, _, parts) => Total(seq(|parts|, i requires 0 <= i < |parts| => (parts[i].name, parts[i].count)))
  }

  lemma {:induction false} GroupSize(notes: seq<ToolNote>, name: string)
    ensures |Group(notes, name)| == CountOf(NameList(notes), name)
  {
    if notes != [] {
      GroupSize(notes[..|notes| - 1], name);
      assert NameList(notes)[..|notes| - 1] == NameList(notes[..|notes| - 1]);
    }
  }

  /** No call is lost in the summary: the Nx counts add up to the calls, and the
      heads of each part to the calls of that tool that have one. */
  lemma CallsAddUp(notes: seq<ToolNote>, headOf: string -> string)
    ensures CallsShown(Rendered(notes, headOf)) == |notes|
    ensures forall p :: Rendered(notes, headOf).Summary? && p in Rendered(notes, headOf).parts ==>
              Total(p.heads) == |HeadList(Group(notes, p.name), headOf)| <= p.count
  {
    var names := NameList(notes);
    var d := Distinct(names);
    var parts := PartsOf(notes, d, headOf);
    forall i | 0 <= i < |d|
      ensures parts[i].count == CountOf(names, d[i])
      ensures Total(parts[i].heads) == |HeadList(Group(notes, d[i]), headOf)| <= parts[i].count
    {
      GroupSize(notes, d[i]);
      CountsAddUp(HeadList(Group(notes, d[i]), headOf));
      FewerHeads(Group(notes, d[i]), headOf);
    }
    CountsAddUp(names);
    assert seq(|parts|, i requires 0 <= i < |parts| => (parts[i].name, parts[i].count)) == Counted(d, names);
  }

  lemma {:induction false} FewerHeads(notes: seq<ToolNote>, headOf: string -> string)
    ensures |HeadList(notes, headOf)| <= |notes|
  {
    if notes != [] {
      FewerHeads(notes[..|notes| - 1], headOf);
    }
  }

  // ---- render_tool_burst ----

  /** The dictionary from each name to its calls, with its order of insertion. */
  method GroupByName(notes: seq<ToolNote>) returns (order: seq<string>, byName: map<string, seq<ToolNote>>)
    ensures order == Distinct(NameList(notes))
    ensures forall x :: x in byName <==> x in order
    ensures forall x :: x in byName ==> byName[x] == Group(notes, x)
  {
    order, byName := [], map[];
    var i := 0;
    while i < |notes|
      invariant i <= |notes|
      invariant order == Distinct(NameList(notes[..i]))
      invariant forall x :: x in byName <==> x in order
      invariant forall x :: x in byName ==> byName[x] == Group(notes[..i], x)
      invariant forall x :: x !in byName ==> Group(notes[..i], x) == []
    {
      var note := notes[i];
      assert notes[..i + 1][..i] == notes[..i];
      assert NameList(notes[..i + 1])[..i] == NameList(notes[..i]);
      if note.name !in byName {
        order := order + [note.name];
        byName := byName[note.name := []];
      }
      byName := byName[note.name := byName[note.name] + [note]];
      i := i + 1;
    }
    assert notes[..i] == notes;
  }

  /** The insertion order and the counts of a dictionary of values seen so far. */
  ghost predicate Tally(order: seq<string>, counts: map<string, nat>, seen: seq<string>) {
    && order == Distinct(seen)
    && forall x :: if x in order then x in counts && counts[x] == CountOf(seen, x) else x !in counts
  }

  lemma TallyNext(order: seq<string>, counts: map<string, nat>, seen: seq<string>, x: string)
    requires Tally(order, counts, seen)
    ensures x in counts ==> Tally(order, counts[x := counts[x] + 1], seen + [x])
    ensures x !in counts ==> Tally(order + [x], counts[x := 0][x := 1], seen + [x])
  {
    DistinctValues(seen);
    assert (seen + [x])[..|seen|] == seen;
    forall y ensures CountOf(seen + [x], y) == CountOf(seen, y) + (if x == y then 1 else 0) {
    }
    if x !in counts {
      NotCounted(seen, x);
    }
  }

  lemma TallyCounted(order: seq<string>, counts: map<string, nat>, seen: seq<string>)
    requires Tally(order, counts, seen)
    ensures forall x :: x in order ==> x in counts
    ensures seq(|order|, j requires 0 <= j < |order| => (order[j], counts[order[j]])) == Counted(Distinct(seen), seen)
  {
    assert forall j :: 0 <= j < |order| ==> order[j] in order;
  }

  lemma NextHead(group: seq<ToolNote>, i: nat, headOf: string -> string)
    requires i < |group|
    ensures var head := headOf(group[i].detail);
            HeadList(group[..i + 1], headOf) == HeadList(group[..i], headOf) + (if head != "" then [head] else [])
  {
    assert group[..i + 1][..i] == group[..i];
  }

  method CountHeads(group: seq<ToolNote>, headOf: string -> string) returns (heads: seq<(string, nat)>)
    ensures heads == Counted(Distinct(HeadList(group, headOf)), HeadList(group, headOf))
  {
    var order: seq<string>, counts: map<string, nat> := [], map[];
    var i := 0;
    assert Tally(order, counts, HeadList(group[..0], headOf));
    hide *;
    while i < |group|
      invariant i <= |group|
      invariant Tally(order, counts, HeadList(group[..i], headOf))
    {
      var head := headOf(group[i].detail);
      NextHead(group, i, headOf);
      if head != "" {
        TallyNext(order, counts, HeadList(group[..i], headOf), head);
        if head !in counts {
          order := order + [head];
          counts := counts[head := 0];
        }
        counts := counts[head := counts[head] + 1];
      } else {
        assert HeadList(group[..i], headOf) + [] == HeadList(group[..i], headOf);
      }
      i := i + 1;
    }
    assert group[..i] == group;
    TallyCounted(order, counts, HeadList(group, headOf));
    heads := seq(|order|, j requires 0 <= j < |order| => (order[j], counts[order[j]]));
  }

  lemma NextPart(notes: seq<ToolNote>, order: seq<string>, i: nat, headOf: string -> string)
    requires i < |order|
    ensures PartsOf(notes, order[..i + 1], headOf) == PartsOf(notes, order[..i], headOf) + [PartOf(notes, order[i], headOf)]
  {
  }

  method RenderToolBurst(notes: seq<ToolNote>, headOf: string -> string) returns (r: Rendering)
    ensures r == Rendered(notes, headOf)
  {
    if notes == [] { return Nothing; }
    if |notes| == 1 { return Single(notes[0]); }
    var order, byName := GroupByName(notes);
    var parts: seq<Part> := [];
    var i := 0;
    assert PartsOf(notes, order[..0], headOf) == [];
    hide Distinct, NameList, PartsOf, Group, HeadList, Counted;
    while i < |order|
      invariant i <= |order|
      invariant parts == PartsOf(notes, order[..i], headOf)
    {
      var heads := CountHeads(byName[order[i]], headOf);
      NextPart(notes, order, i, headOf);
      parts := parts + [Part(|byName[order[i]]|, order[i], heads)];
      i := i + 1;
    }
    assert order[..i] == order;
    r := Summary(notes[0].stamp, notes[|notes| - 1].stamp, parts);
  }
}
