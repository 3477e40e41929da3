/** Token telemetry: a worklist over nested JSON objects adds up what a
    structural recursion over them would. */
module Telemetry {
  import opened Json
  import opened Wrappers

  // ---- how the parser reads a value ----

  predicate Truthy(j: Json) {
    match j
    case Null => false
    case Bool(b) => b
    case Int(n) => n != 0
    case Float(r) => r != 0.0
    case Str(s) => s != ""
    case List(items) => items != []
    case Dict(fields) => fields != []
  }

  /** a or b or c */
  function FirstTruthy(fields: seq<(string, Json)>, keys: seq<string>): Json {
    if keys == [] then Null
    else if Truthy(Get(fields, keys[0])) then Get(fields, keys[0])
    else FirstTruthy(fields, keys[1..])
  }

  /** The first value that is not None. */
  function FirstPresent(fields: seq<(string, Json)>, keys: seq<string>): Json {
    if keys == [] then Null
    else if Get(fields, keys[0]) != Null then Get(fields, keys[0])
    else FirstPresent(fields, keys[1..])
  }

  /** int(text), where it does not raise. */
  type IntOfText = string -> Option<int>

  /** int(value or 0), with 0 for what cannot be converted. */
  function AsInt(j: Json, ofText: IntOfText): int {
    if !Truthy(j) then 0
    else match j
      case Bool(_) => 1
      case Int(n) => n
      case Float(r) => if r >= 0.0 then r.Floor else -((-r).Floor)
      case Str(s) => if ofText(s).Some? then ofText(s).value else 0
      case _ => 0
  }

  // ---- totals ----

  datatype Totals = Totals(input: int, cached: int, cacheWrite: Option<int>, output: int, events: int)

  const NONE := Totals(0, 0, Option.None, 0, 0)

  function Plus(a: Option<int>, b: Option<int>): Option<int> {
    if b == Option.None then a else Some((if a.Some? then a.value else 0) + b.value)
  }

  function Add(a: Totals, b: Totals): Totals {
    Totals(a.input + b.input, a.cached + b.cached, Plus(a.cacheWrite, b.cacheWrite), a.output + b.output, a.events + b.events)
  }

  lemma AddIsMonoid(a: Totals, b: Totals, c: Totals)
    ensures Add(a, b) == Add(b, a) && Add(Add(a, b), c) == Add(a, Add(b, c)) && Add(a, NONE) == a == Add(NONE, a)
  {
  }

  const INPUT_KEYS := ["input_tokens", "inputTokens", "prompt_tokens"]
  const OUTPUT_KEYS := ["output_tokens", "outputTokens", "completion_tokens"]
  const CACHED_KEYS := ["cached_input_tokens", "cache_read_input_tokens", "cacheReadInputTokens", "cacheReadTokens",
                        "cacheInputTokens", "cached_prompt_tokens", "cache_read_tokens"]
  const CACHE_WRITE_KEYS := ["cache_creation_input_tokens", "cacheCreateTokens", "cacheWriteTokens"]
  const USAGE_KEYS := INPUT_KEYS + CACHED_KEYS + CACHE_WRITE_KEYS + OUTPUT_KEYS

  /** What one usage object adds. */
  function Usage(u: seq<(string, Json)>, ofText: IntOfText): Totals {
    var write := FirstPresent(u, CACHE_WRITE_KEYS);
    Totals(AsInt(FirstTruthy(u, INPUT_KEYS), ofText),
           AsInt(FirstPresent(u, CACHED_KEYS), ofText),
           if write == Null then Option.None else Some(AsInt(write, ofText)),
           AsInt(FirstTruthy(u, OUTPUT_KEYS), ofText),
           if FirstPresent(u, USAGE_KEYS) != Null then 1 else 0)
  }

  function UsageList(items: seq<Json>, ofText: IntOfText): Totals {
    if items == [] then NONE
    else
      var last := items[|items| - 1];
      Add(UsageList(items[..|items| - 1], ofText), if last.Dict? then Usage(last.fields, ofText) else NONE)
  }

  /** What a node holds itself: its model usage list and its usage object. */
  function Own(node: seq<(string, Json)>, ofText: IntOfText): Totals {
    var models := FirstTruthy(node, ["modelUsage", "model_usage"]);
    var usage := FirstTruthy(node, ["usage", "stats"]);
    Add(if models.List? then UsageList(models.items, ofText) else NONE,
        if usage.Dict? then Usage(usage.fields, ofText) else NONE)
  }

  // ---- the reference: a recursion over the objects nested in objects ----

  function TotalOf(j: Json, ofText: IntOfText): Totals
    requires j.Dict?
    decreases j, |j.fields| + 1
  {
    Add(Own(j.fields, ofText), TotalBelow(j, |j.fields|, ofText))
  }

  function TotalBelow(j: Json, k: nat, ofText: IntOfText): Totals
    requires j.Dict? && k <= |j.fields|
    decreases j, k
  {
    if k == 0 then NONE
    else
      var child := j.fields[k - 1].1;
      Add(TotalBelow(j, k - 1, ofText), if child.Dict? then TotalOf(child, ofText) else NONE)
  }

  function Objects(j: Json): nat
    requires j.Dict?
    decreases j, |j.fields| + 1
  {
    1 + ObjectsBelow(j, |j.fields|)
  }

  function ObjectsBelow(j: Json, k: nat): nat
    requires j.Dict? && k <= |j.fields|
    decreases j, k
  {
    if k == 0 then 0
    else ObjectsBelow(j, k - 1) + (if j.fields[k - 1].1.Dict? then Objects(j.fields[k - 1].1) else 0)
  }

  // ---- the worklist ----

  type Node = j: Json | j.Dict? witness Dict([])

  function Sum(nodes: seq<Node>, ofText: IntOfText): Totals {
    if nodes == [] then NONE else Add(Sum(nodes[..|nodes| - 1], ofText), TotalOf(nodes[|nodes| - 1], ofText))
  }

  function Weight(nodes: seq<Node>): nat {
    if nodes == [] then 0 else Weight(nodes[..|nodes| - 1]) + Objects(nodes[|nodes| - 1])
  }

  function Children(j: Node, k: nat): seq<Node>
    requires k <= |j.fields|
  {
    if k == 0 then []
    else Children(j, k - 1) + (if j.fields[k - 1].1.Dict? then [j.fields[k - 1].1] else [])
  }

  lemma {:induction false} SumAppend(a: seq<Node>, b: seq<Node>, ofText: IntOfText)
    ensures Sum(a + b, ofText) == Add(Sum(a, ofText), Sum(b, ofText))
    ensures Weight(a + b) == Weight(a) + Weight(b)
  {
    hide Add, TotalOf, Objects;
    if b == [] {
      assert a + b == a;
      AddIsMonoid(Sum(a, ofText), NONE, NONE);
    } else {
      var n := |b| - 1;
      SumAppend(a, b[..n], ofText);
      assert (a + b)[..|a + b| - 1] == a + b[..n];
      AddIsMonoid(Sum(a, ofText), Sum(b[..n], ofText), TotalOf(b[n], ofText));
    }
  }

  lemma SumOne(x: Node, ofText: IntOfText)
    ensures Sum([x], ofText) == TotalOf(x, ofText) && Weight([x]) == Objects(x)
  {
    assert [x][..0] == [];
    AddIsMonoid(TotalOf(x, ofText), NONE, NONE);
  }

  lemma ChildrenStep(j: Node, k: nat, ofText: IntOfText)
    requires 0 < k <= |j.fields|
    ensures var child := j.fields[k - 1].1;
            if child.Dict? then
              && TotalBelow(j, k, ofText) == Add(TotalBelow(j, k - 1, ofText), TotalOf(child, ofText))
              && ObjectsBelow(j, k) == ObjectsBelow(j, k - 1) + Objects(child)
              && Children(j, k) == Children(j, k - 1) + [child]
            else
              && TotalBelow(j, k, ofText) == TotalBelow(j, k - 1, ofText)
              && ObjectsBelow(j, k) == ObjectsBelow(j, k - 1)
              && Children(j, k) == Children(j, k - 1)
  {
    AddIsMonoid(TotalBelow(j, k - 1, ofText), NONE, NONE);
    hide Add, TotalOf, Objects;
  }

  lemma SumSnoc(before: seq<Node>, child: Node, ofText: IntOfText)
    ensures Sum(before + [child], ofText) == Add(Sum(before, ofText), TotalOf(child, ofText))
    ensures Weight(before + [child]) == Weight(before) + Objects(child)
  {
    hide Add, TotalOf, Objects;
    assert (before + [child])[..|before|] == before;
  }

  ghost predicate ChildrenSummed(j: Node, k: nat, ofText: IntOfText)
    requires k <= |j.fields|
  {
    Sum(Children(j, k), ofText) == TotalBelow(j, k, ofText) && Weight(Children(j, k)) == ObjectsBelow(j, k)
  }

  lemma ChildSummed(j: Node, k: nat, ofText: IntOfText)
    requires 0 < k <= |j.fields| && ChildrenSummed(j, k - 1, ofText)
    ensures ChildrenSummed(j, k, ofText)
  {
    hide Add, TotalOf, Objects, TotalBelow, ObjectsBelow, Children, Sum, Weight;
    ChildrenStep(j, k, ofText);
    if j.fields[k - 1].1.Dict? {
      SumSnoc(Children(j, k - 1), j.fields[k - 1].1, ofText);
    }
  }

  lemma {:induction false} ChildrenSum(j: Node, k: nat, ofText: IntOfText)
    requires k <= |j.fields|
    ensures ChildrenSummed(j, k, ofText)
    decreases k
  {
    if k > 0 {
      ChildrenSum(j, k - 1, ofText);
      hide *;
      ChildSummed(j, k, ofText);
    }
  }

  /** Replacing a node by its children pays out what it holds itself. */
  lemma Expand(left: seq<Node>, j: Node, right: seq<Node>, acc: Totals, ofText: IntOfText)
    ensures var next := left + right + Children(j, |j.fields|);
            && Add(acc, Sum(left + [j] + right, ofText)) == Add(Add(acc, Own(j.fields, ofText)), Sum(next, ofText))
            && Weight(left + [j] + right) == Weight(next) + 1
  {
    var children := Children(j, |j.fields|);
    SumAppend(left + [j], right, ofText);
    SumAppend(left, [j], ofText);
    SumOne(j, ofText);
    SumAppend(left + right, children, ofText);
    SumAppend(left, right, ofText);
    ChildrenSum(j, |j.fields|, ofText);
    hide Sum, Weight, TotalBelow, Own, Children;
    Rearrange(acc, Sum(left, ofText), Sum(right, ofText), Own(j.fields, ofText), Sum(children, ofText));
  }

  lemma Rearrange(acc: Totals, l: Totals, r: Totals, own: Totals, below: Totals)
    ensures Add(acc, Add(Add(l, Add(own, below)), r)) == Add(Add(acc, own), Add(Add(l, r), below))
  {
  }

  /** A run of the worklist that removes nodes in any order at all. */
  ghost predicate Drains(pending: seq<Node>, acc: Totals, picks: seq<nat>, end: Totals, ofText: IntOfText)
    decreases |picks|
  {
    if picks == [] then pending == [] && end == acc
    else
      && picks[0] < |pending|
      && var i := picks[0];
         var j := pending[i];
         Drains(pending[..i] + pending[i + 1..] + Children(j, |j.fields|), Add(acc, Own(j.fields, ofText)), picks[1..], end, ofText)
  }

  /** One pick, told apart from the rest of the run. */
  lemma PickPays(pending: seq<Node>, i: nat, acc: Totals, ofText: IntOfText)
    requires i < |pending|
    ensures var next := pending[..i] + pending[i + 1..] + Children(pending[i], |pending[i].fields|);
            && Add(acc, Sum(pending, ofText)) == Add(Add(acc, Own(pending[i].fields, ofText)), Sum(next, ofText))
            && Weight(pending) == Weight(next) + 1
  {
    hide *;
    assert pending == pending[..i] + [pending[i]] + pending[i + 1..];
    Expand(pending[..i], pending[i], pending[i + 1..], acc, ofText);
  }

  /** Every order drains the worklist in the same number of steps to the same
      totals: those of the structural recursion. */
  lemma {:induction false} AnyOrderSameTotals(pending: seq<Node>, acc: Totals, picks: seq<nat>, end: Totals, ofText: IntOfText)
    requires Drains(pending, acc, picks, end, ofText)
    ensures end == Add(acc, Sum(pending, ofText)) && |picks| == Weight(pending)
    decreases |picks|
  {
    if picks == [] {
      AddIsMonoid(acc, NONE, NONE);
    } else {
      var i := picks[0];
      var j := pending[i];
      var next := pending[..i] + pending[i + 1..] + Children(j, |j.fields|);
      assert Drains(next, Add(acc, Own(j.fields, ofText)), picks[1..], end, ofText);
      hide *;
      AnyOrderSameTotals(next, Add(acc, Own(j.fields, ofText)), picks[1..], end, ofText);
      PickPays(pending, i, acc, ofText);
    }
  }

  /** The token fields of the parser. */
  class Meter {
    const ofText: IntOfText
    var totals: Totals

    constructor (ofText: IntOfText)
      ensures totals == NONE && this.ofText == ofText
    {
      this.ofText, totals := ofText, NONE;
    }

    method RecordUsage(usage: seq<(string, Json)>)
      modifies this
      ensures totals == Add(old(totals), Usage(usage, ofText))
    {
      if FirstPresent(usage, USAGE_KEYS) != Null {
        totals := totals.(events := totals.events + 1);
      }
      totals := totals.(input := totals.input + AsInt(FirstTruthy(usage, INPUT_KEYS), ofText));
      totals := totals.(cached := totals.cached + AsInt(FirstPresent(usage, CACHED_KEYS), ofText));
      var write := FirstPresent(usage, CACHE_WRITE_KEYS);
      if write != Null {
        var before := if totals.cacheWrite.Some? then totals.cacheWrite.value else 0;
        totals := totals.(cacheWrite := Some(before + AsInt(write, ofText)));
      }
      totals := totals.(output := totals.output + AsInt(FirstTruthy(usage, OUTPUT_KEYS), ofText));
    }

    method RecordUsageList(items: seq<Json>)
      modifies this
      ensures totals == Add(old(totals), UsageList(items, ofText))
    {
      hide *;
      var i := 0;
      UsageListStart(totals, items, ofText);
      while i < |items|
        invariant i <= |items|
        invariant totals == Add(old(totals), UsageList(items[..i], ofText))
      {
        UsageListNext(old(totals), items, i, ofText);
        if items[i].Dict? {
          RecordUsage(items[i].fields);
        }
        i := i + 1;
      }
      assert items[..i] == items;
    }

    method RecordOwn(node: seq<(string, Json)>)
      modifies this
      ensures totals == Add(old(totals), Own(node, ofText))
    {
      var models := FirstTruthy(node, ["modelUsage", "model_usage"]);
      var usage := FirstTruthy(node, ["usage", "stats"]);
      ghost var fromModels := if models.List? then UsageList(models.items, ofText) else NONE;
      ghost var fromUsage := if usage.Dict? then Usage(usage.fields, ofText) else NONE;
      assert Own(node, ofText) == Add(fromModels, fromUsage);
      AddIsMonoid(totals, fromModels, fromUsage);
      AddIsMonoid(Add(totals, fromModels), NONE, NONE);
      AddIsMonoid(totals, NONE, NONE);
      hide *;
      if models.List? {
        RecordUsageList(models.items);
      }
      if usage.Dict? {
        RecordUsage(usage.fields);
      }
    }

    /** The loop of _record_nested_telemetry over pending. */
    method RecordNested(event: Node)
      modifies this
      ensures totals == Add(old(totals), TotalOf(event, ofText))
    {
      ghost var start := totals;
      var pending: seq<Node> := [event];
      SumOne(event, ofText);
      hide Add, Own, TotalOf, Weight;
      while pending != []
        invariant Add(totals, Sum(pending, ofText)) == Add(start, TotalOf(event, ofText))
        decreases Weight(pending)
      {
        var n := |pending| - 1;
        var current := pending[n];
        Expand(pending[..n], current, [], totals, ofText);
        assert pending[..n] + [current] + [] == pending && pending[..n] + [] == pending[..n];
        RecordOwn(current.fields);
        pending := PushChildren(pending[..n], current);
      }
      AddIsMonoid(totals, NONE, NONE);
    }
  }

  lemma UsageListStart(start: Totals, items: seq<Json>, ofText: IntOfText)
    ensures Add(start, UsageList(items[..0], ofText)) == start
  {
    AddIsMonoid(start, NONE, NONE);
  }

  lemma UsageListNext(start: Totals, items: seq<Json>, i: nat, ofText: IntOfText)
    requires i < |items|
    ensures Add(start, UsageList(items[..i + 1], ofText)) ==
            var before := Add(start, UsageList(items[..i], ofText));
            if items[i].Dict? then Add(before, Usage(items[i].fields, ofText)) else before
  {
    assert items[..i + 1][..i] == items[..i];
    var usage := if items[i].Dict? then Usage(items[i].fields, ofText) else NONE;
    AddIsMonoid(start, UsageList(items[..i], ofText), usage);
    AddIsMonoid(UsageList(items[..i], ofText), NONE, NONE);
    hide Add, Usage;
  }

  method PushChildren(stack: seq<Node>, current: Node) returns (pending: seq<Node>)
    ensures pending == stack + Children(current, |current.fields|)
  {
    pending := stack;
    var k := 0;
    while k < |current.fields|
      invariant k <= |current.fields|
      invariant pending == stack + Children(current, k)
    {
      if current.fields[k].1.Dict? {
        pending := pending + [current.fields[k].1];
      }
      k := k + 1;
    }
  }
}
