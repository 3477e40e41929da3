/** Which fields of a usage object mean what: the spellings that providers use,
    and how the parser chooses among them. */
module TokenFields {
  import opened Json
  import opened Telemetry
  import opened Wrappers

  type Fields = seq<(string, Json)>

  // ---- values ----

  /** What counts as false, or as no value at all. */
  lemma FalsyValues(j: Json)
    ensures !Truthy(j) <==> j in {Null, Bool(false), Int(0), Float(0.0), Str(""), List([]), Dict([])}
  {
  }

  /** Numbers are cut towards zero; texts count as far as they are integers. */
  lemma ReadsNumbers(n: int, r: real, s: string, ofText: IntOfText)
    ensures AsInt(Int(n), ofText) == n && AsInt(Bool(true), ofText) == 1 && AsInt(Bool(false), ofText) == 0
    ensures AsInt(Null, ofText) == 0 && AsInt(Str(""), ofText) == 0
    ensures s != "" ==> AsInt(Str(s), ofText) == if ofText(s).Some? then ofText(s).value else 0
    ensures r >= 0.0 ==> AsInt(Float(r), ofText) as real <= r < AsInt(Float(r), ofText) as real + 1.0
    ensures r <= 0.0 ==> AsInt(Float(r), ofText) as real - 1.0 < r <= AsInt(Float(r), ofText) as real
  {
  }

  lemma ReadsNoContainers(items: seq<Json>, fields: Fields, ofText: IntOfText)
    ensures AsInt(List(items), ofText) == 0 && AsInt(Dict(fields), ofText) == 0
  {
  }

  /** The field of a key, if the object has one such field, and null if none. */
  lemma {:induction false} GetFinds(u: Fields, i: nat)
    requires i < |u| && forall j :: 0 <= j < i ==> u[j].0 != u[i].0
    ensures Get(u, u[i].0) == u[i].1
  {
    if i > 0 {
      GetFinds(u[1..], i - 1);
    }
  }

  lemma {:induction false} GetMisses(u: Fields, key: string)
    requires forall i :: 0 <= i < |u| ==> u[i].0 != key
    ensures Get(u, key) == Null
  {
    if u != [] {
      GetMisses(u[1..], key);
    }
  }

  lemma {:induction false} GetAfterSet(u: Fields, key: string, value: Json)
    ensures Get(Set(u, key, value), key) == value
  {
    if u != [] && u[0].0 != key {
      GetAfterSet(u[1..], key, value);
      assert Set(u, key, value)[1..] == Set(u[1..], key, value);
    }
  }

  // ---- the choice among spellings ----

  lemma TruthyOfThree(u: Fields, keys: seq<string>)
    requires |keys| == 3
    ensures FirstTruthy(u, keys) ==
            if Truthy(Get(u, keys[0])) then Get(u, keys[0]) else if Truthy(Get(u, keys[1])) then Get(u, keys[1])
            else if Truthy(Get(u, keys[2])) then Get(u, keys[2]) else Null
  {
    var k1, k2 := keys[1..], keys[2..];
    assert k1[1..] == k2 && k2[1..] == [] && k1[0] == keys[1] && k2[0] == keys[2];
    hide Get, Truthy, FirstTruthy;
    TruthyNext(u, keys);
    TruthyNext(u, k1);
    TruthyNext(u, k2);
    NothingTruthy(u);
  }

  lemma TruthyNext(u: Fields, keys: seq<string>)
    requires keys != []
    ensures FirstTruthy(u, keys) == if Truthy(Get(u, keys[0])) then Get(u, keys[0]) else FirstTruthy(u, keys[1..])
  {
  }

  lemma NothingTruthy(u: Fields)
    ensures FirstTruthy(u, []) == Null
  {
  }

  lemma PresentNext(u: Fields, keys: seq<string>)
    requires keys != []
    ensures FirstPresent(u, keys) == if Get(u, keys[0]) != Null then Get(u, keys[0]) else FirstPresent(u, keys[1..])
  {
  }

  /** The input count comes from the first of its three spellings with a value. */
  lemma InputCount(u: Fields, ofText: IntOfText)
    ensures Usage(u, ofText).input ==
            if Truthy(Get(u, "input_tokens")) then AsInt(Get(u, "input_tokens"), ofText)
            else if Truthy(Get(u, "inputTokens")) then AsInt(Get(u, "inputTokens"), ofText)
            else AsInt(Get(u, "prompt_tokens"), ofText)
  {
    TruthyOfThree(u, INPUT_KEYS);
    hide Get, FirstTruthy, FirstPresent;
  }

  /** The output count likewise. */
  lemma OutputCount(u: Fields, ofText: IntOfText)
    ensures Usage(u, ofText).output ==
            if Truthy(Get(u, "output_tokens")) then AsInt(Get(u, "output_tokens"), ofText)
            else if Truthy(Get(u, "outputTokens")) then AsInt(Get(u, "outputTokens"), ofText)
            else AsInt(Get(u, "completion_tokens"), ofText)
  {
    TruthyOfThree(u, OUTPUT_KEYS);
    hide Get, FirstTruthy, FirstPresent;
  }

  /** The cached count comes from the first of its spellings that is there at all:
      a reported 0 ends the search. */
  lemma CachedCount(u: Fields, ofText: IntOfText)
    ensures Usage(u, ofText).cached ==
            AsInt(if Get(u, "cached_input_tokens") != Null then Get(u, "cached_input_tokens")
                  else if Get(u, "cache_read_input_tokens") != Null then Get(u, "cache_read_input_tokens")
                  else if Get(u, "cacheReadInputTokens") != Null then Get(u, "cacheReadInputTokens")
                  else if Get(u, "cacheReadTokens") != Null then Get(u, "cacheReadTokens")
                  else if Get(u, "cacheInputTokens") != Null then Get(u, "cacheInputTokens")
                  else if Get(u, "cached_prompt_tokens") != Null then Get(u, "cached_prompt_tokens")
                  else Get(u, "cache_read_tokens"), ofText)
  {
    hide Get, FirstPresent, FirstTruthy, AsInt;
    var k0 := CACHED_KEYS;
    var k1, k2, k3 := k0[1..], k0[2..], k0[3..];
    var k4, k5, k6 := k0[4..], k0[5..], k0[6..];
    assert k1[1..] == k2 && k2[1..] == k3 && k3[1..] == k4 && k4[1..] == k5 && k5[1..] == k6 && k6[1..] == [];
    PresentNext(u, k0);
    PresentNext(u, k1);
    PresentNext(u, k2);
    PresentNext(u, k3);
    PresentNext(u, k4);
    PresentNext(u, k5);
    PresentNext(u, k6);
    NothingPresent(u);
  }

  lemma NothingPresent(u: Fields)
    ensures FirstPresent(u, []) == Null
  {
  }

  /** The cache-write count likewise; without any spelling it is not reported. */
  lemma CacheWriteCount(u: Fields, ofText: IntOfText)
    ensures Usage(u, ofText).cacheWrite ==
            if Get(u, "cache_creation_input_tokens") != Null then Some(AsInt(Get(u, "cache_creation_input_tokens"), ofText))
            else if Get(u, "cacheCreateTokens") != Null then Some(AsInt(Get(u, "cacheCreateTokens"), ofText))
            else if Get(u, "cacheWriteTokens") != Null then Some(AsInt(Get(u, "cacheWriteTokens"), ofText))
            else Option.None
  {
    hide Get, FirstPresent, FirstTruthy, AsInt;
    var k0 := CACHE_WRITE_KEYS;
    var k1, k2 := k0[1..], k0[2..];
    assert k1[1..] == k2 && k2[1..] == [];
    PresentNext(u, k0);
    PresentNext(u, k1);
    PresentNext(u, k2);
    NothingPresent(u);
  }

  // ---- groups of fields ----

  predicate InputField(key: string) { key in {"input_tokens", "inputTokens", "prompt_tokens"} }
  predicate OutputField(key: string) { key in {"output_tokens", "outputTokens", "completion_tokens"} }
  predicate CachedField(key: string) {
    key in {"cached_input_tokens", "cache_read_input_tokens", "cacheReadInputTokens", "cacheReadTokens", "cacheInputTokens",
            "cached_prompt_tokens", "cache_read_tokens"}
  }
  predicate CacheWriteField(key: string) { key in {"cache_creation_input_tokens", "cacheCreateTokens", "cacheWriteTokens"} }
  predicate TokenField(key: string) { InputField(key) || OutputField(key) || CachedField(key) || CacheWriteField(key) }

  /** The values of the other keys are the same. */
  ghost predicate SameElsewhere(u: Fields, w: Fields, key: string) {
    forall other :: other != key ==> Get(w, other) == Get(u, other)
  }

  lemma SetIsElsewhere(u: Fields, key: string, value: Json)
    ensures SameElsewhere(u, Set(u, key, value), key)
  {
    forall other | other != key ensures Get(Set(u, key, value), other) == Get(u, other) {
      SetElsewhere(u, key, value, other);
    }
  }

  /** Setting a field changes at most the count of its own group. */
  lemma GroupsApart(u: Fields, key: string, value: Json, ofText: IntOfText)
    ensures var (was, now) := (Usage(u, ofText), Usage(Set(u, key, value), ofText));
            && (!InputField(key) ==> now.input == was.input) && (!OutputField(key) ==> now.output == was.output)
            && (!CachedField(key) ==> now.cached == was.cached)
            && (!CacheWriteField(key) ==> now.cacheWrite == was.cacheWrite)
  {
    SetIsElsewhere(u, key, value);
    var w := Set(u, key, value);
    hide Set, Get, Usage, AsInt, Truthy;
    if !InputField(key) { InputApart(u, w, key, ofText); }
    if !OutputField(key) { OutputApart(u, w, key, ofText); }
    if !CachedField(key) { CachedApart(u, w, key, ofText); }
    if !CacheWriteField(key) { CacheWriteApart(u, w, key, ofText); }
  }

  lemma InputApart(u: Fields, w: Fields, key: string, ofText: IntOfText)
    requires SameElsewhere(u, w, key) && !InputField(key)
    ensures Usage(w, ofText).input == Usage(u, ofText).input
  {
    InputCount(u, ofText);
    InputCount(w, ofText);
    hide Get, Usage, AsInt, Truthy;
  }

  lemma OutputApart(u: Fields, w: Fields, key: string, ofText: IntOfText)
    requires SameElsewhere(u, w, key) && !OutputField(key)
    ensures Usage(w, ofText).output == Usage(u, ofText).output
  {
    OutputCount(u, ofText);
    OutputCount(w, ofText);
    hide Get, Usage, AsInt, Truthy;
  }

  lemma CachedApart(u: Fields, w: Fields, key: string, ofText: IntOfText)
    requires SameElsewhere(u, w, key) && !CachedField(key)
    ensures Usage(w, ofText).cached == Usage(u, ofText).cached
  {
    CachedCount(u, ofText);
    CachedCount(w, ofText);
    hide Get, Usage, AsInt, Truthy;
  }

  lemma CacheWriteApart(u: Fields, w: Fields, key: string, ofText: IntOfText)
    requires SameElsewhere(u, w, key) && !CacheWriteField(key)
    ensures Usage(w, ofText).cacheWrite == Usage(u, ofText).cacheWrite
  {
    CacheWriteCount(u, ofText);
    CacheWriteCount(w, ofText);
    hide Get, Usage, AsInt, Truthy;
  }

  // ---- usage events ----

  lemma {:induction false} PresentExactly(u: Fields, keys: seq<string>)
    ensures FirstPresent(u, keys) != Null <==> exists i :: 0 <= i < |keys| && Get(u, keys[i]) != Null
  {
    if keys != [] {
      PresentExactly(u, keys[1..]);
      assert forall i :: 0 <= i < |keys[1..]| ==> keys[1..][i] == keys[i + 1];
      if i :| 0 < i < |keys| && Get(u, keys[i]) != Null {
        assert keys[1..][i - 1] == keys[i];
      }
    }
  }

  lemma InputKeys(key: string)
    ensures key in INPUT_KEYS <==> InputField(key)
  {
  }

  lemma OutputKeys(key: string)
    ensures key in OUTPUT_KEYS <==> OutputField(key)
  {
  }

  lemma CachedKeys(key: string)
    ensures key in CACHED_KEYS <==> CachedField(key)
  {
  }

  lemma CacheWriteKeys(key: string)
    ensures key in CACHE_WRITE_KEYS <==> CacheWriteField(key)
  {
  }

  lemma UsageKeys(key: string)
    ensures key in USAGE_KEYS <==> TokenField(key)
  {
    InputKeys(key);
    OutputKeys(key);
    CachedKeys(key);
    CacheWriteKeys(key);
    hide INPUT_KEYS, OUTPUT_KEYS, CACHED_KEYS, CACHE_WRITE_KEYS, InputField, OutputField, CachedField, CacheWriteField;
  }

  ghost predicate HasTokenField(u: Fields) { exists key :: TokenField(key) && Get(u, key) != Null }

  /** An object is one usage event if it holds a token field, and adds nothing if it
      holds none. */
  lemma EventExactly(u: Fields, ofText: IntOfText)
    ensures Usage(u, ofText).events == if HasTokenField(u) then 1 else 0
    ensures !HasTokenField(u) ==> Usage(u, ofText) == NONE
  {
    PresentExactly(u, USAGE_KEYS);
    hide Get, USAGE_KEYS, TokenField, FirstPresent, FirstTruthy, AsInt;
    if HasTokenField(u) {
      var key :| TokenField(key) && Get(u, key) != Null;
      UsageKeys(key);
      var i :| 0 <= i < |USAGE_KEYS| && USAGE_KEYS[i] == key;
    } else {
      forall i | 0 <= i < |USAGE_KEYS| ensures Get(u, USAGE_KEYS[i]) == Null {
        UsageKeys(USAGE_KEYS[i]);
      }
      NothingAdds(u, ofText);
    }
  }

  lemma FieldsCount(key: string)
    requires InputField(key) || OutputField(key) || CachedField(key) || CacheWriteField(key)
    ensures TokenField(key)
  {
  }

  lemma NothingAdds(u: Fields, ofText: IntOfText)
    requires !HasTokenField(u)
    ensures var t := Usage(u, ofText); t.input == 0 && t.output == 0 && t.cached == 0 && t.cacheWrite == Option.None
  {
    hide Get, Usage, AsInt, TokenField, InputField, OutputField, CachedField, CacheWriteField;
    forall key | InputField(key) || OutputField(key) || CachedField(key) || CacheWriteField(key) ensures Get(u, key) == Null {
      FieldsCount(key);
    }
    NoInput(u, ofText);
    NoOutput(u, ofText);
    NoCached(u, ofText);
    NoCacheWrite(u, ofText);
  }

  lemma NoInput(u: Fields, ofText: IntOfText)
    requires forall key :: InputField(key) ==> Get(u, key) == Null
    ensures Usage(u, ofText).input == 0
  {
    assert InputField("input_tokens") && InputField("inputTokens") && InputField("prompt_tokens");
    InputCount(u, ofText);
    NullIsNothing(ofText);
    hide Get, Usage, AsInt, InputField;
  }

  lemma NoOutput(u: Fields, ofText: IntOfText)
    requires forall key :: OutputField(key) ==> Get(u, key) == Null
    ensures Usage(u, ofText).output == 0
  {
    assert OutputField("output_tokens") && OutputField("outputTokens") && OutputField("completion_tokens");
    OutputCount(u, ofText);
    NullIsNothing(ofText);
    hide Get, Usage, AsInt, OutputField;
  }

  lemma NoCached(u: Fields, ofText: IntOfText)
    requires forall key :: CachedField(key) ==> Get(u, key) == Null
    ensures Usage(u, ofText).cached == 0
  {
    CachedCount(u, ofText);
    NullIsNothing(ofText);
    hide Get, Usage, AsInt;
  }

  lemma NoCacheWrite(u: Fields, ofText: IntOfText)
    requires forall key :: CacheWriteField(key) ==> Get(u, key) == Null
    ensures Usage(u, ofText).cacheWrite == Option.None
  {
    CacheWriteCount(u, ofText);
    hide Get, Usage, AsInt;
  }

  lemma NullIsNothing(ofText: IntOfText)
    ensures AsInt(Null, ofText) == 0 && !Truthy(Null)
  {
  }

  // ---- where a node keeps its usage ----

  /** The list of model usages, or else of its other spelling, and the usage object
      or else the stats; anything of another shape counts nothing. */
  lemma NodeFields(node: Fields, ofText: IntOfText)
    ensures var models := if Truthy(Get(node, "modelUsage")) then Get(node, "modelUsage") else Get(node, "model_usage");
            var usage := if Truthy(Get(node, "usage")) then Get(node, "usage") else Get(node, "stats");
            Own(node, ofText) == Add(if models.List? && models.items != [] then UsageList(models.items, ofText) else NONE,
                                     if usage.Dict? && usage.fields != [] then Usage(usage.fields, ofText) else NONE)
  {
    TruthyOfTwo(node, "modelUsage", "model_usage");
    TruthyOfTwo(node, "usage", "stats");
    hide Get, FirstTruthy, UsageList, Usage;
  }

  lemma TruthyOfTwo(u: Fields, a: string, b: string)
    ensures FirstTruthy(u, [a, b]) == if Truthy(Get(u, a)) then Get(u, a) else if Truthy(Get(u, b)) then Get(u, b) else Null
  {
    assert [a, b][1..] == [b] && [b][1..] == [];
    hide Get, Truthy, FirstTruthy;
    TruthyNext(u, [a, b]);
    TruthyNext(u, [b]);
    NothingTruthy(u);
  }

  /** Each object of a list of model usages counts, and nothing else in it. */
  lemma UsageListNext(items: seq<Json>, last: Json, ofText: IntOfText)
    ensures UsageList([], ofText) == NONE
    ensures UsageList(items + [last], ofText) ==
            if last.Dict? then Add(UsageList(items, ofText), Usage(last.fields, ofText)) else UsageList(items, ofText)
  {
    assert (items + [last])[..|items|] == items;
    AddIsMonoid(UsageList(items, ofText), NONE, NONE);
    hide Usage, Add;
  }

  function Reported(n: Option<int>): int { if n.Some? then n.value else 0 }

  /** Totals are added field by field; the cache-write count is reported as soon as one
      of the two is. */
  lemma TotalsAreSums(a: Totals, b: Totals)
    ensures var c := Add(a, b);
            && c.input == a.input + b.input && c.cached == a.cached + b.cached && c.output == a.output + b.output
            && c.events == a.events + b.events
            && (c.cacheWrite == Option.None <==> a.cacheWrite == Option.None && b.cacheWrite == Option.None)
            && Reported(c.cacheWrite) == Reported(a.cacheWrite) + Reported(b.cacheWrite)
  {
  }
}
