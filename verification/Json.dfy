/** JSON values as the scripts see them after json.loads: an object keeps the
    order of its fields. */
module Json {
  datatype Json =
    | Null | Bool(b: bool) | Int(n: int) | Float(r: real) | Str(s: string)
    | List(items: seq<Json>) | Dict(fields: seq<(string, Json)>)

  /** dict.get: None for a missing key. */
  function Get(fields: seq<(string, Json)>, key: string): Json {
    if fields == [] then Null
    else if fields[0].0 == key then fields[0].1
    else Get(fields[1..], key)
  }

  /** dict[key] = value: in place for a known key, at the end for a new one. */
  function Set(fields: seq<(string, Json)>, key: string, value: Json): seq<(string, Json)> {
    if fields == [] then [(key, value)]
    else if fields[0].0 == key then [(key, value)] + fields[1..]
    else [fields[0]] + Set(fields[1..], key, value)
  }

  lemma {:induction false} SetElsewhere(fields: seq<(string, Json)>, key: string, value: Json, other: string)
    requires other != key
    ensures Get(Set(fields, key, value), other) == Get(fields, other)
  {
    if fields != [] && fields[0].0 != key {
      SetElsewhere(fields[1..], key, value, other);
      assert Set(fields, key, value)[1..] == Set(fields[1..], key, value);
    }
  }
}
