/** Unicode scalar values and their UTF-16 code units, as in sections 2.1 and 2.2
    of RFC 2781. */
module Utf16 {
  import opened Bytes
  import opened Wrappers

  type Scalar = n: int | 0 <= n < 0xd800 || 0xe000 <= n < 0x110000
  type Text = seq<Scalar>
  type Unit = n: int | 0 <= n < 0x10000

  function UnitsOf(c: Scalar): (u: seq<Unit>)
    ensures |u| == if c < 0x10000 then 1 else 2
  {
    if c < 0x10000 then [c] else [0xd800 + (c - 0x10000) / 0x400, 0xdc00 + (c - 0x10000) % 0x400]
  }

  function Encode(t: Text): seq<Unit> {
    if t == [] then [] else UnitsOf(t[0]) + Encode(t[1..])
  }

  predicate IsHigh(u: Unit) { 0xd800 <= u < 0xdc00 }
  predicate IsLow(u: Unit) { 0xdc00 <= u < 0xe000 }

  /** Refuses an unpaired surrogate. */
  function Decode(u: seq<Unit>): Option<Text> {
    if u == [] then Some([])
    else if IsHigh(u[0]) then
      if |u| < 2 || !IsLow(u[1]) then None
      else
        var rest := Decode(u[2..]);
        if rest == None then None
        else Some([0x10000 + (u[0] - 0xd800) * 0x400 + (u[1] - 0xdc00)] + rest.value)
    else if IsLow(u[0]) then None
    else
      var rest := Decode(u[1..]);
      if rest == None then None else Some([u[0]] + rest.value)
  }

  lemma {:induction false} DecodeInvertsEncode(t: Text)
    ensures Decode(Encode(t)) == Some(t)
  {
    hide UnitsOf;
    if t != [] {
      DecodeInvertsEncode(t[1..]);
      DecodeOne(t[0], Encode(t[1..]));
      assert [t[0]] + t[1..] == t;
    }
  }

  lemma DecodeOne(c: Scalar, rest: seq<Unit>)
    requires Decode(rest) != None
    ensures Decode(UnitsOf(c) + rest) == Some([c] + Decode(rest).value)
  {
    var u := UnitsOf(c) + rest;
    assert u[|UnitsOf(c)|..] == rest;
    assert u[..|UnitsOf(c)|] == UnitsOf(c);
  }

  lemma EncodeNothing(t: Text)
    requires t == []
    ensures Encode(t) == []
  {
  }

  lemma EncodeCons(c: Scalar, t: Text)
    ensures Encode([c] + t) == UnitsOf(c) + Encode(t)
  {
    hide UnitsOf;
    assert ([c] + t)[1..] == t;
  }

  lemma {:induction false} EncodeAppend(a: Text, b: Text)
    ensures Encode(a + b) == Encode(a) + Encode(b)
  {
    hide UnitsOf, Encode;
    if a == [] {
      EncodeNothing(a);
      assert a + b == b;
    } else {
      var c, rest := a[0], a[1..];
      EncodeAppend(rest, b);
      EncodeCons(c, rest);
      EncodeCons(c, rest + b);
      assert a == [c] + rest && a + b == [c] + (rest + b);
    }
  }

  /** char.encode("utf-16-le") */
  function LittleEndian(u: seq<Unit>): (b: Bytes)
    ensures |b| == 2 * |u|
  {
    if u == [] then []
    else
      var high := u[0] / 256;
      assert 256 * (high as int) <= u[0] as int < 256 * 256;
      [u[0] % 256, high] + LittleEndian(u[1..])
  }

  /** int.from_bytes(two bytes, "little") */
  function Pair(low: byte, high: byte): Unit { low as int + 256 * high as int }

  lemma {:induction false} PairIsUnit(u: seq<Unit>, k: nat)
    requires k < |u|
    ensures Pair(LittleEndian(u)[2 * k], LittleEndian(u)[2 * k + 1]) == u[k]
  {
    if k > 0 {
      PairIsUnit(u[1..], k - 1);
    }
  }
}
