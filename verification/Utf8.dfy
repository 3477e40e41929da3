/** UTF-8 as section 3 of RFC 3629 defines it, and the strings that the path
    policy takes for well-formed. */
module Utf8 {
  import opened Bytes
  import opened PathPolicy
  import opened Utf16

  /** One character as one to four octets. */
  function Octets(c: Scalar): (b: Bytes)
    ensures 1 <= |b| <= 4
  {
    if c < 0x80 then [c]
    else if c < 0x800 then [0xC0 + c / 0x40, 0x80 + c % 0x40]
    else if c < 0x10000 then [0xE0 + c / 0x1000, 0x80 + c / 0x40 % 0x40, 0x80 + c % 0x40]
    else [0xF0 + c / 0x40000, 0x80 + c / 0x1000 % 0x40, 0x80 + c / 0x40 % 0x40, 0x80 + c % 0x40]
  }

  function OctetsOf(t: Utf16.Text): Bytes {
    if t == [] then [] else Octets(t[0]) + OctetsOf(t[1..])
  }

  lemma LengthOfOctets(c: Scalar, rest: Bytes)
    ensures Utf8Length(Octets(c) + rest) == |Octets(c)|
  {
    var b := Octets(c) + rest;
    assert b[0] == Octets(c)[0] && (|Octets(c)| > 1 ==> b[1] == Octets(c)[1]);
    assert (|Octets(c)| > 2 ==> b[2] == Octets(c)[2]) && (|Octets(c)| > 3 ==> b[3] == Octets(c)[3]);
  }

  /** A leading sequence that is taken for well-formed is that of one character. */
  lemma CharacterOf(b: Bytes) returns (c: Scalar)
    requires b != [] && Utf8Length(b) > 0
    ensures b[..Utf8Length(b)] == Octets(c)
  {
    var n := Utf8Length(b);
    if n == 1 {
      c := b[0];
    } else if n == 2 {
      c := PairOf(b);
    } else if n == 3 {
      c := TripleOf(b);
    } else {
      c := QuadOf(b);
    }
  }

  lemma PairOf(b: Bytes) returns (c: Scalar)
    requires |b| >= 2 && 0xC2 <= b[0] <= 0xDF && Continuation(b[1])
    ensures b[..2] == Octets(c)
  {
    var (x, y) := (b[0] as int - 0xC0, b[1] as int - 0x80);
    c := x * 0x40 + y;
    assert c / 0x40 == x && c % 0x40 == y;
  }

  lemma TripleOf(b: Bytes) returns (c: Scalar)
    requires |b| >= 3 && 0xE0 <= b[0] <= 0xEF && Continuation(b[1]) && Continuation(b[2])
    requires (b[0] == 0xE0 ==> b[1] >= 0xA0) && (b[0] == 0xED ==> b[1] <= 0x9F)
    ensures b[..3] == Octets(c)
  {
    var (x, y, z) := (b[0] as int - 0xE0, b[1] as int - 0x80, b[2] as int - 0x80);
    c := x * 0x1000 + y * 0x40 + z;
    assert c / 0x1000 == x && c / 0x40 == x * 0x40 + y && c % 0x40 == z;
    assert c / 0x40 % 0x40 == y;
  }

  lemma QuadOf(b: Bytes) returns (c: Scalar)
    requires |b| >= 4 && 0xF0 <= b[0] <= 0xF4 && Continuation(b[1]) && Continuation(b[2]) && Continuation(b[3])
    requires (b[0] == 0xF0 ==> b[1] >= 0x90) && (b[0] == 0xF4 ==> b[1] <= 0x8F)
    ensures b[..4] == Octets(c)
  {
    var (x, y, z, w) := (b[0] as int - 0xF0, b[1] as int - 0x80, b[2] as int - 0x80, b[3] as int - 0x80);
    c := x * 0x40000 + y * 0x1000 + z * 0x40 + w;
    assert c / 0x40000 == x && c / 0x1000 == x * 0x40 + y && c / 0x40 == x * 0x1000 + y * 0x40 + z && c % 0x40 == w;
    assert c / 0x1000 % 0x40 == y && c / 0x40 % 0x40 == z;
  }

  lemma {:induction false} OctetsAreValid(t: Utf16.Text)
    ensures ValidUtf8(OctetsOf(t))
  {
    if t != [] {
      OctetsAreValid(t[1..]);
      LengthOfOctets(t[0], OctetsOf(t[1..]));
      assert OctetsOf(t)[|Octets(t[0])|..] == OctetsOf(t[1..]);
    }
  }

  lemma OctetsCons(c: Scalar, t: Utf16.Text)
    ensures OctetsOf([c] + t) == Octets(c) + OctetsOf(t)
  {
    assert ([c] + t)[1..] == t;
  }

  lemma ValidTail(b: Bytes)
    requires b != [] && ValidUtf8(b)
    ensures Utf8Length(b) > 0 && ValidUtf8(b[Utf8Length(b)..])
  {
    hide Utf8Length;
  }

  lemma {:induction false} TextOf(b: Bytes) returns (t: Utf16.Text)
    requires ValidUtf8(b)
    ensures OctetsOf(t) == b
  {
    hide Utf8Length, Octets, ValidUtf8;
    if b == [] {
      t := [];
    } else {
      ValidTail(b);
      var n := Utf8Length(b);
      var c := CharacterOf(b);
      var rest := TextOf(b[n..]);
      hide *;
      t := [c] + rest;
      OctetsCons(c, rest);
      assert b == b[..n] + b[n..];
    }
  }

  /** The well-formed strings are exactly the encodings of texts. */
  lemma ValidExactly(b: Bytes)
    ensures ValidUtf8(b) <==> exists t :: OctetsOf(t) == b
  {
    if ValidUtf8(b) {
      var t := TextOf(b);
    }
    if t :| OctetsOf(t) == b {
      OctetsAreValid(t);
    }
  }
}
