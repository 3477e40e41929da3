/** Where a needle occurs in a byte string, and how bytes.count counts it. */
module Occurrences {
  import opened Bytes

  predicate At(s: Bytes, n: Bytes, i: nat) {
    i + |n| <= |s| && s[i..i + |n|] == n
  }

  ghost predicate Occurs(s: Bytes, n: Bytes) {
    exists i: nat :: At(s, n, i)
  }

  /** The number of positions at which the needle occurs. */
  function Positions(s: Bytes, n: Bytes): nat {
    if |s| < |n| || s == [] then 0 else (if s[..|n|] == n then 1 else 0) + Positions(s[1..], n)
  }

  /** s.count(n): from the left, without overlaps. */
  function Count(s: Bytes, n: Bytes): nat
    requires n != []
  {
    if |s| < |n| then 0
    else if s[..|n|] == n then 1 + Count(s[|n|..], n)
    else Count(s[1..], n)
  }

  /** No proper prefix of the needle is also a suffix of it. */
  predicate Borderless(n: Bytes) {
    forall k :: 0 < k < |n| ==> n[k..] != n[..|n| - k]
  }

  lemma AtShifted(s: Bytes, n: Bytes)
    requires s != []
    ensures forall i: nat :: i > 0 ==> At(s, n, i) == At(s[1..], n, i - 1)
  {
    forall i: nat | i > 0 ensures At(s, n, i) == At(s[1..], n, i - 1) {
      if i + |n| <= |s| {
        assert s[1..][i - 1..i - 1 + |n|] == s[i..i + |n|];
      }
    }
  }

  lemma {:induction false} CountFindsOccurrences(s: Bytes, n: Bytes)
    requires n != []
    ensures Count(s, n) > 0 <==> Occurs(s, n)
    ensures Positions(s, n) > 0 <==> Occurs(s, n)
  {
    if |s| >= |n| {
      AtShifted(s, n);
      if s[..|n|] == n {
        assert At(s, n, 0);
      } else {
        CountFindsOccurrences(s[1..], n);
        if Occurs(s, n) {
          var i: nat :| At(s, n, i);
          assert i > 0 && At(s[1..], n, i - 1);
        }
        if Occurs(s[1..], n) {
          var i: nat :| At(s[1..], n, i);
          assert At(s, n, i + 1);
        }
      }
    }
  }

  /** Inside an occurrence of a borderless needle no other one begins. */
  lemma {:induction false} SkipsNothing(s: Bytes, n: Bytes, k: nat)
    requires n != [] && Borderless(n) && At(s, n, 0) && 0 < k <= |n|
    ensures Positions(s[k..], n) == Positions(s[|n|..], n)
    decreases |n| - k
  {
    if k < |n| {
      SkipsNothing(s, n, k + 1);
      assert |s[k..]| >= |n| ==> n[k..] == s[k..][..|n| - k] == s[k..][..|n|][..|n| - k];
      assert s[k..][1..] == s[k + 1..];
    }
  }

  /** For a borderless needle counting without overlaps counts everything. */
  lemma {:induction false} BorderlessCount(s: Bytes, n: Bytes)
    requires n != [] && Borderless(n)
    ensures Count(s, n) == Positions(s, n)
  {
    if |s| >= |n| {
      if s[..|n|] == n {
        BorderlessCount(s[|n|..], n);
        assert At(s, n, 0);
        SkipsNothing(s, n, 1);
      } else {
        BorderlessCount(s[1..], n);
      }
    }
  }

  /** A needle with a border k occurs twice in itself followed by what it lacks. */
  lemma BorderCountedOnce(n: Bytes, k: nat)
    requires 0 < k < |n| && n[k..] == n[..|n| - k]
    ensures var s := n + n[|n| - k..]; Count(s, n) == 1 && Positions(s, n) >= 2
  {
    var c := n[|n| - k..];
    assert |c| == k && n[..|n| - k] + c == n;
    OccursAgain(n, c, k);
    StartsOnce(n, c);
    LaterOccurrence(n + c, n, k);
  }

  /** bytes.count counts every position in every string exactly for the needles
      without a border. */
  lemma CountsEverythingExactly(n: Bytes)
    requires n != []
    ensures (forall s :: Count(s, n) == Positions(s, n)) <==> Borderless(n)
  {
    if Borderless(n) {
      forall s ensures Count(s, n) == Positions(s, n) {
        BorderlessCount(s, n);
      }
    } else {
      hide Count, Positions;
      var k :| 0 < k < |n| && n[k..] == n[..|n| - k];
      BorderCountedOnce(n, k);
    }
  }

  lemma OccursAgain(n: Bytes, c: Bytes, k: nat)
    requires k <= |n| && n[k..] + c == n
    ensures At(n + c, n, k)
  {
    assert (n + c)[k..k + |n|] == n[k..] + c;
  }

  /** An occurrence at the start, and too little after it for another to be counted. */
  lemma StartsOnce(n: Bytes, c: Bytes)
    requires |c| < |n|
    ensures Count(n + c, n) == 1 && Positions(n + c, n) == 1 + Positions((n + c)[1..], n)
  {
    assert (n + c)[..|n|] == n && (n + c)[|n|..] == c;
  }

  lemma LaterOccurrence(s: Bytes, n: Bytes, k: nat)
    requires n != [] && 0 < k && At(s, n, k)
    ensures Positions(s[1..], n) >= 1
  {
    AtShifted(s, n);
    assert At(s[1..], n, k - 1);
    CountFindsOccurrences(s[1..], n);
  }

  /** A needle and one byte that it does not begin with. */
  lemma NeedleAndByte(n: Bytes, x: byte)
    requires n != [] && x != n[0]
    ensures Count(n, n) == 1 && Count(n + [x], n) == 1 && Positions(n + [x], n) == 1
  {
    var s := n + [x];
    assert n[..|n|] == n && s[..|n|] == n && n[|n|..] == [] && s[|n|..] == [x];
    assert Count([], n) == 0;
    assert Count([x], n) == 0 by {
      if |n| == 1 { assert [x][..1] == [x] && [x][1..] == []; }
    }
    assert Positions(s[1..], n) == 0 by {
      if Occurs(s[1..], n) {
        var i: nat :| At(s[1..], n, i);
        assert i == 0 && s[1..][..|n|] == n;
        AllTheSame(n, x);
      }
      CountFindsOccurrences(s[1..], n);
    }
  }

  lemma {:induction false} AllTheSame(n: Bytes, x: byte)
    requires n != [] && (n + [x])[1..] == n
    ensures n[0] == x
    decreases |n|
  {
    var m := n[1..];
    assert (n + [x])[1..] == m + [x];
    if m != [] {
      assert n[0] == (m + [x])[0] == m[0];
      assert (m + [x])[1..] == m by {
        assert n[1..] == (m + [x])[1..];
      }
      AllTheSame(m, x);
    }
  }

  /** Positions never lie twice: what a window after a carried tail sees anew. */
  lemma {:induction false} NewPositions(w: Bytes, t: Bytes, c: Bytes, n: Bytes)
    requires n != [] && |t| <= |w| && w[|w| - |t|..] == t && (|t| >= |n| - 1 || t == w)
    ensures Positions(w + c, n) - Positions(w, n) == Positions(t + c, n) - Positions(t, n)
  {
    if |w| > |t| {
      NewPositions(w[1..], t, c, n);
      FirstPosition(w, n);
      FirstPosition(w + c, n);
      hide Positions;
      assert (w + c)[1..] == w[1..] + c;
      assert (w + c)[..|n|] == w[..|n|];
    } else {
      assert w == t;
    }
  }

  lemma FirstPosition(s: Bytes, n: Bytes)
    requires n != [] && |s| >= |n|
    ensures Positions(s, n) == (if s[..|n|] == n then 1 else 0) + Positions(s[1..], n)
  {
  }

  // ---- what is counted ----

  predicate Rising(places: seq<nat>, step: nat) {
    forall i, j :: 0 <= i < j < |places| ==> places[i] + step <= places[j]
  }

  function Shifted(places: seq<nat>, k: nat): (r: seq<nat>)
    ensures |r| == |places| && forall i :: 0 <= i < |r| ==> r[i] == places[i] + k
  {
    seq(|places|, i requires 0 <= i < |places| => places[i] + k)
  }

  lemma AtBehind(s: Bytes, n: Bytes, k: nat, i: nat)
    requires k <= |s|
    ensures At(s[k..], n, i) <==> At(s, n, i + k)
  {
    if i + k + |n| <= |s| {
      assert s[k..][i..i + |n|] == s[i + k..i + k + |n|];
    }
  }

  /** Positions is the number of places at which the needle occurs. */
  lemma {:induction false} PositionsAreAll(s: Bytes, n: Bytes) returns (places: seq<nat>)
    requires n != []
    ensures Rising(places, 1) && |places| == Positions(s, n) && forall i :: i in places <==> At(s, n, i)
  {
    if |s| < |n| {
      places := [];
    } else {
      var rest := PositionsAreAll(s[1..], n);
      var later := Shifted(rest, 1);
      forall i: nat ensures i in later <==> i > 0 && At(s, n, i) {
        if i > 0 {
          AtBehind(s, n, 1, i - 1);
          if i - 1 in rest {
            var k :| 0 <= k < |rest| && rest[k] == i - 1;
            assert later[k] == i;
          }
        }
      }
      places := (if At(s, n, 0) then [0] else []) + later;
    }
  }

  /** Places of the needle that do not overlap. */
  ghost predicate Disjoint(s: Bytes, n: Bytes, places: seq<nat>) {
    Rising(places, |n|) && forall i :: 0 <= i < |places| ==> At(s, n, places[i])
  }

  /** That many occurrences can be found without overlap, and no more. */
  lemma {:induction false} CountIsReached(s: Bytes, n: Bytes) returns (places: seq<nat>)
    requires n != []
    ensures Disjoint(s, n, places) && |places| == Count(s, n)
  {
    if |s| < |n| {
      places := [];
    } else if s[..|n|] == n {
      var rest := CountIsReached(s[|n|..], n);
      hide Count;
      DisjointBehind(s, n, |n|, rest);
      places := [0] + Shifted(rest, |n|);
    } else {
      var rest := CountIsReached(s[1..], n);
      hide Count;
      DisjointBehind(s, n, 1, rest);
      places := Shifted(rest, 1);
    }
  }

  lemma DisjointBehind(s: Bytes, n: Bytes, k: nat, rest: seq<nat>)
    requires k <= |s| && Disjoint(s[k..], n, rest)
    ensures Disjoint(s, n, Shifted(rest, k))
  {
    hide At;
    forall i | 0 <= i < |rest| ensures At(s, n, rest[i] + k) {
      AtBehind(s, n, k, rest[i]);
    }
  }

  lemma {:induction false} CountIsMost(s: Bytes, n: Bytes, places: seq<nat>)
    requires n != [] && Disjoint(s, n, places)
    ensures |places| <= Count(s, n)
    decreases |s|
  {
    if places != [] {
      FirstPlace(s, n, places);
      if s[..|n|] == n {
        DisjointAhead(s, n, |n|, places[1..]);
        CountIsMost(s[|n|..], n, Lowered(places[1..], |n|));
      } else {
        DisjointAhead(s, n, 1, places);
        CountIsMost(s[1..], n, Lowered(places, 1));
      }
    }
  }

  /** What comes after a first occurrence, or after the first byte. */
  lemma FirstPlace(s: Bytes, n: Bytes, places: seq<nat>)
    requires n != [] && Disjoint(s, n, places) && places != []
    ensures |s| >= |n| && Disjoint(s, n, places[1..]) && forall i :: 0 <= i < |places| - 1 ==> places[1..][i] >= |n|
    ensures s[..|n|] != n ==> forall i :: 0 <= i < |places| ==> places[i] >= 1
  {
    assert At(s, n, places[0]);
    forall i | 0 <= i < |places| && places[i] == 0 ensures s[..|n|] == n {
      assert At(s, n, places[i]);
    }
    hide At;
  }

  function Lowered(places: seq<nat>, k: nat): (r: seq<nat>)
    requires forall i :: 0 <= i < |places| ==> places[i] >= k
    ensures |r| == |places| && forall i :: 0 <= i < |r| ==> r[i] == places[i] - k
  {
    seq(|places|, i requires 0 <= i < |places| => (places[i] - k) as nat)
  }

  lemma DisjointAhead(s: Bytes, n: Bytes, k: nat, places: seq<nat>)
    requires k <= |s| && Disjoint(s, n, places) && forall i :: 0 <= i < |places| ==> places[i] >= k
    ensures Disjoint(s[k..], n, Lowered(places, k))
  {
    hide At;
    forall i | 0 <= i < |places| ensures At(s[k..], n, places[i] - k) {
      AtBehind(s, n, k, places[i] - k);
    }
  }
}
