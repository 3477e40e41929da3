/** Python's sorted() over a set of strings. */
module Ordering {
  /** Comparison by code point. */
  predicate Less(a: string, b: string) {
    b != [] && (a == [] || a[0] < b[0] || (a[0] == b[0] && Less(a[1..], b[1..])))
  }

  lemma {:induction false} LessTotal(a: string, b: string)
    ensures Less(a, b) || a == b || Less(b, a)
    ensures !(Less(a, b) && Less(b, a)) && (a == b ==> !Less(a, b))
  {
    if a != [] && b != [] {
      LessTotal(a[1..], b[1..]);
      if a[0] == b[0] && a[1..] == b[1..] {
        assert a == [a[0]] + a[1..] == b;
      }
    }
  }

  lemma {:induction false} LessTransitive(a: string, b: string, c: string)
    requires Less(a, b) && Less(b, c)
    ensures Less(a, c)
  {
    if a != [] && a[0] == b[0] == c[0] {
      LessTransitive(a[1..], b[1..], c[1..]);
    }
  }

  ghost predicate Increasing(s: seq<string>) {
    forall i, j :: 0 <= i < j < |s| ==> Less(s[i], s[j])
  }

  /** The increasing list of the members of a set. */
  ghost predicate Lists(l: seq<string>, s: set<string>) {
    Increasing(l) && |l| == |s| && forall x :: x in l <==> x in s
  }

  lemma {:induction false} ListsIsUnique(l: seq<string>, m: seq<string>, s: set<string>)
    requires Lists(l, s) && Lists(m, s)
    ensures l == m
    decreases |l|
  {
    if l != [] {
      assert l[0] in s && exists i :: 0 <= i < |m| && m[i] == l[0];
      var i :| 0 <= i < |m| && m[i] == l[0];
      assert m[0] in s && exists j :: 0 <= j < |l| && l[j] == m[0];
      var j :| 0 <= j < |l| && l[j] == m[0];
      LessTotal(l[0], m[0]);
      assert l[0] == m[0];
      RestLists(l, s);
      RestLists(m, s);
      ListsIsUnique(l[1..], m[1..], s - {l[0]});
      assert l == [l[0]] + l[1..] && m == [m[0]] + m[1..];
    }
  }

  lemma RestLists(l: seq<string>, s: set<string>)
    requires l != [] && Lists(l, s)
    ensures Lists(l[1..], s - {l[0]})
  {
    forall x ensures x in l[1..] <==> x in s - {l[0]} {
      if x in l[1..] {
        var i :| 0 <= i < |l[1..]| && l[1..][i] == x;
        assert l[i + 1] == x && Less(l[0], l[i + 1]);
        LessTotal(l[0], x);
        assert x in l;
      }
      if x in s && x != l[0] {
        var i :| 0 <= i < |l| && l[i] == x;
        assert l[1..][i - 1] == x;
      }
    }
  }

  /** Insertion of a new value into an increasing list. */
  function Insert(l: seq<string>, x: string): seq<string> {
    if l == [] || Less(x, l[0]) then [x] + l else [l[0]] + Insert(l[1..], x)
  }

  lemma {:induction false} InsertMembers(l: seq<string>, x: string)
    ensures forall y :: y in Insert(l, x) <==> y in l || y == x
    ensures |Insert(l, x)| == |l| + 1
  {
    if l != [] && !Less(x, l[0]) {
      InsertMembers(l[1..], x);
      assert l == [l[0]] + l[1..];
    }
  }

  lemma {:induction false} InsertIncreasing(l: seq<string>, x: string)
    requires Increasing(l) && x !in l
    ensures Increasing(Insert(l, x))
  {
    var r := Insert(l, x);
    if l != [] {
      LessTotal(x, l[0]);
      if Less(x, l[0]) {
        forall j | 0 < j < |r| ensures Less(x, r[j]) {
          if j > 1 { LessTransitive(x, l[0], l[j - 1]); }
        }
      } else {
        assert forall i :: 0 <= i < |l[1..]| ==> l[1..][i] == l[i + 1];
        InsertIncreasing(l[1..], x);
        InsertMembers(l[1..], x);
        forall j | 0 < j < |r| ensures Less(l[0], r[j]) {
          assert r[j] in Insert(l[1..], x);
          if r[j] != x {
            var i :| 0 <= i < |l[1..]| && l[1..][i] == r[j];
            assert Less(l[0], l[i + 1]);
          }
        }
      }
    }
  }

  ghost function Sorted(s: set<string>): (l: seq<string>)
    ensures Lists(l, s)
  {
    SortedExists(s);
    var l :| Lists(l, s);
    l
  }

  lemma {:induction false} SortedExists(s: set<string>)
    ensures exists l :: Lists(l, s)
  {
    if s == {} {
      assert Lists([], s);
    } else {
      var x :| x in s;
      SortedExists(s - {x});
      var l :| Lists(l, s - {x});
      InsertMembers(l, x);
      InsertIncreasing(l, x);
      assert Lists(Insert(l, x), s);
    }
  }

  /** sorted(s) */
  method Sort(s: set<string>) returns (l: seq<string>)
    ensures l == Sorted(s)
  {
    l := [];
    var left := s;
    while left != {}
      invariant left <= s && Lists(l, s - left)
      decreases |left|
    {
      var x :| x in left;
      InsertMembers(l, x);
      InsertIncreasing(l, x);
      assert s - (left - {x}) == (s - left) + {x};
      l := Insert(l, x);
      left := left - {x};
    }
    assert s - left == s;
    ListsIsUnique(l, Sorted(s), s);
  }
}
