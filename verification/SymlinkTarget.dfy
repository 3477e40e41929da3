/** Symlink containment: the lexical check on a link target, and how it relates
    to a check that resolves the target through the filesystem. */
module SymlinkTarget {
  import opened Bytes
  import opened Wrappers
  import opened PathPolicy

  datatype Node =
    | FileNode(data: Bytes, mode: nat)
    | LinkNode(target: Bytes)
    | DirNode
    | SpecialNode

  /** The entries below a payload root, by relative path. */
  type Tree = map<Path, Node>

  function Parent(p: Path): Path
    requires p != []
  {
    p[..|p| - 1]
  }

  // ---- lexical normalisation, defined from the right ----

  /** What is left of comps when the last `skip` surviving names are dropped and
      every ".." removes the name before it. */
  function Normal(comps: Path, skip: nat): (r: Path)
    ensures !HasDotDot(r)
    ensures |r| <= |comps|
  {
    if comps == [] then []
    else
      var last, init := comps[|comps| - 1], comps[..|comps| - 1];
      if last == DOT_DOT then Normal(init, skip + 1)
      else if skip > 0 then Normal(init, skip - 1)
      else Normal(init, 0) + [last]
  }

  /** How deep below the payload root the components lead. */
  function Height(comps: Path): int {
    if comps == [] then 0
    else Height(comps[..|comps| - 1]) + (if comps[|comps| - 1] == DOT_DOT then -1 else 1)
  }

  /** No prefix of the components climbs above the payload root. */
  predicate StaysInside(comps: Path) {
    forall k :: 0 <= k <= |comps| ==> Height(comps[..k]) >= 0
  }

  lemma StaysInsideInit(comps: Path)
    requires comps != []
    ensures StaysInside(comps) <==> StaysInside(comps[..|comps| - 1]) && Height(comps) >= 0
  {
    hide Height;
    var init := comps[..|comps| - 1];
    assert forall k :: 0 <= k <= |init| ==> init[..k] == comps[..k];
    assert comps[..|comps|] == comps;
    if StaysInside(init) && Height(comps) >= 0 {
      forall k | 0 <= k <= |comps| ensures Height(comps[..k]) >= 0 {
        if k <= |init| {
          assert Height(init[..k]) >= 0;
        }
      }
    }
  }

  /** Dropping names from the right of a sequence that stays inside is cutting
      its normal form, whose length is the height. */
  lemma {:induction false} NormalSkips(comps: Path, skip: nat)
    requires StaysInside(comps)
    ensures |Normal(comps, 0)| == Height(comps)
    ensures skip <= Height(comps) ==> Normal(comps, skip) == Normal(comps, 0)[..Height(comps) - skip]
  {
    if comps != [] {
      StaysInsideInit(comps);
      assert Height(comps[..|comps|]) >= 0;
      var last, init := comps[|comps| - 1], comps[..|comps| - 1];
      if last == DOT_DOT {
        NormalSkips(init, skip + 1);
        NormalSkips(init, 1);
      } else {
        NormalSkips(init, if skip > 0 then skip - 1 else 0);
      }
    }
  }

  /** One more component pushes a name, or pops one. */
  lemma NormalStep(comps: Path, c: Name)
    requires StaysInside(comps)
    ensures |Normal(comps, 0)| == Height(comps)
    ensures c != DOT_DOT ==> Normal(comps + [c], 0) == Normal(comps, 0) + [c]
    ensures c == DOT_DOT && Normal(comps, 0) != [] ==>
              Normal(comps + [c], 0) == Parent(Normal(comps, 0))
    ensures StaysInside(comps + [c]) <==> c != DOT_DOT || Normal(comps, 0) != []
  {
    assert (comps + [c])[..|comps|] == comps;
    StaysInsideInit(comps + [c]);
    assert Height(comps[..|comps|]) >= 0 && comps[..|comps|] == comps;
    NormalSkips(comps, 0);
    if Height(comps) > 0 {
      NormalSkips(comps, 1);
    }
  }

  lemma {:induction false} NamesStayInside(p: Path)
    requires !HasDotDot(p)
    ensures StaysInside(p) && Normal(p, 0) == p && Height(p) == |p|
  {
    if p != [] {
      var init := p[..|p| - 1];
      NamesStayInside(init);
      StaysInsideInit(p);
      assert p == init + [p[|p| - 1]];
    }
  }

  // ---- the lexical check ----

  datatype TargetError = NotUtf8 | Escapes | TargetsExcluded

  function TargetComponents(relative: Path, raw: Bytes): Path
    requires relative != []
  {
    Parent(relative) + Parts(raw)
  }

  predicate WellFormedTarget(raw: Bytes) {
    ValidUtf8(raw) && raw != [] && 0 !in raw && !IsAbsolute(raw)
  }

  /** What a link target must satisfy, stated without the algorithm. */
  predicate TargetAccepted(relative: Path, raw: Bytes)
    requires relative != []
  {
    && WellFormedTarget(raw)
    && StaysInside(TargetComponents(relative, raw))
    && PathIsIncluded(Normal(TargetComponents(relative, raw), 0))
  }

  /** _symlink_target_error: None exactly for the accepted targets. */
  method SymlinkTargetError(relative: Path, raw: Bytes) returns (error: Option<TargetError>)
    requires relative != [] && !HasDotDot(relative)
    ensures error.None? <==> TargetAccepted(relative, raw)
    ensures error == Some(NotUtf8) <==> !ValidUtf8(raw)
    ensures error == Some(Escapes) <==>
              ValidUtf8(raw) && !(WellFormedTarget(raw) && StaysInside(TargetComponents(relative, raw)))
  {
    hide PathIsForbidden, AllowedTopLevel, Parts, ValidUtf8, Height, Normal;
    if !ValidUtf8(raw) {
      return Some(NotUtf8);
    }
    var target := Parts(raw);
    if raw == [] || 0 in raw || IsAbsolute(raw) {
      return Some(Escapes);
    }
    var collapsed := Parent(relative);
    ghost var start := Parent(relative);
    NamesStayInside(start);
    assert start + target[..0] == start;
    var i := 0;
    while i < |target|
      invariant 0 <= i <= |target|
      invariant StaysInside(start + target[..i])
      invariant collapsed == Normal(start + target[..i], 0)
    {
      var component := target[i];
      NormalStep(start + target[..i], component);
      assert start + target[..i + 1] == start + target[..i] + [component];
      if component == DOT_DOT {
        if collapsed == [] {
          assert (start + target)[..|start| + i + 1] == start + target[..i] + [component];
          ClimbIsForGood(start + target, |start| + i + 1);
          return Some(Escapes);
        }
        collapsed := collapsed[..|collapsed| - 1];
      } else {
        collapsed := collapsed + [component];
      }
      i := i + 1;
    }
    assert target[..i] == target;
    if collapsed == [] || !PathIsIncluded(collapsed) {
      return Some(TargetsExcluded);
    }
    error := None;
  }

  lemma ClimbIsForGood(comps: Path, k: nat)
    requires k <= |comps| && !StaysInside(comps[..k])
    ensures !StaysInside(comps)
  {
    var j :| 0 <= j <= k && Height(comps[..k][..j]) < 0;
    assert comps[..k][..j] == comps[..j];
  }

  // ---- resolving through the tree ----

  /** Where Path.resolve(strict=False) leads, as far as the payload can tell:
      below the root, out of it, or around a loop of links. */
  datatype Resolution = Inside(path: Path) | Outside | Loop

  function Resolve(t: Tree, at: Path, rest: Path, links: nat): Resolution
    decreases links, |rest|
  {
    if rest == [] then Inside(at)
    else if rest[0] == DOT_DOT then
      if at == [] then Outside else Resolve(t, Parent(at), rest[1..], links)
    else
      var next := at + [rest[0]];
      if next in t && t[next].LinkNode? then
        if IsAbsolute(t[next].target) then Outside
        else if links == 0 then Loop
        else Resolve(t, at, Parts(t[next].target) + rest[1..], links - 1)
      else Resolve(t, next, rest[1..], links)
  }

  /** _symlink_error finds nothing wrong with the link at p. */
  predicate ResolvedAccepted(t: Tree, p: Path, raw: Bytes, links: nat)
    requires p != []
  {
    !IsAbsolute(raw) &&
    match Resolve(t, Parent(p), Parts(raw), links)
    case Inside(q) => !HasDotDot(q) && PathIsIncluded(q)
    case Outside => false
    case Loop => false
  }

  ghost predicate IsLink(t: Tree, p: Path) {
    p in t && t[p].LinkNode?
  }

  /** Every link passes the lexical check, and none of them is reached through
      another link: only the last place a target names may be a link again. */
  ghost predicate PlainLinks(t: Tree) {
    forall p :: IsLink(t, p) ==>
      && p != [] && !HasDotDot(p)
      && TargetAccepted(p, t[p].target)
      && PlainWay(t, Parent(p), Parts(t[p].target))
  }

  ghost predicate PlainWay(t: Tree, start: Path, comps: Path) {
    forall k :: 0 <= k < |comps| ==> !IsLink(t, Normal(start + comps[..k], 0))
  }

  lemma ResolveStep(t: Tree, at: Path, c: Name, rest: Path, links: nat)
    requires StaysInside(at) && StaysInside(at + [c]) && !IsLink(t, Normal(at + [c], 0))
    ensures Resolve(t, Normal(at, 0), [c] + rest, links) == Resolve(t, Normal(at + [c], 0), rest, links)
  {
    hide Normal, StaysInside, Parts;
    NormalStep(at, c);
    assert ([c] + rest)[1..] == rest;
  }

  /** With no link on the way, resolving up to the last component is lexical. */
  lemma {:induction false} ResolvePlainWay(t: Tree, start: Path, comps: Path, k: nat, links: nat)
    requires k < |comps| && StaysInside(start + comps) && PlainWay(t, start, comps)
    ensures Resolve(t, Normal(start + comps[..k], 0), comps[k..], links)
         == Resolve(t, Normal(start + comps[..|comps| - 1], 0), comps[|comps| - 1..], links)
    decreases |comps| - k
  {
    hide Normal, StaysInside, Resolve;
    if k < |comps| - 1 {
      var at, c := start + comps[..k], comps[k];
      StaysInsidePrefix(start + comps, |start| + k);
      StaysInsidePrefix(start + comps, |start| + k + 1);
      assert (start + comps)[..|start| + k] == at;
      assert (start + comps)[..|start| + k + 1] == at + [c] == start + comps[..k + 1];
      assert comps[k..] == [c] + comps[k + 1..];
      ResolveStep(t, at, c, comps[k + 1..], links);
      ResolvePlainWay(t, start, comps, k + 1, links);
    }
  }

  lemma StaysInsidePrefix(comps: Path, k: nat)
    requires k <= |comps| && StaysInside(comps)
    ensures StaysInside(comps[..k])
  {
    forall j | 0 <= j <= k ensures Height(comps[..k][..j]) >= 0 {
      assert comps[..k][..j] == comps[..j];
    }
  }

  /** The last step: the lexical result, or one more link to follow from it. */
  lemma ResolveLast(t: Tree, start: Path, comps: Path, links: nat)
    requires comps != [] && StaysInside(start + comps)
    ensures var final := Normal(start + comps, 0);
            var r := Resolve(t, Normal(start + comps[..|comps| - 1], 0), comps[|comps| - 1..], links);
            if comps[|comps| - 1] != DOT_DOT && IsLink(t, final) then
              r == (if IsAbsolute(t[final].target) then Outside else if links == 0 then Loop
                    else Resolve(t, Parent(final), Parts(t[final].target), links - 1))
            else r == Inside(final)
  {
    var n := |comps| - 1;
    var at, c := start + comps[..n], comps[n];
    StaysInsidePrefix(start + comps, |start| + n);
    assert (start + comps)[..|start| + n] == at;
    assert start + comps == at + [c];
    NormalStep(at, c);
    var rest := comps[n..];
    assert rest == [c] && rest[1..] == [];
    if c != DOT_DOT {
      var final := Normal(start + comps, 0);
      assert Parent(final) == Normal(at, 0);
      if IsLink(t, final) {
        assert Parts(t[final].target) + rest[1..] == Parts(t[final].target);
      }
    }
  }

  // ---- chains of links ----

  /** The link that a link of the tree leads to, if its target is one again. */
  function NextLink(t: Tree, p: Path): (r: Option<Path>)
    ensures r.Some? ==> IsLink(t, r.value)
  {
    if p == [] || p !in t || !t[p].LinkNode? then None
    else
      var comps := Parts(t[p].target);
      var final := Normal(Parent(p) + comps, 0);
      if comps != [] && comps[|comps| - 1] != DOT_DOT && final in t && t[final].LinkNode? then Some(final) else None
  }

  /** The n-th link on the way from p. */
  function Hop(t: Tree, p: Path, n: nat): Option<Path> {
    if n == 0 then Some(p)
    else
      var before := Hop(t, p, n - 1);
      if before == None then None else NextLink(t, before.value)
  }

  /** The links from p run into a circle. */
  ghost predicate Circles(t: Tree, p: Path) {
    exists i: nat, j: nat :: i < j && Hop(t, p, j).Some? && Hop(t, p, i) == Hop(t, p, j)
  }

  lemma {:induction false} HopAfterFirst(t: Tree, p: Path, n: nat)
    requires NextLink(t, p).Some?
    ensures Hop(t, p, n + 1) == Hop(t, NextLink(t, p).value, n)
  {
    if n > 0 {
      HopAfterFirst(t, p, n - 1);
    } else {
      assert Hop(t, p, 0) == Some(p);
    }
  }

  /** In a tree whose links are not reached through other links, the resolving
      check accepts a link exactly when the chain of links from it ends within
      the number of hops allowed; otherwise it is still following links. */
  lemma {:induction false} ResolvedExactly(t: Tree, p: Path, links: nat)
    requires PlainLinks(t) && IsLink(t, p)
    ensures ResolvedAccepted(t, p, t[p].target, links) <==> Hop(t, p, links + 1) == None
    ensures Resolve(t, Parent(p), Parts(t[p].target), links).Loop? <==> Hop(t, p, links + 1).Some?
    decreases links
  {
    hide PathIsIncluded, PathIsForbidden, ValidUtf8, Height, Normal, Hop, Resolve, Parts;
    var start, comps := Parent(p), Parts(t[p].target);
    var final := Normal(start + comps, 0);
    NamesStayInside(start);
    if comps == [] {
      assert start + comps == start;
      ResolveNothing(t, start, links);
      NoNextHop(t, p, links);
    } else {
      assert start + comps[..0] == start && comps[0..] == comps;
      ResolvePlainWay(t, start, comps, 0, links);
      ResolveLast(t, start, comps, links);
      if comps[|comps| - 1] != DOT_DOT && IsLink(t, final) {
        FirstHop(t, p, links);
        if links > 0 {
          ResolvedExactly(t, final, links - 1);
        }
      } else {
        NoNextHop(t, p, links);
      }
    }
  }

  lemma ResolveNothing(t: Tree, at: Path, links: nat)
    ensures Resolve(t, at, [], links) == Inside(at)
  {
  }

  lemma {:induction false} NoNextHop(t: Tree, p: Path, n: nat)
    requires NextLink(t, p) == None
    ensures Hop(t, p, n + 1) == None
  {
    if n > 0 {
      NoNextHop(t, p, n - 1);
    } else {
      assert Hop(t, p, 0) == Some(p);
    }
  }

  lemma FirstHop(t: Tree, p: Path, n: nat)
    requires NextLink(t, p).Some?
    ensures Hop(t, p, n + 1) == Hop(t, NextLink(t, p).value, n)
    ensures n == 0 ==> Hop(t, p, n + 1).Some?
  {
    HopAfterFirst(t, p, n);
  }

  // ---- a chain ends, or circles ----

  ghost function Links(t: Tree): set<Path> { set p | p in t && t[p].LinkNode? }

  lemma {:induction false} HopEnds(t: Tree, p: Path, m: nat, n: nat)
    requires m <= n && Hop(t, p, m) == None
    ensures Hop(t, p, n) == None
  {
    hide NextLink;
    if m < n { HopEnds(t, p, m, n - 1); }
  }

  /** The first n links. */
  function Passed(t: Tree, p: Path, n: nat): set<Path> {
    if n == 0 then {}
    else Passed(t, p, n - 1) + (if Hop(t, p, n - 1).Some? then {Hop(t, p, n - 1).value} else {})
  }

  lemma {:induction false} NotPassed(t: Tree, p: Path, m: nat, j: nat)
    requires !Circles(t, p) && m <= j && Hop(t, p, j).Some?
    ensures Hop(t, p, j).value !in Passed(t, p, m)
  {
    hide Hop, Circles;
    if m > 0 {
      NotPassed(t, p, m - 1, j);
      NoReturn(t, p, m - 1, j);
    }
  }

  /** Without a circle the first n links are n different ones. */
  lemma {:induction false} PassedSize(t: Tree, p: Path, n: nat)
    requires IsLink(t, p) && !Circles(t, p) && (n > 0 ==> Hop(t, p, n - 1).Some?)
    ensures |Passed(t, p, n)| == n && Passed(t, p, n) <= Links(t)
  {
    hide Hop, Circles;
    if n > 0 {
      HopIsLink(t, p, n - 1);
      NotPassed(t, p, n - 1, n - 1);
      if n > 1 { HopBefore(t, p, n - 1); }
      PassedSize(t, p, n - 1);
      hide Links;
    }
  }

  lemma HopBefore(t: Tree, p: Path, n: nat)
    requires Hop(t, p, n).Some?
    ensures n > 0 ==> Hop(t, p, n - 1).Some?
  {
    hide NextLink;
  }

  lemma NoReturn(t: Tree, p: Path, i: nat, j: nat)
    requires !Circles(t, p) && i < j && Hop(t, p, j).Some?
    ensures Hop(t, p, i) != Hop(t, p, j)
  {
    hide Hop;
  }

  lemma HopIsLink(t: Tree, p: Path, n: nat)
    requires IsLink(t, p) && Hop(t, p, n).Some?
    ensures Hop(t, p, n).value in Links(t)
  {
    hide NextLink;
  }

  lemma SubsetSize(a: set<Path>, b: set<Path>)
    requires a <= b
    ensures |a| <= |b|
  {
    if a != {} {
      var x :| x in a;
      SubsetSize(a - {x}, b - {x});
    }
  }

  /** A chain that does not circle ends within as many hops as there are links. */
  lemma ChainEnds(t: Tree, p: Path, links: nat)
    requires IsLink(t, p) && !Circles(t, p) && links >= |Links(t)|
    ensures Hop(t, p, links + 1) == None
  {
    hide Hop, Circles, Passed, Links;
    var n := |Links(t)|;
    if Hop(t, p, n).Some? {
      PassedSize(t, p, n + 1);
      SubsetSize(Passed(t, p, n + 1), Links(t));
    }
    HopEnds(t, p, n, links + 1);
  }

  lemma {:induction false} SameOnwards(t: Tree, p: Path, i: nat, j: nat, m: nat)
    requires Hop(t, p, i) == Hop(t, p, j)
    ensures Hop(t, p, i + m) == Hop(t, p, j + m)
  {
    hide NextLink;
    if m > 0 { SameOnwards(t, p, i, j, m - 1); }
  }

  /** A chain that circles never ends. */
  lemma {:induction false} CircleGoesOn(t: Tree, p: Path, n: nat)
    requires Circles(t, p)
    ensures Hop(t, p, n).Some?
  {
    hide Hop;
    var i: nat, j: nat :| i < j && Hop(t, p, j).Some? && Hop(t, p, i) == Hop(t, p, j);
    if n <= j {
      if Hop(t, p, n) == None { HopEnds(t, p, n, j); }
    } else {
      CircleGoesOn(t, p, n - (j - i));
      SameOnwards(t, p, i, j, n - j);
    }
  }

  /** In such a tree every link that passes the lexical check passes the resolving
      check too, unless its chain of links circles: then no number of hops leads
      to an end. As many hops as there are links are enough for the others. */
  lemma LexicalImpliesResolved(t: Tree, p: Path)
    requires PlainLinks(t) && IsLink(t, p)
    ensures !Circles(t, p) ==> forall links: nat :: links >= |Links(t)| ==> ResolvedAccepted(t, p, t[p].target, links)
    ensures Circles(t, p) ==> forall links: nat :: Resolve(t, Parent(p), Parts(t[p].target), links).Loop?
  {
    assert p != [];
    hide ResolvedAccepted, Resolve, Circles, PlainLinks, Parts, Hop;
    if Circles(t, p) {
      forall links: nat ensures Resolve(t, Parent(p), Parts(t[p].target), links).Loop? {
        ResolvedExactly(t, p, links);
        CircleGoesOn(t, p, links + 1);
      }
    } else {
      forall links: nat | links >= |Links(t)| ensures ResolvedAccepted(t, p, t[p].target, links) {
        ResolvedExactly(t, p, links);
        ChainEnds(t, p, links);
      }
    }
  }

  /** A link to itself passes the lexical check, and circles. */
  lemma SelfLinkCircles(name: Name)
    requires Text(name) == "config"
    ensures var t: Tree := map[[name] := LinkNode(name)]; PlainLinks(t) && IsLink(t, [name]) && Circles(t, [name])
  {
    var t: Tree := map[[name] := LinkNode(name)];
    var p: Path := [name];
    ConfigIncluded(name);
    assert Posix(p) == name;
    PartsOfPosix(p);
    ConfigIsTarget(name);
    NamesStayInside(p);
    assert Parent(p) == [] && [] + p == p && p[..0] == [];
    hide PathIsIncluded, WellFormedTarget, Posix, Text, Parts, Height;
    assert Normal([], 0) == [];
    assert NextLink(t, p) == Some(p);
    assert Hop(t, p, 0) == Some(p);
    assert Hop(t, p, 1) == Some(p);
  }

  lemma ConfigIsTarget(name: Name)
    requires Text(name) == "config"
    ensures WellFormedTarget(name)
  {
    assert forall i :: 0 <= i < |name| ==> name[i] == Text(name)[i] as int && Text(name)[i] in {'c', 'o', 'n', 'f', 'i', 'g'};
    AsciiIsUtf8(name);
  }

  /** Links that lead ever further down some ranking do not circle. */
  ghost predicate Ranked(t: Tree, rank: Path -> nat) {
    forall p :: IsLink(t, p) && NextLink(t, p).Some? ==> rank(NextLink(t, p).value) < rank(p)
  }

  lemma {:induction false} RankFalls(t: Tree, p: Path, rank: Path -> nat, i: nat, j: nat)
    requires IsLink(t, p) && Ranked(t, rank) && i < j && Hop(t, p, j).Some?
    ensures Hop(t, p, i).Some? && rank(Hop(t, p, j).value) < rank(Hop(t, p, i).value)
  {
    hide NextLink;
    HopIsLink(t, p, j - 1);
    if i < j - 1 {
      RankFalls(t, p, rank, i, j - 1);
    }
  }

  /** So with ranked links the two checks agree without any proviso. */
  lemma RankedLinksResolve(t: Tree, p: Path, rank: Path -> nat, links: nat)
    requires PlainLinks(t) && IsLink(t, p) && Ranked(t, rank) && links >= |Links(t)|
    ensures ResolvedAccepted(t, p, t[p].target, links)
  {
    forall i: nat, j: nat | i < j && Hop(t, p, j).Some? ensures Hop(t, p, i) != Hop(t, p, j) {
      RankFalls(t, p, rank, i, j);
    }
    LexicalImpliesResolved(t, p);
    hide Hop;
  }
}
