/** What stands on the pane and what the calls say, read off the stream. */
module PaneText {
  import opened ToolBurst
  import opened AgentStream

  // ---- names and details ----

  predicate BlankIn(s: string, i: int, j: int) {
    0 <= i <= j <= |s| && forall k :: i <= k < j ==> IsSpace(s[k])
  }

  /** Characters i up to j of s, with white space before and behind, and none at either end. */
  predicate CutAt(s: string, i: int, j: int) {
    && 0 <= i <= j <= |s| && BlankIn(s, 0, i) && BlankIn(s, j, |s|)
    && (i < j ==> !IsSpace(s[i]) && !IsSpace(s[j - 1]))
  }

  /** s is t between white space. */
  ghost predicate Around(s: string, t: string) { exists i, j :: CutAt(s, i, j) && t == s[i..j] }

  lemma OneCut(s: string, i: int, j: int, k: int, l: int)
    requires CutAt(s, i, j) && CutAt(s, k, l)
    ensures s[i..j] == s[k..l]
  {
    hide IsSpace;
    if i < j && k < l {
      assert i == k && j == l;
    }
  }

  lemma {:induction false} StripCuts(s: string) returns (i: int, j: int)
    ensures CutAt(s, i, j) && Strip(s) == s[i..j]
  {
    hide IsSpace;
    if s == "" {
      i, j := 0, 0;
    } else if IsSpace(s[0]) {
      i, j := StripCuts(s[1..]);
      assert s[1..][i..j] == s[i + 1..j + 1];
      i, j := i + 1, j + 1;
    } else if IsSpace(s[|s| - 1]) {
      i, j := StripCuts(s[..|s| - 1]);
      assert s[..|s| - 1][i..j] == s[i..j];
    } else {
      i, j := 0, |s|;
    }
  }

  /** A held call bears the name without its white space, or a question mark if
      nothing is left of it. */
  lemma NamedExactly(name: string, t: string)
    ensures Strip(name) == t <==> Around(name, t)
    ensures Around(name, t) ==> Named(name) == if t == "" then "?" else t
  {
    var i, j := StripCuts(name);
    hide Strip, IsSpace, BlankIn;
    if k, l :| CutAt(name, k, l) && t == name[k..l] {
      OneCut(name, i, j, k, l);
    }
    NamedIs(name);
  }

  lemma NamedIs(name: string)
    ensures Named(name) == if Strip(name) == "" then "?" else Strip(name)
  {
    if name == "" {
      assert !IsSpace('?');
      assert Strip("?") == "?";
    }
    hide IsSpace;
  }

  /** The white space of Unicode, as Python strips it. */
  lemma SpacesAre(c: char)
    ensures IsSpace(c) <==>
              (c as int) in {9, 10, 11, 12, 13, 28, 29, 30, 31, 32, 0x85, 0xa0, 0x1680, 0x2000, 0x2001, 0x2002, 0x2003, 0x2004,
                             0x2005, 0x2006, 0x2007, 0x2008, 0x2009, 0x200a, 0x2028, 0x2029, 0x202f, 0x205f, 0x3000}
  {
  }

  // ---- everything but the bursts ----

  function WithoutBursts(out: seq<Piece>): seq<Piece> {
    if out == [] then []
    else WithoutBursts(out[..|out| - 1]) + (if out[|out| - 1].Burst? then [] else [out[|out| - 1]])
  }

  predicate AnnouncedIn(actions: seq<Action>, id: string) {
    exists i :: 0 <= i < |actions| && actions[i].SessionBanner? && actions[i].id == id
  }

  /** What the last action says: its text, if it has one; a banner only for an id
      that no earlier banner had. */
  function LastSays(actions: seq<Action>): seq<Piece>
    requires actions != []
  {
    match actions[|actions| - 1]
    case Emit(text) => if text == "" then [] else [Text(text)]
    case Raw(text) => if text == "" then [] else [Plain(text)]
    case SessionBanner(id, text) =>
      if id in {"", "?"} || AnnouncedIn(actions[..|actions| - 1], id) then [] else [Banner(id, text)]
    case _ => []
  }

  function Said(actions: seq<Action>): seq<Piece> {
    if actions == [] then [] else Said(actions[..|actions| - 1]) + LastSays(actions)
  }

  lemma {:induction false} WithoutBurstsAppend(a: seq<Piece>, b: seq<Piece>)
    ensures WithoutBursts(a + b) == WithoutBursts(a) + WithoutBursts(b)
  {
    if b == [] {
      assert a + b == a;
    } else {
      WithoutBurstsAppend(a, b[..|b| - 1]);
      assert (a + b)[..|a + b| - 1] == a + b[..|b| - 1];
    }
  }

  lemma OnePiece(x: Piece)
    ensures WithoutBursts([x]) == if x.Burst? then [] else [x]
  {
    assert [x][..0] == [] && WithoutBursts([]) == [];
  }

  lemma FlushSays(p: Parser, x: Piece)
    requires !x.Burst?
    ensures WithoutBursts(Flushed(p).1 + [x]) == [x]
  {
    OnePiece(x);
    OnePiece(Burst(p.held));
    WithoutBurstsAppend(Flushed(p).1, [x]);
  }

  lemma ActSays(p: Parser, a: Action, detailOf: DetailOf)
    ensures WithoutBursts(Act(p, a, detailOf).1) ==
              match a
              case Emit(text) => if text == "" then [] else [Text(text)]
              case Raw(text) => if text == "" then [] else [Plain(text)]
              case SessionBanner(id, text) => if id in {"", "?"} || id in p.rendered then [] else [Banner(id, text)]
              case _ => []
  {
    hide Named, Strip;
    match a
    case NoteTool(_, _, _) =>
    case AbsorbInput(_) =>
    case Emit(text) => FlushSays(p, Text(text));
    case SessionBanner(id, text) => FlushSays(p, Banner(id, text));
    case Raw(text) => OnePiece(Plain(text));
  }

  /** The pane, its bursts left out, is what the stream said, in order. */
  lemma {:induction false} TextsAreShown(actions: seq<Action>, detailOf: DetailOf)
    ensures WithoutBursts(Run(actions, detailOf).1) == Said(actions)
  {
    if actions != [] {
      var before, a := actions[..|actions| - 1], actions[|actions| - 1];
      var (p, out) := Run(before, detailOf);
      TextsAreShown(before, detailOf);
      WithoutBurstsAppend(out, Act(p, a, detailOf).1);
      ActSays(p, a, detailOf);
      if a.SessionBanner? {
        OneBanner(before, detailOf, a.id);
        AnnouncedMeans(before, a.id);
      }
      hide Act, Said, WithoutBursts;
      assert Said(actions) == Said(before) + LastSays(actions) by { SaidLast(actions); }
    }
  }

  lemma SaidLast(actions: seq<Action>)
    requires actions != []
    ensures Said(actions) == Said(actions[..|actions| - 1]) + LastSays(actions)
  {
  }

  lemma AnnouncedMeans(actions: seq<Action>, id: string)
    ensures AnnouncedIn(actions, id) <==> exists a :: a in actions && a.SessionBanner? && a.id == id
  {
  }

  // ---- the calls ----

  function Notes(actions: seq<Action>): seq<Action> {
    if actions == [] then []
    else
      var n := |actions| - 1;
      Notes(actions[..n]) + (if actions[n].NoteTool? then [actions[n]] else [])
  }

  /** The calls are those of the stream, in order, with their stamps and names. */
  lemma {:induction false} CallsAreNoted(actions: seq<Action>, detailOf: DetailOf)
    ensures var notes := CallsOf(actions, detailOf).notes;
            |notes| == |Notes(actions)|
            && forall i :: 0 <= i < |notes| ==>
                 Notes(actions)[i].NoteTool? && notes[i].stamp == Notes(actions)[i].stamp
                 && notes[i].name == Named(Notes(actions)[i].name)
  {
    hide Named, Strip;
    if actions != [] {
      CallsAreNoted(actions[..|actions| - 1], detailOf);
    }
  }

  function Absorbs(fragments: seq<string>): seq<Action> {
    seq(|fragments|, i requires 0 <= i < |fragments| => AbsorbInput(fragments[i]))
  }

  function Joined(fragments: seq<string>): string {
    if fragments == [] then "" else Joined(fragments[..|fragments| - 1]) + fragments[|fragments| - 1]
  }

  /** What the longest run of fragments says in which a command is found, or else
      what the call said itself. */
  function DetailAfter(detail: string, fragments: seq<string>, detailOf: DetailOf): string {
    if fragments == [] then detail
    else if detailOf(Joined(fragments)) != "" then detailOf(Joined(fragments))
    else DetailAfter(detail, fragments[..|fragments| - 1], detailOf)
  }

  /** A call followed by fragments of its input says what they say together. */
  lemma {:induction false} FragmentsAreJoined(before: seq<Action>, stamp: string, name: string, detail: string,
                                             fragments: seq<string>, detailOf: DetailOf)
    requires "" !in fragments
    ensures var c := CallsOf(before + [NoteTool(stamp, name, detail)] + Absorbs(fragments), detailOf);
            && c.open && c.partial == Joined(fragments)
            && c.notes == CallsOf(before, detailOf).notes
                          + [ToolNote(stamp, Named(name), DetailAfter(Strip(detail), fragments, detailOf))]
    decreases |fragments|
  {
    hide Named, Strip;
    var actions := before + [NoteTool(stamp, name, detail)] + Absorbs(fragments);
    if fragments == [] {
      assert actions[..|actions| - 1] == before;
    } else {
      var n := |fragments| - 1;
      FragmentsAreJoined(before, stamp, name, detail, fragments[..n], detailOf);
      LastFragment(before + [NoteTool(stamp, name, detail)], fragments);
      var c := CallsOf(actions[..|actions| - 1], detailOf);
      assert CallsOf(actions, detailOf) == CallsStep(c, AbsorbInput(fragments[n]), detailOf);
      assert fragments[n] in fragments;
      hide CallsOf, Absorbs;
    }
  }

  lemma LastFragment(before: seq<Action>, fragments: seq<string>)
    requires fragments != []
    ensures var (actions, n) := (before + Absorbs(fragments), |fragments| - 1);
            actions[|actions| - 1] == AbsorbInput(fragments[n]) && actions[..|actions| - 1] == before + Absorbs(fragments[..n])
  {
  }

  /** The session is the one of the last banner that has an id. */
  lemma {:induction false} SessionIsLast(actions: seq<Action>, i: nat, detailOf: DetailOf)
    requires i < |actions| && actions[i].SessionBanner? && actions[i].id !in {"", "?"}
    requires forall j :: i < j < |actions| && actions[j].SessionBanner? ==> actions[j].id in {"", "?"}
    ensures Run(actions, detailOf).0.sessionId == actions[i].id
    decreases |actions|
  {
    var n := |actions| - 1;
    hide Named, Strip;
    if i < n {
      SessionIsLast(actions[..n], i, detailOf);
    }
  }
}
