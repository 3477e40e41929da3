/** The stream parser that holds tool calls back until the burst ends. The
    per-provider formatters are sequences of the five actions below. */
module AgentStream {
  import opened ToolBurst

  datatype Action =
    | NoteTool(stamp: string, name: string, detail: string)
    | AbsorbInput(fragment: string)
    | Emit(text: string)
    | SessionBanner(id: string, text: string)   // text: the rendered banner line
    | Raw(text: string)                         // a line that is not JSON: shown as it is

  /** What reaches the pane. */
  datatype Piece = Burst(notes: seq<ToolNote>) | Text(text: string) | Banner(id: string, text: string) | Plain(text: string)

  datatype Parser = Parser(held: seq<ToolNote>, partial: string, sessionId: string, rendered: set<string>)

  const START := Parser([], "", "", {})

  /** str.strip for the whitespace that Python strips. */
  predicate IsSpace(c: char) {
    var n := c as int;
    0x09 <= n <= 0x0d || 0x1c <= n <= 0x20 || n == 0x85 || n == 0xa0 || n == 0x1680 || 0x2000 <= n <= 0x200a
    || n == 0x2028 || n == 0x2029 || n == 0x202f || n == 0x205f || n == 0x3000
  }

  function Strip(s: string): string {
    if s == [] then s
    else if IsSpace(s[0]) then Strip(s[1..])
    else if IsSpace(s[|s| - 1]) then Strip(s[..|s| - 1])
    else s
  }

  function Named(name: string): string {
    var stripped := Strip(if name == "" then "?" else name);
    if stripped == "" then "?" else stripped
  }

  /** detailOf finds the command field in a fragment of tool input, or "". */
  type DetailOf = string -> string

  function Flushed(p: Parser): (Parser, seq<Piece>) {
    (p.(held := [], partial := ""), if p.held == [] then [] else [Burst(p.held)])
  }

  function Act(p: Parser, a: Action, detailOf: DetailOf): (Parser, seq<Piece>) {
    match a
    case NoteTool(stamp, name, detail) =>
      (p.(held := p.held + [ToolNote(stamp, Named(name), Strip(detail))], partial := ""), [])
    case AbsorbInput(fragment) =>
      if fragment == "" || p.held == [] then (p, [])
      else
        var partial := p.partial + fragment;
        var n := |p.held| - 1;
        var detail := detailOf(partial);
        (p.(partial := partial, held := if detail == "" then p.held else p.held[n := p.held[n].(detail := detail)]), [])
    case Emit(text) =>
      if text == "" then (p, []) else (Flushed(p).0, Flushed(p).1 + [Text(text)])
    case SessionBanner(id, text) =>
      if id == "" || id == "?" then (p, [])
      else if id in p.rendered then (p.(sessionId := id), [])
      else (Flushed(p).0.(sessionId := id, rendered := p.rendered + {id}), Flushed(p).1 + [Banner(id, text)])
    case Raw(text) => (p, if text == "" then [] else [Plain(text)])
  }

  /** The parser and the pane after a prefix of the stream. */
  function Run(actions: seq<Action>, detailOf: DetailOf): (Parser, seq<Piece>) {
    if actions == [] then (START, [])
    else
      var (p, out) := Run(actions[..|actions| - 1], detailOf);
      var (p', more) := Act(p, actions[|actions| - 1], detailOf);
      (p', out + more)
  }

  // ---- what the calls of a stream are, without any holding back ----

  /** All calls so far, and whether the last one is still open to its input. */
  datatype Calls = Calls(notes: seq<ToolNote>, open: bool, partial: string, rendered: set<string>)

  function CallsStep(c: Calls, a: Action, detailOf: DetailOf): (c': Calls)
    requires c.open ==> c.notes != []
    ensures c'.open ==> c'.notes != []
  {
    match a
    case NoteTool(stamp, name, detail) =>
      Calls(c.notes + [ToolNote(stamp, Named(name), Strip(detail))], true, "", c.rendered)
    case AbsorbInput(fragment) =>
      if fragment == "" || !c.open then c
      else
        var n, detail := |c.notes| - 1, detailOf(c.partial + fragment);
        c.(partial := c.partial + fragment,
           notes := if detail == "" then c.notes else c.notes[n := c.notes[n].(detail := detail)])
    case Emit(text) => if text == "" then c else c.(open := false, partial := "")
    case SessionBanner(id, _) =>
      if id == "" || id == "?" || id in c.rendered then c
      else c.(open := false, partial := "", rendered := c.rendered + {id})
    case Raw(_) => c
  }

  function CallsOf(actions: seq<Action>, detailOf: DetailOf): (c: Calls)
    ensures c.open ==> c.notes != []
  {
    if actions == [] then Calls([], false, "", {})
    else CallsStep(CallsOf(actions[..|actions| - 1], detailOf), actions[|actions| - 1], detailOf)
  }

  function BurstNotes(out: seq<Piece>): seq<ToolNote> {
    if out == [] then []
    else BurstNotes(out[..|out| - 1]) + (if out[|out| - 1].Burst? then out[|out| - 1].notes else [])
  }

  lemma {:induction false} BurstNotesAppend(a: seq<Piece>, b: seq<Piece>)
    ensures BurstNotes(a + b) == BurstNotes(a) + BurstNotes(b)
  {
    if b == [] {
      assert a + b == a;
    } else {
      BurstNotesAppend(a, b[..|b| - 1]);
      assert (a + b)[..|a + b| - 1] == a + b[..|b| - 1];
    }
  }

  lemma BurstNotesOfOne(x: Piece)
    ensures BurstNotes([x]) == if x.Burst? then x.notes else []
  {
    assert [x][..0] == [] && BurstNotes([]) == [];
  }

  lemma FlushShowsAll(p: Parser, x: Piece)
    requires !x.Burst?
    ensures BurstNotes(Flushed(p).1) == p.held
    ensures BurstNotes(Flushed(p).1 + [x]) == p.held
  {
    BurstNotesOfOne(x);
    BurstNotesOfOne(Burst(p.held));
    BurstNotesAppend(Flushed(p).1, [x]);
  }

  /** The calls shown, then the held ones, are all calls in order; what is held
      is the open end of them. */
  ghost predicate Matches(shown: seq<ToolNote>, p: Parser, c: Calls) {
    && shown + p.held == c.notes
    && (p.held != [] <==> c.open) && p.partial == c.partial && p.rendered == c.rendered
  }

  /** Conservation, over a prefix of the stream. */
  ghost predicate Conserved(actions: seq<Action>, detailOf: DetailOf) {
    Matches(BurstNotes(Run(actions, detailOf).1), Run(actions, detailOf).0, CallsOf(actions, detailOf))
  }

  lemma AbsorbMatches(shown: seq<ToolNote>, p: Parser, c: Calls, fragment: string, detailOf: DetailOf)
    requires Matches(shown, p, c)
    ensures Matches(shown, Act(p, AbsorbInput(fragment), detailOf).0, CallsStep(c, AbsorbInput(fragment), detailOf))
  {
    if p.held != [] {
      var n := |p.held| - 1;
      assert (shown + p.held)[|c.notes| - 1] == p.held[n];
      var x := p.held[n].(detail := detailOf(p.partial + fragment));
      assert shown + p.held[n := x] == (shown + p.held)[|c.notes| - 1 := x];
    }
  }

  lemma NoteMatches(shown: seq<ToolNote>, held: seq<ToolNote>, note: ToolNote)
    ensures (shown + held) + [note] == shown + (held + [note])
  {
  }

  lemma NothingShown(shown: seq<ToolNote>)
    ensures shown + BurstNotes([]) == shown && shown + [] == shown
  {
  }

  lemma NoteCase(shown: seq<ToolNote>, p: Parser, c: Calls, stamp: string, name: string, detail: string, detailOf: DetailOf)
    requires Matches(shown, p, c)
    ensures var a := NoteTool(stamp, name, detail);
            Matches(shown + BurstNotes(Act(p, a, detailOf).1), Act(p, a, detailOf).0, CallsStep(c, a, detailOf))
  {
    NoteMatches(shown, p.held, ToolNote(stamp, Named(name), Strip(detail)));
    NothingShown(shown);
    hide Named, Strip, BurstNotes;
  }

  lemma AbsorbCase(shown: seq<ToolNote>, p: Parser, c: Calls, fragment: string, detailOf: DetailOf)
    requires Matches(shown, p, c)
    ensures var a := AbsorbInput(fragment);
            Matches(shown + BurstNotes(Act(p, a, detailOf).1), Act(p, a, detailOf).0, CallsStep(c, a, detailOf))
  {
    AbsorbMatches(shown, p, c, fragment, detailOf);
    NothingShown(shown);
    hide Matches, BurstNotes, CallsStep;
  }

  lemma EmitCase(shown: seq<ToolNote>, p: Parser, c: Calls, text: string, detailOf: DetailOf)
    requires Matches(shown, p, c)
    ensures var a := Emit(text);
            Matches(shown + BurstNotes(Act(p, a, detailOf).1), Act(p, a, detailOf).0, CallsStep(c, a, detailOf))
  {
    FlushShowsAll(p, Text(text));
    NothingShown(shown);
    NothingShown(shown + p.held);
    hide BurstNotes;
  }

  lemma BannerCase(shown: seq<ToolNote>, p: Parser, c: Calls, id: string, text: string, detailOf: DetailOf)
    requires Matches(shown, p, c)
    ensures var a := SessionBanner(id, text);
            Matches(shown + BurstNotes(Act(p, a, detailOf).1), Act(p, a, detailOf).0, CallsStep(c, a, detailOf))
  {
    FlushShowsAll(p, Banner(id, text));
    NothingShown(shown);
    NothingShown(shown + p.held);
    hide BurstNotes;
  }

  lemma RawCase(shown: seq<ToolNote>, p: Parser, c: Calls, text: string, detailOf: DetailOf)
    requires Matches(shown, p, c)
    ensures var a := Raw(text);
            Matches(shown + BurstNotes(Act(p, a, detailOf).1), Act(p, a, detailOf).0, CallsStep(c, a, detailOf))
  {
    BurstNotesOfOne(Plain(text));
    NothingShown(shown);
    hide BurstNotes;
  }

  lemma ActMatches(shown: seq<ToolNote>, p: Parser, c: Calls, a: Action, detailOf: DetailOf)
    requires Matches(shown, p, c)
    ensures Matches(shown + BurstNotes(Act(p, a, detailOf).1), Act(p, a, detailOf).0, CallsStep(c, a, detailOf))
  {
    hide *;
    match a
    case NoteTool(stamp, name, detail) => NoteCase(shown, p, c, stamp, name, detail, detailOf);
    case AbsorbInput(fragment) => AbsorbCase(shown, p, c, fragment, detailOf);
    case Emit(text) => EmitCase(shown, p, c, text, detailOf);
    case SessionBanner(id, text) => BannerCase(shown, p, c, id, text, detailOf);
    case Raw(text) => RawCase(shown, p, c, text, detailOf);
  }

  lemma {:induction false} NoCallLost(actions: seq<Action>, detailOf: DetailOf)
    ensures Conserved(actions, detailOf)
  {
    if actions == [] {
      assert CallsOf([], detailOf).notes == [];
    } else {
      var before, a := actions[..|actions| - 1], actions[|actions| - 1];
      NoCallLost(before, detailOf);
      var (p, out) := Run(before, detailOf);
      BurstNotesAppend(out, Act(p, a, detailOf).1);
      ActMatches(BurstNotes(out), p, CallsOf(before, detailOf), a, detailOf);
      hide Act, Matches, CallsStep, BurstNotes;
    }
  }

  /** Without the final flush of filter_stream the pane shows every call exactly
      when the stream did not end inside a burst. */
  lemma ShownWithoutFlush(actions: seq<Action>, detailOf: DetailOf)
    ensures BurstNotes(Run(actions, detailOf).1) == CallsOf(actions, detailOf).notes <==> !CallsOf(actions, detailOf).open
  {
    NoCallLost(actions, detailOf);
    hide Run, CallsOf, BurstNotes;
  }

  /** A stream of one call: nothing is shown of it. */
  lemma OneCallHidden(stamp: string, name: string, detail: string, detailOf: DetailOf)
    ensures var actions := [NoteTool(stamp, name, detail)];
            Run(actions, detailOf).1 == [] && |CallsOf(actions, detailOf).notes| == 1
  {
    var actions := [NoteTool(stamp, name, detail)];
    assert actions[..0] == [] && Run([], detailOf) == (START, []) && CallsOf([], detailOf).notes == [];
    hide Named, Strip;
  }

  /** Whenever text is emitted, every call before it is already on the pane. */
  lemma CallsBeforeText(actions: seq<Action>, detailOf: DetailOf)
    requires actions != [] && actions[|actions| - 1].Emit? && actions[|actions| - 1].text != ""
    ensures var (p, out) := Run(actions, detailOf);
            && out != [] && out[|out| - 1] == Text(actions[|actions| - 1].text)
            && p.held == [] && BurstNotes(out[..|out| - 1]) == CallsOf(actions[..|actions| - 1], detailOf).notes
  {
    hide BurstNotes, CallsOf, Run, Act, Flushed;
    var before, text := actions[..|actions| - 1], actions[|actions| - 1].text;
    NoCallLost(before, detailOf);
    var (q, shown) := Run(before, detailOf);
    FlushShowsAll(q, Text(text));
    FlushHoldsNothing(q);
    BurstNotesAppend(shown, Flushed(q).1);
    RunEmit(actions, detailOf);
    LastPiece(shown, Flushed(q).1, Text(text));
  }

  lemma FlushHoldsNothing(p: Parser)
    ensures Flushed(p).0.held == []
  {
  }

  lemma RunEmit(actions: seq<Action>, detailOf: DetailOf)
    requires actions != [] && actions[|actions| - 1].Emit? && actions[|actions| - 1].text != ""
    ensures var text := Text(actions[|actions| - 1].text);
            var (q, shown) := Run(actions[..|actions| - 1], detailOf);
            Run(actions, detailOf) == (Flushed(q).0, shown + (Flushed(q).1 + [text]))
  {
    hide Flushed, BurstNotes, CallsOf;
  }

  lemma LastPiece(a: seq<Piece>, b: seq<Piece>, x: Piece)
    ensures var out := a + (b + [x]); out != [] && out[|out| - 1] == x && out[..|out| - 1] == a + b
  {
  }

  /** What is on the pane stays there. */
  lemma {:induction false} PaneOnlyGrows(actions: seq<Action>, k: nat, detailOf: DetailOf)
    requires k <= |actions|
    ensures Run(actions[..k], detailOf).1 <= Run(actions, detailOf).1
    decreases |actions|
  {
    if k == |actions| {
      assert actions[..k] == actions;
    } else {
      PaneOnlyGrows(actions[..|actions| - 1], k, detailOf);
      assert actions[..|actions| - 1][..k] == actions[..k];
    }
  }

  // ---- banners ----

  function Banners(out: seq<Piece>, id: string): nat {
    if out == [] then 0
    else Banners(out[..|out| - 1], id) + (if out[|out| - 1].Banner? && out[|out| - 1].id == id then 1 else 0)
  }

  lemma {:induction false} BannersAppend(a: seq<Piece>, b: seq<Piece>, id: string)
    ensures Banners(a + b, id) == Banners(a, id) + Banners(b, id)
  {
    if b == [] {
      assert a + b == a;
    } else {
      BannersAppend(a, b[..|b| - 1], id);
      assert (a + b)[..|a + b| - 1] == a + b[..|b| - 1];
    }
  }

  /** The banner of a session appears once if the session was ever announced,
      and never otherwise. */
  lemma {:induction false} OneBanner(actions: seq<Action>, detailOf: DetailOf, id: string)
    ensures Banners(Run(actions, detailOf).1, id) == if id in Run(actions, detailOf).0.rendered then 1 else 0
    ensures id in Run(actions, detailOf).0.rendered
            <==> id != "" && id != "?" && exists a :: a in actions && a.SessionBanner? && a.id == id
  {
    if actions != [] {
      var before, a := actions[..|actions| - 1], actions[|actions| - 1];
      assert actions == before + [a];
      OneBanner(before, detailOf, id);
      var (p, out) := Run(before, detailOf);
      BannersAppend(out, Act(p, a, detailOf).1, id);
      BannersOfOneAct(p, a, detailOf, id);
      assert Run(actions, detailOf) == (Act(p, a, detailOf).0, out + Act(p, a, detailOf).1);
      hide Run, Act, Banners;
    }
  }

  lemma BannersOfOneAct(p: Parser, a: Action, detailOf: DetailOf, id: string)
    ensures Banners(Act(p, a, detailOf).1, id)
            == if a.SessionBanner? && a.id == id && id !in p.rendered && id != "" && id != "?" then 1 else 0
    ensures Act(p, a, detailOf).0.rendered
            == if a.SessionBanner? && a.id != "" && a.id != "?" then p.rendered + {a.id} else p.rendered
  {
    hide Named, Strip, Banners;
    NoBanners(id);
    match a
    case NoteTool(_, _, _) =>
    case AbsorbInput(_) =>
    case Emit(text) => BannersOfFlush(p, Text(text), id);
    case SessionBanner(_, text) => BannersOfFlush(p, Banner(a.id, text), id);
    case Raw(text) =>
      BannersOfFlush(START, Plain(text), id);
      assert Flushed(START).1 + [Plain(text)] == [Plain(text)];
  }

  lemma NoBanners(id: string)
    ensures Banners([], id) == 0
  {
  }

  lemma BannersOfFlush(p: Parser, x: Piece, id: string)
    ensures Banners(Flushed(p).1 + [x], id) == Banners([x], id) == if x.Banner? && x.id == id then 1 else 0
  {
    assert [x][..0] == [] && [Burst(p.held)][..0] == [];
    BannersAppend(Flushed(p).1, [x], id);
  }

  // ---- the parser object ----

  class AgentStreamParser {
    const detailOf: DetailOf
    var toolBurst: seq<ToolNote>
    var toolPartial: string
    var sessionId: string
    var renderedIds: set<string>

    function Value(): Parser
      reads this
    {
      Parser(toolBurst, toolPartial, sessionId, renderedIds)
    }

    constructor (detailOf: DetailOf)
      ensures Value() == START && this.detailOf == detailOf
    {
      this.detailOf, toolBurst, toolPartial, sessionId, renderedIds := detailOf, [], "", "", {};
    }

    method NoteToolCall(stamp: string, name: string, detail: string)
      modifies this
      ensures (Value(), []) == Act(old(Value()), NoteTool(stamp, name, detail), detailOf)
    {
      toolBurst := toolBurst + [ToolNote(stamp, Named(name), Strip(detail))];
      toolPartial := "";
    }

    method AbsorbToolInput(fragment: string)
      modifies this
      ensures (Value(), []) == Act(old(Value()), AbsorbInput(fragment), detailOf)
    {
      if fragment == "" || toolBurst == [] { return; }
      toolPartial := toolPartial + fragment;
      var detail := detailOf(toolPartial);
      if detail != "" {
        var last := |toolBurst| - 1;
        toolBurst := toolBurst[last := toolBurst[last].(detail := detail)];
      }
    }

    method FlushToolBurst() returns (pieces: seq<Piece>)
      modifies this
      ensures (Value(), pieces) == Flushed(old(Value()))
    {
      var notes := toolBurst;
      toolBurst, toolPartial := [], "";
      pieces := if notes == [] then [] else [Burst(notes)];
    }

    method EmitText(text: string) returns (pieces: seq<Piece>)
      modifies this
      ensures (Value(), pieces) == Act(old(Value()), Emit(text), detailOf)
    {
      if text == "" { return []; }
      pieces := FlushToolBurst();
      pieces := pieces + [Text(text)];
    }

    method ShowBanner(id: string, text: string) returns (pieces: seq<Piece>)
      modifies this
      ensures (Value(), pieces) == Act(old(Value()), SessionBanner(id, text), detailOf)
    {
      if id == "" || id == "?" { return []; }
      sessionId := id;
      if id in renderedIds { return []; }
      renderedIds := renderedIds + {id};
      pieces := FlushToolBurst();
      pieces := pieces + [Banner(id, text)];
    }

    method Take(a: Action) returns (pieces: seq<Piece>)
      modifies this
      ensures (Value(), pieces) == Act(old(Value()), a, detailOf)
    {
      pieces := [];
      match a
      case NoteTool(stamp, name, detail) => NoteToolCall(stamp, name, detail);
      case AbsorbInput(fragment) => AbsorbToolInput(fragment);
      case Emit(text) => pieces := EmitText(text);
      case SessionBanner(id, text) => pieces := ShowBanner(id, text);
      case Raw(text) => if text != "" { pieces := [Plain(text)]; }
    }
  }

  /** filter_stream: at the end of the stream nothing is held back. */
  method FilterStream(actions: seq<Action>, detailOf: DetailOf) returns (out: seq<Piece>)
    ensures Run(actions, detailOf).1 <= out
    ensures BurstNotes(out) == CallsOf(actions, detailOf).notes
  {
    hide BurstNotes, CallsOf, Act, Flushed;
    var parser := new AgentStreamParser(detailOf);
    out := [];
    var i := 0;
    assert actions[..0] == [];
    while i < |actions|
      invariant i <= |actions| && parser.detailOf == detailOf
      invariant (parser.Value(), out) == Run(actions[..i], detailOf)
    {
      assert actions[..i + 1][..i] == actions[..i];
      var pieces := parser.Take(actions[i]);
      out := out + pieces;
      i := i + 1;
    }
    assert actions[..i] == actions;
    NoCallLost(actions, detailOf);
    FlushShowsAll(parser.Value(), Text(""));
    var tail := parser.FlushToolBurst();
    BurstNotesAppend(out, tail);
    assert tail != [] ==> tail[..0] == [];
    out := out + tail;
  }
}
