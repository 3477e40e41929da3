/** The transcript pump: reading an append-only transcript in bounded pieces and
    handing it on line by line. */
module Transcript {
  import opened Bytes
  import opened LineSplit

  const MAX_TRANSCRIPT_BYTES := 64 * 1024

  function Min(a: nat, b: nat): nat { if a < b then a else b }

  // ---- the line buffer over a list of chunks ----

  datatype Buffered = Buffered(lines: seq<Bytes>, pending: Bytes)

  /** What has been handed on after chunks, none of them final. */
  function Delivered(chunks: seq<Bytes>): Buffered {
    if chunks == [] then Buffered([], [])
    else
      var before := Delivered(chunks[..|chunks| - 1]);
      var data := before.pending + chunks[|chunks| - 1];
      Buffered(before.lines + SplitLines(data[..LastBreak(data)]), data[LastBreak(data)..])
  }

  /** How many chunk boundaries fall inside a CR LF pair; empty chunks move none. */
  function PairsCut(chunks: seq<Bytes>): nat {
    if chunks == [] then 0
    else
      var before := chunks[..|chunks| - 1];
      PairsCut(before) + (if CutsPair(Flat(before), chunks[|chunks| - 1]) then 1 else 0)
  }

  lemma FlatSnoc(chunks: seq<Bytes>)
    requires chunks != []
    ensures Flat(chunks) == Flat(chunks[..|chunks| - 1]) + chunks[|chunks| - 1]
  {
    var n := |chunks| - 1;
    assert chunks == chunks[..n] + [chunks[n]];
    FlatAppend(chunks[..n], [chunks[n]]);
    FlatOne(chunks[n]);
  }

  /** What is handed on and what is held back make up the input. */
  lemma {:induction false} NothingLost(chunks: seq<Bytes>)
    ensures Flat(Delivered(chunks).lines) + Delivered(chunks).pending == Flat(chunks)
  {
    if chunks != [] {
      var n := |chunks| - 1;
      NothingLost(chunks[..n]);
      FlatSnoc(chunks);
      var before := Delivered(chunks[..n]);
      var data := before.pending + chunks[n];
      LinesAreTheInput(data[..LastBreak(data)]);
      FlatAppend(before.lines, SplitLines(data[..LastBreak(data)]));
      GluedBack(Flat(before.lines), before.pending, chunks[n], data, LastBreak(data));
    }
  }

  lemma GluedBack(fed: Bytes, pending: Bytes, chunk: Bytes, data: Bytes, m: nat)
    requires data == pending + chunk && m <= |data|
    ensures (fed + data[..m]) + data[m..] == (fed + pending) + chunk
  {
    assert data[..m] + data[m..] == data;
  }

  ghost predicate Terminal(chunks: seq<Bytes>) {
    var d := Delivered(chunks);
    Unbroken(d.pending) && (Flat(d.lines) == [] || Terminated(Flat(d.lines)))
  }

  lemma {:induction false} DeliveredTerminal(chunks: seq<Bytes>)
    ensures Terminal(chunks)
  {
    if chunks != [] {
      var n := |chunks| - 1;
      DeliveredTerminal(chunks[..n]);
      var before := Delivered(chunks[..n]);
      var data := before.pending + chunks[n];
      StillTerminated(before.lines, data[..LastBreak(data)]);
      hide Flat, SplitLines, Delivered, Terminated, Unbroken, LastBreak;
    }
  }

  lemma StillTerminated(lines: seq<Bytes>, piece: Bytes)
    requires Flat(lines) == [] || Terminated(Flat(lines))
    requires piece == [] || Terminated(piece)
    ensures Flat(lines + SplitLines(piece)) == Flat(lines) + piece
    ensures Flat(lines) + piece == [] || Terminated(Flat(lines) + piece)
  {
    LinesAreTheInput(piece);
    FlatAppend(lines, SplitLines(piece));
    hide Flat, SplitLines;
  }

  /** The lines handed on are the lines of the bytes handed on, but for one more
      line for each boundary that cut a CR LF pair. */
  ghost predicate LinesFit(chunks: seq<Bytes>) {
    var d := Delivered(chunks);
    && |d.lines| == |SplitLines(Flat(d.lines))| + PairsCut(chunks)
    && (PairsCut(chunks) == 0 ==> d.lines == SplitLines(Flat(d.lines)))
  }

  /** One more chunk, on what was handed on before it. */
  lemma FitFurther(lines: seq<Bytes>, piece: Bytes, cuts: nat)
    requires Flat(lines) == [] || Terminated(Flat(lines))
    requires |lines| == |SplitLines(Flat(lines))| + cuts && (cuts == 0 ==> lines == SplitLines(Flat(lines)))
    ensures var lines', cuts' := lines + SplitLines(piece), cuts + (if CutsPair(Flat(lines), piece) then 1 else 0);
            && Flat(lines') == Flat(lines) + piece
            && |lines'| == |SplitLines(Flat(lines'))| + cuts'
            && (cuts' == 0 ==> lines' == SplitLines(Flat(lines')))
  {
    SplitAfterTerminator(Flat(lines), piece);
    LinesAreTheInput(piece);
    FlatAppend(lines, SplitLines(piece));
  }

  /** A boundary cuts a pair of the input exactly when it cuts one between the
      last line handed on and the next. */
  lemma CutSeen(fed: Bytes, pending: Bytes, chunk: Bytes)
    requires Unbroken(pending)
    ensures var data := pending + chunk;
            CutsPair(fed + pending, chunk) == CutsPair(fed, data[..LastBreak(data)])
  {
    var data := pending + chunk;
    var m := LastBreak(data);
    if pending == [] {
      assert fed + pending == fed && data == chunk;
      assert m == 0 ==> data[m..] == chunk;
    } else {
      assert (fed + pending)[|fed + pending| - 1] == pending[|pending| - 1];
      assert pending[|pending| - 1] in pending && pending[0] in pending;
      assert data[0] == pending[0];
    }
  }

  lemma {:induction false} DeliveredFits(chunks: seq<Bytes>)
    ensures LinesFit(chunks)
  {
    if chunks != [] {
      var n := |chunks| - 1;
      DeliveredFits(chunks[..n]);
      DeliveredTerminal(chunks[..n]);
      NothingLost(chunks[..n]);
      var before := Delivered(chunks[..n]);
      var data := before.pending + chunks[n];
      CutSeen(Flat(before.lines), before.pending, chunks[n]);
      FitFurther(before.lines, data[..LastBreak(data)], PairsCut(chunks[..n]));
    }
  }

  /** Everything handed on once the last chunk has been flushed. */
  function Flushed(chunks: seq<Bytes>): seq<Bytes> {
    var d := Delivered(chunks);
    d.lines + (if d.pending == [] then [] else [d.pending])
  }

  lemma DeliveredSnoc(chunks: seq<Bytes>, chunk: Bytes)
    ensures var (d, e, data) := (Delivered(chunks), Delivered(chunks + [chunk]), Delivered(chunks).pending + chunk);
            && e == Buffered(d.lines + SplitLines(data[..LastBreak(data)]), data[LastBreak(data)..])
            && Flushed(chunks + [chunk]) == d.lines + SplitLines(data)
  {
    hide SplitLines, LastBreak;
    assert (chunks + [chunk])[..|chunks|] == chunks;
    LinesAndRest(Delivered(chunks).pending + chunk);
  }

  /** The lines handed on by any chunking: exactly one more than the lines of the
      whole input for each boundary inside a CR LF pair. */
  lemma LinesOfAnyChunking(chunks: seq<Bytes>)
    ensures Flat(Flushed(chunks)) == Flat(chunks)
    ensures |Flushed(chunks)| == |SplitLines(Flat(chunks))| + PairsCut(chunks)
    ensures Flushed(chunks) == SplitLines(Flat(chunks)) <==> PairsCut(chunks) == 0
  {
    var d := Delivered(chunks);
    NothingLost(chunks);
    DeliveredTerminal(chunks);
    DeliveredFits(chunks);
    if d.pending == [] {
      assert Flat(d.lines) + [] == Flat(d.lines);
      assert Flushed(chunks) == d.lines;
    } else {
      UnbrokenIsOneLine(d.pending);
      assert d.pending[0] in d.pending;
      FitFurther(d.lines, d.pending, PairsCut(chunks));
    }
  }

  lemma {:induction false} NoReturnsNoCuts(chunks: seq<Bytes>)
    requires CR !in Flat(chunks)
    ensures PairsCut(chunks) == 0
  {
    if chunks != [] {
      var before := chunks[..|chunks| - 1];
      FlatSnoc(chunks);
      assert forall b :: b in Flat(before) ==> b in Flat(chunks);
      NoReturnsNoCuts(before);
      if Flat(before) != [] {
        assert Flat(before)[|Flat(before)| - 1] in Flat(before);
      }
    }
  }

  /** Without CR, the lines do not depend on how the stream was chunked. */
  lemma ChunkingIsInvisible(chunks: seq<Bytes>, others: seq<Bytes>)
    requires Flat(chunks) == Flat(others) && CR !in Flat(chunks)
    ensures Flushed(chunks) == Flushed(others) == SplitLines(Flat(chunks))
  {
    NoReturnsNoCuts(chunks);
    NoReturnsNoCuts(others);
    LinesOfAnyChunking(chunks);
    LinesOfAnyChunking(others);
  }

  /** With CR LF, it does: one pair cut in two is handed on as two lines. */
  lemma ChunkingIsVisible()
    ensures Flat([[CR], [LF]]) == Flat([[CR, LF]])
    ensures Flushed([[CR], [LF]]) != Flushed([[CR, LF]])
  {
    var cut, whole := [[CR], [LF]], [[CR, LF]];
    FlatSnoc(cut);
    assert cut[..1] == [[CR]];
    FlatOne([CR]);
    FlatOne([CR, LF]);
    assert PairsCut([[CR]]) == 0 by { assert [[CR]][..0] == []; }
    assert PairsCut(cut) == 1;
    assert PairsCut(whole) == 0 by { assert whole[..0] == []; }
    LinesOfAnyChunking(cut);
    LinesOfAnyChunking(whole);
  }

  // ---- the pump ----

  /** One read of the transcript: its size when it was measured, its content when
      it was read, or an OSError. */
  datatype Reading = Reading(size: nat, content: Bytes) | Unreadable

  /** RuntimeBridge.observe: at most 64 KiB from the offset on. */
  function Observe(r: Reading, offset: nat): (o: (Bytes, nat))
    ensures r.Reading? && offset <= r.size <= |r.content| ==>
              var stop := Min(offset + MAX_TRANSCRIPT_BYTES, |r.content|);
              o == (r.content[offset..stop], stop)
    ensures r.Unreadable? ==> o == ([], offset)
  {
    match r
    case Unreadable => ([], offset)
    case Reading(size, content) =>
      var start := Min(offset, size);
      var stop := Min(start + MAX_TRANSCRIPT_BYTES, |content|);
      if start <= stop then (content[start..stop], stop) else ([], start)
  }

  /** Of a transcript that only grows a read yields the next 65536 bytes, or all that
      are left, and says where they end. */
  lemma ReadsOn(r: Reading, offset: nat)
    requires r.Reading? && offset <= r.size <= |r.content|
    ensures var (text, next) := Observe(r, offset);
            && next == offset + |text| <= |r.content| && text == r.content[offset..next]
            && |text| <= 65536 && (|text| < 65536 ==> next == |r.content|)
  {
  }

  /** The stream fields of a session, and the lines its parser was fed. */
  class Stream {
    var transcriptOffset: nat
    var pendingStream: Bytes
    ghost var chunks: seq<Bytes>
    ghost var fed: seq<Bytes>

    /** Nothing of the transcript up to the offset is lost or repeated. */
    ghost predicate Follows(transcript: Bytes)
      reads this
    {
      && transcriptOffset <= |transcript| && Flat(chunks) == transcript[..transcriptOffset]
      && Buffered(fed, pendingStream) == Delivered(chunks)
    }

    constructor ()
      ensures Follows([])
    {
      transcriptOffset, pendingStream, chunks, fed := 0, [], [], [];
    }

    /** The part of _emit_stream that decides what is fed and what is held. */
    static method Cut(data: Bytes, final: bool) returns (lines: seq<Bytes>, held: Bytes)
      ensures final ==> lines == SplitLines(data) && held == []
      ensures !final ==> lines == SplitLines(data[..LastBreak(data)]) && held == data[LastBreak(data)..]
    {
      lines := SplitLines(data);
      held := [];
      LastIsRest(data);
      hide *;
      if lines != [] && !Terminated(lines[|lines| - 1]) && !final {
        held := lines[|lines| - 1];
        lines := lines[..|lines| - 1];
      }
      if final && held != [] {
        lines := lines + [held];
        held := [];
      }
    }

    /** _emit_stream */
    method EmitStream(chunk: Bytes, final: bool)
      requires Buffered(fed, pendingStream) == Delivered(chunks)
      modifies this`pendingStream, this`chunks, this`fed
      ensures chunks == old(chunks) + [chunk]
      ensures final ==> fed == Flushed(chunks) && pendingStream == []
      ensures !final ==> Buffered(fed, pendingStream) == Delivered(chunks)
    {
      ghost var before := Delivered(chunks);
      DeliveredSnoc(chunks, chunk);
      hide *;
      var data := pendingStream + chunk;
      chunks := chunks + [chunk];
      var lines, held := Cut(data, final);
      pendingStream := held;
      var i := 0;
      while i < |lines|
        invariant i <= |lines|
        invariant fed == before.lines + lines[..i]
        invariant chunks == old(chunks) + [chunk] && pendingStream == held
      {
        fed := fed + [lines[i]];
        i := i + 1;
      }
      assert lines[..i] == lines;
    }

    /** _pump_once over a transcript that only grows. */
    method PumpOnce(reading: Reading, final: bool, ghost seen: Bytes)
      requires Follows(seen)
      requires reading.Reading? ==> |seen| <= reading.size <= |reading.content| && seen <= reading.content
      modifies this
      ensures var known := if reading.Reading? then reading.content else seen;
              && transcriptOffset ==
                 (if reading.Reading? then Min(old(transcriptOffset) + 65536, |known|) else old(transcriptOffset))
              && (!final ==> Follows(known))
              && (final ==> pendingStream == [] && fed == Flushed(chunks) && Flat(chunks) == known[..transcriptOffset])
      ensures final && reading.Reading? ==>
                (Flat(fed) == reading.content <==> |reading.content| - old(transcriptOffset) <= 65536)
    {
      var (text, next) := Observe(reading, transcriptOffset);
      ghost var known := if reading.Reading? then reading.content else seen;
      GrownBy(seen, known, transcriptOffset, next);
      hide Flat, Delivered, Flushed, SplitLines;
      FlatAppend(chunks, [text]);
      FlatOne(text);
      transcriptOffset := if next != 0 then next else transcriptOffset;
      EmitStream(text, final);
      LinesOfAnyChunking(chunks);
    }
  }

  lemma LastIsRest(data: Bytes)
    ensures var lines, m := SplitLines(data), LastBreak(data);
            && (lines != [] && !Terminated(lines[|lines| - 1]) <==> m < |data|)
            && (m < |data| ==> lines[..|lines| - 1] == SplitLines(data[..m]) && lines[|lines| - 1] == data[m..])
            && (m == |data| ==> data[..m] == data && data[m..] == [])
  {
    var lines, m := SplitLines(data), LastBreak(data);
    LinesAndRest(data);
    if m < |data| {
      assert data[m..][|data| - m - 1] in data[m..];
    } else if data != [] {
      LastEndsInput(data);
    }
  }

  lemma {:induction false} LastEndsInput(s: Bytes)
    requires s != []
    ensures var lines := SplitLines(s); lines[|lines| - 1] != [] && lines[|lines| - 1][|lines[|lines| - 1]| - 1] == s[|s| - 1]
  {
    var n := FirstLine(s);
    if n < |s| {
      LastEndsInput(s[n..]);
      SplitFirst(s);
      hide SplitLines, FirstLine;
      assert SplitLines(s[n..]) != [];
    } else {
      OneLine(s);
    }
  }

  lemma SplitFirst(s: Bytes)
    requires s != []
    ensures SplitLines(s) == [s[..FirstLine(s)]] + SplitLines(s[FirstLine(s)..])
  {
  }

  lemma GrownBy(seen: Bytes, known: Bytes, offset: nat, next: nat)
    requires seen <= known && offset <= |seen| && offset <= next <= |known|
    ensures seen[..offset] + known[offset..next] == known[..next]
  {
  }
}
