/** The versions of owned packages in a Cargo.lock. */
module LockVersion {
  import opened Bytes
  import opened LineSplit
  import opened VersionLines
  import opened Wrappers

  const QUOTE: byte := 34
  const PACKAGE: Bytes := Ascii("[[package]]")
  const NAME_KEY: Bytes := Ascii("name = \"")
  const VERSION_KEY: Bytes := Ascii("version = \"")

  datatype LockError = NoVersion(name: Bytes) | Duplicated(name: Bytes) | Missing | Drift

  /** The block being read: its first name, and its first version with its line. */
  datatype Block = Block(name: Option<Bytes>, version: Option<(nat, Bytes)>)
  type Found = map<Bytes, (nat, Bytes)>
  datatype State = State(found: Found, block: Block)

  predicate IsNameLine(line: Bytes) { NAME_KEY <= Strip(line) }
  predicate IsVersionLine(line: Bytes) { VERSION_KEY <= Strip(line) }

  /** removeprefix(key).removesuffix('"') of the stripped line */
  function Quoted(line: Bytes, key: Bytes): Bytes
    requires key <= Strip(line)
  {
    var s := Strip(line)[|key|..];
    if s != [] && s[|s| - 1] == QUOTE then s[..|s| - 1] else s
  }

  function Finish(st: State, names: seq<Bytes>): Result<Found, LockError> {
    match st.block.name
    case None => Success(st.found)
    case Some(name) =>
      if name !in names then Success(st.found)
      else if st.block.version == None then Failure(NoVersion(name))
      else if name in st.found then Failure(Duplicated(name))
      else Success(st.found[name := st.block.version.value])
  }

  function LineStep(st: State, index: nat, line: Bytes, names: seq<Bytes>): Result<State, LockError> {
    if Strip(line) == PACKAGE then
      var f := Finish(st, names);
      if f.Failure? then Failure(f.error) else Success(State(f.value, Block(None, None)))
    else if st.block.name == None && IsNameLine(line) then
      Success(st.(block := st.block.(name := Some(Quoted(line, NAME_KEY)))))
    else if st.block.version == None && IsVersionLine(line) then
      Success(st.(block := st.block.(version := Some((index, Quoted(line, VERSION_KEY))))))
    else Success(st)
  }

  /** The state after the first n lines. */
  function Scan(lines: seq<Bytes>, n: nat, names: seq<Bytes>): Result<State, LockError>
    requires n <= |lines|
  {
    if n == 0 then Success(State(map[], Block(None, None)))
    else
      var st := Scan(lines, n - 1, names);
      if st.Failure? then st else LineStep(st.value, n - 1, lines[n - 1], names)
  }

  function Packages(lines: seq<Bytes>, names: seq<Bytes>): Result<Found, LockError> {
    var st := Scan(lines, |lines|, names);
    if st.Failure? then Failure(st.error) else Finish(st.value, names)
  }

  function EndsLf(line: Bytes): bool { line != [] && line[|line| - 1] == LF }

  function Canonical(v: Bytes, line: Bytes): Bytes {
    VERSION_KEY + v + [QUOTE] + (if EndsLf(line) then [LF] else [])
  }

  predicate Owned(found: Found, i: int) { exists name :: name in found && found[name].0 == i }

  function Rewritten(lines: seq<Bytes>, found: Found, v: Bytes): (r: seq<Bytes>)
    ensures |r| == |lines|
  {
    seq(|lines|, i requires 0 <= i < |lines| => if Owned(found, i) then Canonical(v, lines[i]) else lines[i])
  }

  predicate AllFound(found: Found, names: seq<Bytes>) { forall i :: 0 <= i < |names| ==> names[i] in found }
  predicate Agrees(found: Found, v: Bytes) { forall name :: name in found ==> found[name].1 == v }

  /** _replace_lock_package_versions, on the lines of the text. */
  function ReplaceLock(lines: seq<Bytes>, names: seq<Bytes>, current: Bytes, next: Bytes): Result<seq<Bytes>, LockError> {
    var found := Packages(lines, names);
    if found.Failure? then Failure(found.error)
    else if !AllFound(found.value, names) then Failure(Missing)
    else if !Agrees(found.value, current) then Failure(Drift)
    else Success(Rewritten(lines, found.value, next))
  }

  // ---- owned lines are version lines ----

  ghost predicate Sound(st: State, lines: seq<Bytes>) {
    && (forall name :: name in st.found ==>
          st.found[name].0 < |lines| && IsVersionLine(lines[st.found[name].0])
          && st.found[name].1 == Quoted(lines[st.found[name].0], VERSION_KEY))
    && (st.block.version.Some? ==>
          st.block.version.value.0 < |lines| && IsVersionLine(lines[st.block.version.value.0])
          && st.block.version.value.1 == Quoted(lines[st.block.version.value.0], VERSION_KEY))
  }

  lemma {:induction false} ScanSound(lines: seq<Bytes>, n: nat, names: seq<Bytes>)
    requires n <= |lines| && Scan(lines, n, names).Success?
    ensures Sound(Scan(lines, n, names).value, lines)
  {
    if n > 0 {
      ScanSound(lines, n - 1, names);
      hide IsNameLine, IsVersionLine, Quoted, Strip;
    }
  }

  lemma PackagesSound(lines: seq<Bytes>, names: seq<Bytes>)
    requires Packages(lines, names).Success?
    ensures Sound(State(Packages(lines, names).value, Block(None, None)), lines)
  {
    ScanSound(lines, |lines|, names);
    hide IsVersionLine, Quoted, Scan;
  }

  // ---- the same blocks, with other versions ----

  /** Two files that differ only in version lines that all say v in the second. */
  ghost predicate Differ(lines: seq<Bytes>, others: seq<Bytes>, v: Bytes, changed: set<int>) {
    && |others| == |lines|
    && forall i :: 0 <= i < |lines| ==>
         if i in changed then
           IsVersionLine(lines[i]) && IsVersionLine(others[i]) && Quoted(others[i], VERSION_KEY) == v
         else others[i] == lines[i]
  }

  function NewVersion(x: (nat, Bytes), v: Bytes, changed: set<int>): (nat, Bytes) {
    if x.0 in changed then (x.0, v) else x
  }

  function NewFound(found: Found, v: Bytes, changed: set<int>): Found {
    map name | name in found :: NewVersion(found[name], v, changed)
  }

  function NewState(st: State, v: Bytes, changed: set<int>): State {
    State(NewFound(st.found, v, changed),
          Block(st.block.name,
                if st.block.version == None then None else Some(NewVersion(st.block.version.value, v, changed))))
  }

  lemma KeysDiffer()
    ensures forall line :: !(IsVersionLine(line) && IsNameLine(line)) && (IsVersionLine(line) ==> Strip(line) != PACKAGE)
  {
    forall line | IsVersionLine(line) ensures !IsNameLine(line) && Strip(line) != PACKAGE {
      assert Strip(line)[0] == VERSION_KEY[0] == 118 && NAME_KEY[0] == 110 && PACKAGE[0] == 91;
    }
  }

  lemma FinishAlike(st: State, names: seq<Bytes>, v: Bytes, changed: set<int>)
    ensures Finish(NewState(st, v, changed), names) ==
            var f := Finish(st, names); if f.Failure? then f else Success(NewFound(f.value, v, changed))
  {
    if st.block.name.Some? && st.block.version.Some? {
      var name, x := st.block.name.value, st.block.version.value;
      assert NewFound(st.found[name := x], v, changed) == NewFound(st.found, v, changed)[name := NewVersion(x, v, changed)];
    }
  }

  lemma StepAlike(st: State, index: nat, line: Bytes, other: Bytes, names: seq<Bytes>, v: Bytes, changed: set<int>)
    requires if index in changed then
               IsVersionLine(line) && IsVersionLine(other) && Quoted(other, VERSION_KEY) == v
             else other == line
    ensures LineStep(NewState(st, v, changed), index, other, names) ==
            var r := LineStep(st, index, line, names); if r.Failure? then r else Success(NewState(r.value, v, changed))
  {
    KeysDiffer();
    FinishAlike(st, names, v, changed);
    hide IsVersionLine, IsNameLine, Quoted, Finish, Strip, PACKAGE;
    assert NewFound(map[], v, changed) == map[];
  }

  lemma {:induction false} ScanAlike(lines: seq<Bytes>, others: seq<Bytes>, n: nat, names: seq<Bytes>, v: Bytes, changed: set<int>)
    requires Differ(lines, others, v, changed) && n <= |lines|
    ensures Scan(others, n, names) ==
            var r := Scan(lines, n, names); if r.Failure? then r else Success(NewState(r.value, v, changed))
  {
    hide LineStep, IsVersionLine, Quoted, NewVersion;
    if n == 0 {
      assert NewFound(map[], v, changed) == map[];
    } else {
      hide NewFound, NewState;
      ScanAlike(lines, others, n - 1, names, v, changed);
      if Scan(lines, n - 1, names).Success? {
        StepAlike(Scan(lines, n - 1, names).value, n - 1, lines[n - 1], others[n - 1], names, v, changed);
      }
    }
  }

  lemma PackagesAlike(lines: seq<Bytes>, others: seq<Bytes>, names: seq<Bytes>, v: Bytes, changed: set<int>)
    requires Differ(lines, others, v, changed) && Packages(lines, names).Success?
    ensures Packages(others, names) == Success(NewFound(Packages(lines, names).value, v, changed))
  {
    ScanAlike(lines, others, |lines|, names, v, changed);
    FinishAlike(Scan(lines, |lines|, names).value, names, v, changed);
    hide Scan, Finish, NewState, NewFound;
  }

  // ---- the rewriter ----

  lemma CanonicalReads(v: Bytes, line: Bytes)
    ensures IsVersionLine(Canonical(v, line)) && Quoted(Canonical(v, line), VERSION_KEY) == v
    ensures EndsLf(Canonical(v, line)) == EndsLf(line)
  {
    var s := VERSION_KEY + v + [QUOTE];
    var ending: Bytes := if EndsLf(line) then [LF] else [];
    assert Canonical(v, line) == s + ending;
    assert s[0] == VERSION_KEY[0] == 118 && s[|s| - 1] == QUOTE;
    StripAfterSpaces(s, ending);
    assert VERSION_KEY <= s && s[|VERSION_KEY|..] == v + [QUOTE];
    assert (v + [QUOTE])[..|v|] == v;
  }

  function OwnedLines(found: Found): set<int> { set name | name in found :: found[name].0 }

  lemma RewrittenDiffers(lines: seq<Bytes>, names: seq<Bytes>, v: Bytes)
    requires Packages(lines, names).Success?
    ensures Differ(lines, Rewritten(lines, Packages(lines, names).value, v), v, OwnedLines(Packages(lines, names).value))
    ensures NewFound(Packages(lines, names).value, v, OwnedLines(Packages(lines, names).value)).Keys
            == Packages(lines, names).value.Keys
  {
    var found := Packages(lines, names).value;
    PackagesSound(lines, names);
    hide Packages;
    forall i | 0 <= i < |lines| ensures
        IsVersionLine(Canonical(v, lines[i])) && Quoted(Canonical(v, lines[i]), VERSION_KEY) == v
    {
      CanonicalReads(v, lines[i]);
    }
    hide IsVersionLine, Quoted, Canonical;
    assert forall i :: Owned(found, i) <==> i in OwnedLines(found);
  }

  /** Only owned version lines change; the result reads as the new version
      everywhere, so the validation in --check passes; and rewriting back
      restores the file exactly when its owned lines were canonical. */
  lemma LockAgrees(lines: seq<Bytes>, names: seq<Bytes>, current: Bytes, next: Bytes)
    requires ReplaceLock(lines, names, current, next).Success?
    ensures var found, written := Packages(lines, names).value, ReplaceLock(lines, names, current, next).value;
            && |written| == |lines|
            && (forall i :: 0 <= i < |lines| && !Owned(found, i) ==> written[i] == lines[i])
            && ReplaceLock(written, names, next, next) == Success(written)
            && ReplaceLock(written, names, next, current).Success?
            && (ReplaceLock(written, names, next, current) == Success(lines)
                <==> forall i :: 0 <= i < |lines| && Owned(found, i) ==> lines[i] == Canonical(current, lines[i]))
  {
    var found := Packages(lines, names).value;
    var changed := OwnedLines(found);
    var written := Rewritten(lines, found, next);
    RewrittenDiffers(lines, names, next);
    PackagesAlike(lines, written, names, next, changed);
    var again := NewFound(found, next, changed);
    assert forall i :: Owned(again, i) <==> Owned(found, i);
    assert Agrees(again, next) && AllFound(again, names);
    forall v, i | 0 <= i < |lines| ensures Canonical(v, Canonical(next, lines[i])) == Canonical(v, lines[i]) {
      CanonicalReads(next, lines[i]);
    }
    hide Packages, Owned, NewFound, Differ, Agrees, AllFound, Canonical;
    assert Rewritten(written, again, next) == written;
    BackAgain(lines, written, found, again, current);
  }

  lemma BackAgain(lines: seq<Bytes>, written: seq<Bytes>, found: Found, again: Found, current: Bytes)
    requires |written| == |lines| && forall i :: Owned(again, i) <==> Owned(found, i)
    requires forall i :: 0 <= i < |lines| ==>
               if Owned(found, i) then Canonical(current, written[i]) == Canonical(current, lines[i]) else written[i] == lines[i]
    ensures Rewritten(written, again, current) == lines
            <==> forall i :: 0 <= i < |lines| && Owned(found, i) ==> lines[i] == Canonical(current, lines[i])
  {
    hide Owned, Canonical;
    var back := Rewritten(written, again, current);
    assert forall i :: 0 <= i < |lines| ==> back[i] == if Owned(found, i) then Canonical(current, lines[i]) else lines[i];
  }

  // ---- on text ----

  /** Where a line ends does not depend on what follows, if no LF does. */
  lemma {:induction false} EndsBefore(line: Bytes, x: Bytes, y: Bytes)
    requires x != [] && y != [] && FirstLine(line + x) == |line| && (y[0] == x[0] || y[0] != LF)
    requires line != []
    ensures FirstLine(line + y) == |line|
    decreases |line|
  {
    if line[0] != LF && line[0] != CR && |line| > 1 {
      assert (line + x)[1..] == line[1..] + x && (line + y)[1..] == line[1..] + y;
      EndsBefore(line[1..], x, y);
    } else if |line| == 1 {
      assert (line + x)[1] == x[0] && (line + y)[1] == y[0] && (line + x)[1..] == x && (line + y)[1..] == y;
    } else {
      assert (line + x)[1] == line[1] == (line + y)[1];
    }
  }

  lemma CanonicalIsLine(v: Bytes, line: Bytes, rest: Bytes)
    requires Unbroken(v) && (EndsLf(line) || rest == [])
    ensures FirstLine(Canonical(v, line) + rest) == |Canonical(v, line)|
  {
    var body := VERSION_KEY + v + [QUOTE];
    assert Unbroken(VERSION_KEY) && Unbroken(body);
    if EndsLf(line) {
      assert Canonical(v, line) + rest == body + ([LF] + rest);
      FirstLineSkips(body, [LF] + rest);
    } else {
      assert Canonical(v, line) + rest == body;
      UnbrokenFirstLine(body);
    }
  }

  /** Line i may be rewritten without joining the line after it. */
  predicate Separate(lines: seq<Bytes>, i: int)
    requires 0 <= i < |lines|
  {
    EndsLf(lines[i]) || i == |lines| - 1
  }

  predicate CanonicalOrKept(lines: seq<Bytes>, others: seq<Bytes>, v: Bytes) {
    && |others| == |lines|
    && forall i :: 0 <= i < |lines| ==>
         others[i] == lines[i] || (others[i] == Canonical(v, lines[i]) && Separate(lines, i))
  }

  lemma CanonicalStart(v: Bytes, line: Bytes)
    ensures Canonical(v, line) != [] && Canonical(v, line)[0] != LF
  {
    assert Canonical(v, line)[0] == VERSION_KEY[0] == 118;
  }

  lemma RestCanonicalOrKept(lines: seq<Bytes>, others: seq<Bytes>, v: Bytes)
    requires CanonicalOrKept(lines, others, v) && lines != []
    ensures CanonicalOrKept(lines[1..], others[1..], v)
  {
    hide Canonical, EndsLf;
    assert forall i :: 0 <= i < |lines[1..]| ==> lines[1..][i] == lines[i + 1] && others[1..][i] == others[i + 1];
  }

  /** Canonical lines keep the division of the text into lines. */
  lemma {:induction false} CanonicalKeepsProper(lines: seq<Bytes>, others: seq<Bytes>, v: Bytes)
    requires Proper(lines) && CanonicalOrKept(lines, others, v) && Unbroken(v)
    ensures Proper(others)
  {
    if lines != [] {
      RestCanonicalOrKept(lines, others, v);
      CanonicalKeepsProper(lines[1..], others[1..], v);
      var before, rest := Flat(lines[1..]), Flat(others[1..]);
      CanonicalStart(v, lines[0]);
      if others[0] == lines[0] {
        if |lines| > 1 {
          CanonicalStart(v, lines[1]);
          FlatNonEmpty(lines[1..]);
          FlatNonEmpty(others[1..]);
          assert lines[1..][0] == lines[1] && others[1..][0] == others[1];
          hide Canonical, Proper, Flat, FirstLine;
          EndsBefore(lines[0], before, rest);
        }
      } else {
        assert |lines| == 1 ==> rest == [];
        CanonicalIsLine(v, lines[0], rest);
      }
    }
  }

  /** A rewritten line is a line only if the version has no break in it, and ends
      the line before another only if it kept its LF. */
  lemma CanonicalLineNeeds(v: Bytes, line: Bytes)
    requires IsLine(Canonical(v, line))
    ensures Unbroken(v) && (Terminated(Canonical(v, line)) ==> EndsLf(line))
  {
    var c, n := Canonical(v, line), |VERSION_KEY|;
    forall k | 0 <= k < |v| ensures v[k] != LF && v[k] != CR {
      assert c[n + k] == v[k];
    }
    assert c[n + |v|] == QUOTE;
  }

  /** The rewriter's result splits into the lines it wrote exactly when the version
      has no line break and no owned line but the last ends without LF. */
  ghost predicate Splits(lines: seq<Bytes>, found: Found, v: Bytes) {
    forall i :: 0 <= i < |lines| && Owned(found, i) ==> Unbroken(v) && Separate(lines, i)
  }

  /** What is written is read back as the same lines, and then validates, exactly
      under that condition. Text that read_text has decoded has no bare CR. */
  lemma LockText(text: Bytes, names: seq<Bytes>, current: Bytes, next: Bytes)
    requires ReplaceLock(SplitLines(text), names, current, next).Success?
    ensures var (lines, written) := (SplitLines(text), ReplaceLock(SplitLines(text), names, current, next).value);
            && (SplitLines(Flat(written)) == written <==> Splits(lines, Packages(lines, names).value, next))
            && ReplaceLock(written, names, next, next) == Success(written)
  {
    var lines := SplitLines(text);
    var found, written := Packages(lines, names).value, ReplaceLock(lines, names, current, next).value;
    LockAgrees(lines, names, current, next);
    SplitIsProper(text);
    hide Packages, Splits, Proper, Rewritten, SplitLines, Flat;
    if Splits(lines, found, next) {
      WrittenSplits(lines, found, next);
    }
    if SplitLines(Flat(written)) == written {
      SplitNeeds(lines, found, next);
    }
  }

  lemma SplitNeeds(lines: seq<Bytes>, found: Found, v: Bytes)
    requires SplitLines(Flat(Rewritten(lines, found, v))) == Rewritten(lines, found, v)
    ensures Splits(lines, found, v)
  {
    var written := Rewritten(lines, found, v);
    LinesAreLines(Flat(written));
    hide SplitLines, Flat, Canonical, IsLine, Owned, EndsLf;
    forall i | 0 <= i < |lines| && Owned(found, i) ensures Unbroken(v) && Separate(lines, i) {
      assert IsLine(SplitLines(Flat(written))[i]) && written[i] == Canonical(v, lines[i]);
      CanonicalLineNeeds(v, lines[i]);
    }
  }

  lemma WrittenSplits(lines: seq<Bytes>, found: Found, v: Bytes)
    requires Proper(lines) && Splits(lines, found, v)
    ensures SplitLines(Flat(Rewritten(lines, found, v))) == Rewritten(lines, found, v)
  {
    var written := Rewritten(lines, found, v);
    if i :| 0 <= i < |lines| && Owned(found, i) {
      CanonicalKeepsProper(lines, written, v);
    } else {
      assert written == lines;
    }
    ProperSplits(written);
  }

  /** Text without CR: every line but the last ends in LF. */
  lemma LfLinesAreSeparate(text: Bytes, i: nat)
    requires CR !in text && i < |SplitLines(text)|
    ensures Separate(SplitLines(text), i)
  {
    LinesAreLines(text);
    LineBytes(text, i, CR);
  }

  /** So such text is always written as the lines it will be read as. */
  lemma LfTextSplits(text: Bytes, names: seq<Bytes>, next: Bytes)
    requires CR !in text && Unbroken(next) && Packages(SplitLines(text), names).Success?
    ensures Splits(SplitLines(text), Packages(SplitLines(text), names).value, next)
  {
    var lines := SplitLines(text);
    hide Packages, SplitLines, Owned, EndsLf;
    forall i | 0 <= i < |lines| ensures Separate(lines, i) {
      LfLinesAreSeparate(text, i);
    }
  }

  lemma RewrittenHasNoCr(text: Bytes, names: seq<Bytes>, current: Bytes, next: Bytes)
    requires CR !in text && CR !in next && ReplaceLock(SplitLines(text), names, current, next).Success?
    ensures CR !in Flat(ReplaceLock(SplitLines(text), names, current, next).value)
  {
    var lines := SplitLines(text);
    var written := ReplaceLock(lines, names, current, next).value;
    assert CR !in VERSION_KEY;
    hide Packages, SplitLines, Owned, AllFound, Agrees;
    forall i | 0 <= i < |lines| ensures CR !in written[i] {
      LineBytes(text, i, CR);
    }
    FlatBytes(written, CR);
  }

  // ---- the loops ----

  method ReplaceLockPackageVersions(text: Bytes, names: seq<Bytes>, current: Bytes, next: Bytes)
    returns (r: Result<Bytes, LockError>)
    ensures r == var written := ReplaceLock(SplitLines(text), names, current, next);
                 if written.Failure? then Failure(written.error) else Success(Flat(written.value))
  {
    var lines := SplitLines(text);
    var st := State(map[], Block(None, None));
    var index := 0;
    hide SplitLines, LineStep, Finish, Flat, Rewritten;
    while index < |lines|
      invariant index <= |lines|
      invariant Scan(lines, index, names) == Success(st)
    {
      var step := LineStep(st, index, lines[index], names);
      if step.Failure? {
        ScanFails(lines, index + 1, names);
        return Failure(step.error);
      }
      st := step.value;
      index := index + 1;
    }
    var finished := Finish(st, names);
    if finished.Failure? { return Failure(finished.error); }
    var found := finished.value;
    if !AllFound(found, names) { return Failure(Missing); }
    if !Agrees(found, current) { return Failure(Drift); }
    PackagesSound(lines, names);
    lines := RewriteOwned(lines, found, next);
    r := Success(Flat(lines));
  }

  lemma {:induction false} ScanFails(lines: seq<Bytes>, n: nat, names: seq<Bytes>)
    requires n <= |lines| && Scan(lines, n, names).Failure?
    ensures Scan(lines, |lines|, names) == Scan(lines, n, names)
    decreases |lines| - n
  {
    hide LineStep;
    if n < |lines| {
      ScanFails(lines, n + 1, names);
    }
  }

  method RewriteOwned(lines0: seq<Bytes>, found: Found, v: Bytes) returns (lines: seq<Bytes>)
    requires forall name :: name in found ==> found[name].0 < |lines0|
    ensures lines == Rewritten(lines0, found, v)
  {
    lines := lines0;
    var left := found.Keys;
    hide Canonical;
    while left != {}
      invariant left <= found.Keys && |lines| == |lines0|
      invariant forall i :: 0 <= i < |lines| ==>
                  lines[i] == if i in Done(found, left) then Canonical(v, lines0[i]) else lines0[i]
      decreases |left|
    {
      var name :| name in left;
      var k := found[name].0;
      CanonicalTwice(v, lines0[k]);
      lines := lines[k := Canonical(v, lines[k])];
      assert Done(found, left - {name}) == Done(found, left) + {k};
      left := left - {name};
    }
    assert forall i :: i in Done(found, {}) <==> Owned(found, i);
    assert lines == Rewritten(lines0, found, v);
  }

  function Done(found: Found, left: set<Bytes>): set<int> {
    set name | name in found && name !in left :: found[name].0
  }

  lemma CanonicalTwice(v: Bytes, line: Bytes)
    ensures Canonical(v, Canonical(v, line)) == Canonical(v, line)
  {
    CanonicalReads(v, line);
  }
}
