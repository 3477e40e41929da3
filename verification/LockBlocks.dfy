/** The package blocks of a Cargo.lock and the versions they state: read off the
    file, not off the scan. */
module LockBlocks {
  import opened Bytes
  import opened LineSplit
  import opened VersionLines
  import opened LockVersion
  import opened Wrappers

  predicate StartsBlock(line: Bytes) { Strip(line) == Ascii("[[package]]") }

  /** The stripped line is name = "x, or name = "x" with its quote. */
  predicate Names(line: Bytes, x: Bytes) { Says(Strip(line), Ascii("name = \""), x) }
  predicate States(line: Bytes, v: Bytes) { Says(Strip(line), Ascii("version = \""), v) }

  /** key and x, and a closing quote unless there is none at the end. */
  predicate Says(s: Bytes, key: Bytes, x: Bytes) {
    s == key + x + [34] || (s == key + x && (x == [] || x[|x| - 1] != 34))
  }

  ghost predicate IsName(line: Bytes) { exists x :: Names(line, x) }
  ghost predicate IsVersion(line: Bytes) { exists v :: States(line, v) }

  /** Lines a up to b are a block, or what stands before the first one. */
  predicate IsBlock(lines: seq<Bytes>, a: int, b: int) {
    && 0 <= a <= b <= |lines|
    && (a == 0 || StartsBlock(lines[a - 1])) && (b == |lines| || StartsBlock(lines[b]))
    && forall i :: a <= i < b ==> !StartsBlock(lines[i])
  }

  /** The first name line of the block says name. */
  ghost predicate BlockNamed(lines: seq<Bytes>, a: int, b: int, name: Bytes) {
    exists i :: NamedAt(lines, a, b, i, name)
  }

  ghost predicate NamedAt(lines: seq<Bytes>, a: int, b: int, i: int, name: Bytes) {
    0 <= a <= i < b <= |lines| && Names(lines[i], name) && forall j :: a <= j < i ==> !IsName(lines[j])
  }

  /** The first version line of the block is line i and says v. */
  ghost predicate StatedAt(lines: seq<Bytes>, a: int, b: int, i: int, v: Bytes) {
    0 <= a <= i < b <= |lines| && States(lines[i], v) && forall j :: a <= j < i ==> !IsVersion(lines[j])
  }

  // ---- lines ----

  lemma LineWords(line: Bytes)
    ensures StartsBlock(line) <==> Strip(line) == PACKAGE
    ensures IsNameLine(line) <==> IsName(line)
    ensures IsVersionLine(line) <==> IsVersion(line)
  {
    hide Strip, Says;
    var s := Strip(line);
    assert NAME_KEY == Ascii("name = \"") && VERSION_KEY == Ascii("version = \"") && PACKAGE == Ascii("[[package]]");
    hide NAME_KEY, VERSION_KEY, PACKAGE;
    KeySays(s, Ascii("name = \""));
    KeySays(s, Ascii("version = \""));
    if x :| Says(s, Ascii("name = \""), x) { assert Names(line, x); }
    if x :| Says(s, Ascii("version = \""), x) { assert States(line, x); }
  }

  function Unquoted(s: Bytes): Bytes { if s != [] && s[|s| - 1] == 34 then s[..|s| - 1] else s }

  lemma KeySays(s: Bytes, key: Bytes)
    ensures key <= s <==> exists x :: Says(s, key, x)
    ensures key <= s ==> forall x :: Says(s, key, x) <==> x == Unquoted(s[|key|..])
  {
    if key <= s {
      var rest := s[|key|..];
      assert s == key + rest;
      assert Says(s, key, Unquoted(rest)) by {
        if rest != [] && rest[|rest| - 1] == 34 {
          assert rest == rest[..|rest| - 1] + [34];
          assert key + rest[..|rest| - 1] + [34] == key + (rest[..|rest| - 1] + [34]);
        }
      }
      forall x | Says(s, key, x) ensures x == Unquoted(rest) {
        if s == key + x + [34] {
          assert rest == x + [34];
        } else {
          assert rest == x;
        }
      }
    }
    if x :| Says(s, key, x) {
      assert key <= key + x + [34] && key <= key + x;
    }
  }

  lemma QuotedWords(line: Bytes)
    ensures IsNameLine(line) ==> forall x :: Names(line, x) <==> x == Quoted(line, NAME_KEY)
    ensures IsVersionLine(line) ==> forall v :: States(line, v) <==> v == Quoted(line, VERSION_KEY)
  {
    hide Strip, Says;
    assert NAME_KEY == Ascii("name = \"") && VERSION_KEY == Ascii("version = \"");
    hide NAME_KEY, VERSION_KEY;
    KeySays(Strip(line), Ascii("name = \""));
    KeySays(Strip(line), Ascii("version = \""));
  }

  // ---- the block that is being read ----

  /** The first n lines end in a block that begins at line a. */
  ghost predicate OpenBlock(lines: seq<Bytes>, a: int, n: int) {
    && 0 <= a <= n <= |lines| && (a == 0 || StartsBlock(lines[a - 1]))
    && forall i :: a <= i < n ==> !StartsBlock(lines[i])
  }

  ghost predicate NoName(lines: seq<Bytes>, a: int, n: int) {
    0 <= a <= n <= |lines| && forall i :: a <= i < n ==> !IsName(lines[i])
  }

  ghost predicate NoVersion(lines: seq<Bytes>, a: int, n: int) {
    0 <= a <= n <= |lines| && forall i :: a <= i < n ==> !IsVersion(lines[i])
  }

  /** What the scan knows of the open block. */
  ghost predicate BlockRead(lines: seq<Bytes>, a: int, n: int, block: Block) {
    && (match block.name
        case None => NoName(lines, a, n)
        case Some(name) => BlockNamed(lines, a, n, name))
    && (match block.version
        case None => NoVersion(lines, a, n)
        case Some((i, v)) => StatedAt(lines, a, n, i, v))
  }

  lemma BlockReadNext(lines: seq<Bytes>, a: int, n: int, st: State, names: seq<Bytes>)
    requires 0 <= a <= n < |lines| && BlockRead(lines, a, n, st.block) && !StartsBlock(lines[n])
    ensures var r := LineStep(st, n, lines[n], names);
            r.Success? && r.value.found == st.found && BlockRead(lines, a, n + 1, r.value.block)
  {
    LineWords(lines[n]);
    QuotedWords(lines[n]);
    KeysDiffer();
    hide StartsBlock, IsName, IsVersion, Names, States, Quoted, IsNameLine, IsVersionLine, Finish, Strip;
    NamedLater(lines, a, n);
    if st.block.name == None && IsNameLine(lines[n]) {
      assert NamedAt(lines, a, n + 1, n, Quoted(lines[n], NAME_KEY)) by { IsNameNow(lines[n]); }
    }
    if st.block.version == None && IsVersionLine(lines[n]) {
      IsVersionNow(lines[n]);
    }
  }

  lemma NamedLater(lines: seq<Bytes>, a: int, n: int)
    requires 0 <= a <= n < |lines|
    ensures forall name :: BlockNamed(lines, a, n, name) ==> BlockNamed(lines, a, n + 1, name)
  {
    hide Names, IsName;
    forall name | BlockNamed(lines, a, n, name) ensures BlockNamed(lines, a, n + 1, name) {
      var i :| NamedAt(lines, a, n, i, name);
      assert NamedAt(lines, a, n + 1, i, name);
    }
  }

  lemma IsNameNow(line: Bytes)
    requires IsNameLine(line)
    ensures Names(line, Quoted(line, NAME_KEY))
  {
    QuotedWords(line);
  }

  lemma IsVersionNow(line: Bytes)
    requires IsVersionLine(line)
    ensures States(line, Quoted(line, VERSION_KEY))
  {
    QuotedWords(line);
  }

  // ---- the blocks that were closed ----

  ghost predicate OwnedBlock(lines: seq<Bytes>, names: seq<Bytes>, a: int, b: int, name: Bytes) {
    IsBlock(lines, a, b) && BlockNamed(lines, a, b, name) && name in names
  }

  /** The versions found are those of the owned blocks that end before place n. */
  ghost predicate FoundRead(lines: seq<Bytes>, names: seq<Bytes>, n: int, found: Found) {
    && (forall a, b, name :: OwnedBlock(lines, names, a, b, name) && b < n ==>
          name in found && StatedAt(lines, a, b, found[name].0, found[name].1))
    && (forall name :: name in found ==> HasBlock(lines, names, n, name))
    && OneBlockEach(lines, names, n)
  }

  ghost predicate HasBlock(lines: seq<Bytes>, names: seq<Bytes>, n: int, name: Bytes) {
    exists a, b :: OwnedBlock(lines, names, a, b, name) && b < n
  }

  ghost predicate OneBlockEach(lines: seq<Bytes>, names: seq<Bytes>, n: int) {
    forall a, b, c, d, name :: OwnedBlock(lines, names, a, b, name) && OwnedBlock(lines, names, c, d, name) && b < n && d < n ==>
      a == c && b == d
  }

  ghost predicate StatesNothing(lines: seq<Bytes>, a: int, b: int) { forall i, v :: !StatedAt(lines, a, b, i, v) }

  /** An owned block states no version, or two have the same name. */
  ghost predicate Refused(lines: seq<Bytes>, names: seq<Bytes>) {
    || (exists a, b, name :: OwnedBlock(lines, names, a, b, name) && StatesNothing(lines, a, b))
    || !OneBlockEach(lines, names, |lines| + 1)
  }

  lemma FirstNameOnly(lines: seq<Bytes>, a: int, b: int)
    ensures forall x, y :: BlockNamed(lines, a, b, x) && BlockNamed(lines, a, b, y) ==> x == y
    ensures NoName(lines, a, b) ==> forall x :: !BlockNamed(lines, a, b, x)
  {
    forall x, y | BlockNamed(lines, a, b, x) && BlockNamed(lines, a, b, y) ensures x == y {
      var i :| NamedAt(lines, a, b, i, x);
      var j :| NamedAt(lines, a, b, j, y);
      assert IsName(lines[i]) && IsName(lines[j]);
      LineWords(lines[i]);
      QuotedWords(lines[i]);
    }
  }

  lemma FirstVersionOnly(lines: seq<Bytes>, a: int, b: int)
    ensures NoVersion(lines, a, b) ==> StatesNothing(lines, a, b)
    ensures forall i, v, j, w :: StatedAt(lines, a, b, i, v) && StatedAt(lines, a, b, j, w) ==> i == j && v == w
  {
    forall i, v, j, w | StatedAt(lines, a, b, i, v) && StatedAt(lines, a, b, j, w) ensures i == j && v == w {
      assert IsVersion(lines[i]) && IsVersion(lines[j]);
      LineWords(lines[i]);
      QuotedWords(lines[i]);
    }
  }

  /** A block that ends here is the open one, or ended before it began. */
  lemma ClosedBlocks(lines: seq<Bytes>, a: int, n: int)
    requires OpenBlock(lines, a, n) && (n == |lines| || StartsBlock(lines[n]))
    ensures IsBlock(lines, a, n)
    ensures forall c, d :: IsBlock(lines, c, d) && d < n + 1 ==> d < a || (c == a && d == n)
  {
    hide StartsBlock;
  }

  lemma CloseBlock(lines: seq<Bytes>, names: seq<Bytes>, a: int, n: int, st: State)
    requires OpenBlock(lines, a, n) && (n == |lines| || StartsBlock(lines[n]))
    requires BlockRead(lines, a, n, st.block) && FoundRead(lines, names, a, st.found)
    ensures var f := Finish(st, names);
            if f.Success? then FoundRead(lines, names, n + 1, f.value) else Refused(lines, names)
  {
    ClosedBlocks(lines, a, n);
    FirstNameOnly(lines, a, n);
    FirstVersionOnly(lines, a, n);
    hide OpenBlock, IsBlock, BlockNamed, StatedAt, NoName, NoVersion, StartsBlock;
    match st.block.name
    case None =>
      StillRead(lines, names, a, n, st.found);
    case Some(name) =>
      if name !in names {
        StillRead(lines, names, a, n, st.found);
      } else {
        assert OwnedBlock(lines, names, a, n, name);
        if st.block.version == None {
          assert StatesNothing(lines, a, n);
        } else if name in st.found {
          Twice(lines, names, a, n, name);
        } else {
          NowRead(lines, names, a, n, st.found, name, st.block.version.value);
        }
      }
  }

  ghost predicate OnlyOpen(lines: seq<Bytes>, a: int, n: int) {
    forall c, d :: IsBlock(lines, c, d) && d < n + 1 ==> d < a || (c == a && d == n)
  }

  lemma StillRead(lines: seq<Bytes>, names: seq<Bytes>, a: int, n: int, found: Found)
    requires 0 <= a <= n && OnlyOpen(lines, a, n) && FoundRead(lines, names, a, found)
    requires forall name :: BlockNamed(lines, a, n, name) ==> name !in names
    ensures FoundRead(lines, names, n + 1, found)
  {
    hide IsBlock, BlockNamed, StatedAt;
    assert forall c, d, name :: OwnedBlock(lines, names, c, d, name) && d < n + 1 ==> d < a;
    forall name | name in found ensures HasBlock(lines, names, n + 1, name) {
      assert HasBlock(lines, names, a, name);
    }
  }

  lemma NowRead(lines: seq<Bytes>, names: seq<Bytes>, a: int, n: int, found: Found, name: Bytes, x: (nat, Bytes))
    requires 0 <= a <= n && OnlyOpen(lines, a, n) && FoundRead(lines, names, a, found)
    requires OwnedBlock(lines, names, a, n, name) && StatedAt(lines, a, n, x.0, x.1) && name !in found
    requires forall other :: BlockNamed(lines, a, n, other) ==> other == name
    ensures FoundRead(lines, names, n + 1, found[name := x])
  {
    hide IsBlock, BlockNamed, StatedAt;
    assert forall c, d, y :: OwnedBlock(lines, names, c, d, y) && d < n + 1 ==> (d < a && y != name) || (c == a && d == n && y == name);
    var after := found[name := x];
    forall y | y in after ensures HasBlock(lines, names, n + 1, y) {
      if y != name {
        assert HasBlock(lines, names, a, y);
      }
    }
  }

  lemma Twice(lines: seq<Bytes>, names: seq<Bytes>, a: int, n: int, name: Bytes)
    requires 0 <= a <= n <= |lines| && OwnedBlock(lines, names, a, n, name) && HasBlock(lines, names, a, name)
    ensures Refused(lines, names)
  {
    hide IsBlock, BlockNamed, StatedAt;
    var c, d :| OwnedBlock(lines, names, c, d, name) && d < a;
    assert !OneBlockEach(lines, names, |lines| + 1);
  }

  // ---- the scan ----

  /** A scan that goes on knows the open block and the closed ones. */
  ghost predicate ScanRead(lines: seq<Bytes>, names: seq<Bytes>, n: nat, st: State) {
    exists a :: ReadFrom(lines, names, a, n, st)
  }

  ghost predicate ReadFrom(lines: seq<Bytes>, names: seq<Bytes>, a: int, n: nat, st: State) {
    OpenBlock(lines, a, n) && BlockRead(lines, a, n, st.block) && FoundRead(lines, names, a, st.found)
  }

  lemma {:induction false} ScanReads(lines: seq<Bytes>, names: seq<Bytes>, n: nat)
    requires n <= |lines|
    ensures var st := Scan(lines, n, names);
            if st.Success? then ScanRead(lines, names, n, st.value) else Refused(lines, names)
  {
    if n == 0 {
      NothingRead(lines, names);
    } else {
      ScanReads(lines, names, n - 1);
      hide LineStep, ScanRead, Refused;
      if Scan(lines, n - 1, names).Success? {
        StepReads(lines, names, n - 1, Scan(lines, n - 1, names).value);
      }
    }
  }

  lemma NothingRead(lines: seq<Bytes>, names: seq<Bytes>)
    ensures ScanRead(lines, names, 0, State(map[], Block(None, None)))
  {
    hide IsName, IsVersion, StartsBlock, BlockNamed;
    assert forall a, b, name :: OwnedBlock(lines, names, a, b, name) ==> b >= 0;
    assert ReadFrom(lines, names, 0, 0, State(map[], Block(None, None)));
  }

  lemma StepReads(lines: seq<Bytes>, names: seq<Bytes>, n: nat, st: State)
    requires n < |lines| && ScanRead(lines, names, n, st)
    ensures var r := LineStep(st, n, lines[n], names);
            if r.Success? then ScanRead(lines, names, n + 1, r.value) else Refused(lines, names)
  {
    var a :| ReadFrom(lines, names, a, n, st);
    LineWords(lines[n]);
    hide StartsBlock, FoundRead, BlockRead, Refused, Finish, IsName, IsVersion, Strip;
    if StartsBlock(lines[n]) {
      CloseBlock(lines, names, a, n, st);
      var f := Finish(st, names);
      if f.Success? {
        EmptyBlock(lines, n + 1);
        assert ReadFrom(lines, names, n + 1, n + 1, State(f.value, Block(None, None)));
      }
    } else {
      BlockReadNext(lines, a, n, st, names);
      hide LineStep;
      assert ReadFrom(lines, names, a, n + 1, LineStep(st, n, lines[n], names).value);
    }
  }

  lemma EmptyBlock(lines: seq<Bytes>, n: nat)
    requires n <= |lines|
    ensures BlockRead(lines, n, n, Block(None, None))
  {
  }

  /** The scan succeeds exactly if every owned block states a version and no two
      have the same name, and finds the first version line of each. */
  lemma PackagesExactly(lines: seq<Bytes>, names: seq<Bytes>)
    ensures Packages(lines, names).Success? <==> !Refused(lines, names)
    ensures Packages(lines, names).Success? ==> FoundRead(lines, names, |lines| + 1, Packages(lines, names).value)
  {
    ScanReads(lines, names, |lines|);
    hide Scan, Refused, FoundRead;
    var st := Scan(lines, |lines|, names);
    if st.Success? {
      LastBlock(lines, names, st.value);
      var f := Finish(st.value, names);
      if f.Success? {
        ReadIsNotRefused(lines, names, f.value);
      }
    }
  }

  lemma LastBlock(lines: seq<Bytes>, names: seq<Bytes>, st: State)
    requires ScanRead(lines, names, |lines|, st)
    ensures var f := Finish(st, names);
            if f.Success? then FoundRead(lines, names, |lines| + 1, f.value) else Refused(lines, names)
  {
    var a :| ReadFrom(lines, names, a, |lines|, st);
    hide FoundRead, BlockRead, Refused, OpenBlock, Finish;
    CloseBlock(lines, names, a, |lines|, st);
  }

  lemma ReadIsNotRefused(lines: seq<Bytes>, names: seq<Bytes>, found: Found)
    requires FoundRead(lines, names, |lines| + 1, found)
    ensures !Refused(lines, names)
  {
    BlocksEnd(lines);
    hide IsBlock, BlockNamed, StatedAt;
    forall a, b, name | OwnedBlock(lines, names, a, b, name) ensures !StatesNothing(lines, a, b) {
      assert StatedAt(lines, a, b, found[name].0, found[name].1);
    }
  }

  // ---- what the file declares ----

  /** Exactly one block bears the name, and its first version line says v. */
  ghost predicate OneBlockSays(lines: seq<Bytes>, name: Bytes, v: Bytes) {
    exists a, b, i :: SaysIn(lines, name, v, a, b, i)
  }

  ghost predicate SaysIn(lines: seq<Bytes>, name: Bytes, v: Bytes, a: int, b: int, i: int) {
    && IsBlock(lines, a, b) && BlockNamed(lines, a, b, name) && StatedAt(lines, a, b, i, v)
    && forall c, d :: IsBlock(lines, c, d) && BlockNamed(lines, c, d, name) ==> c == a && d == b
  }

  /** A lock file agrees with a version exactly if each package has one block that
      says so; then exactly the version lines of these blocks are rewritten. */
  lemma LockExactly(lines: seq<Bytes>, names: seq<Bytes>, current: Bytes, next: Bytes)
    ensures ReplaceLock(lines, names, current, next).Success?
            <==> forall name :: name in names ==> OneBlockSays(lines, name, current)
    ensures ReplaceLock(lines, names, current, next).Success? ==>
              forall i :: Owned(Packages(lines, names).value, i)
                          <==> exists name, a, b :: name in names && SaysIn(lines, name, current, a, b, i)
  {
    PackagesExactly(lines, names);
    hide Packages, IsBlock, BlockNamed, StatedAt;
    if ReplaceLock(lines, names, current, next).Success? {
      FoundSays(lines, names, current, Packages(lines, names).value);
    }
    if forall name :: name in names ==> OneBlockSays(lines, name, current) {
      SayingIsFound(lines, names, current);
      SayingAgrees(lines, names, current, Packages(lines, names).value);
    }
  }

  lemma FoundSays(lines: seq<Bytes>, names: seq<Bytes>, v: Bytes, found: Found)
    requires FoundRead(lines, names, |lines| + 1, found) && AllFound(found, names) && Agrees(found, v)
    ensures forall name :: name in names ==> OneBlockSays(lines, name, v)
    ensures forall i :: Owned(found, i) <==> exists name, a, b :: name in names && SaysIn(lines, name, v, a, b, i)
  {
    BlocksEnd(lines);
    hide IsBlock, BlockNamed, StatedAt;
    forall name | name in names ensures name in found && SaidAt(lines, name, v, found[name].0) {
      var k :| 0 <= k < |names| && names[k] == name;
      BlockSays(lines, names, v, found, name);
    }
    forall i | Owned(found, i) ensures exists name, a, b :: name in names && SaysIn(lines, name, v, a, b, i) {
      var name :| name in found && found[name].0 == i;
      BlockSays(lines, names, v, found, name);
      var a, b :| SaysIn(lines, name, v, a, b, i);
      assert name in names by { assert HasBlock(lines, names, |lines| + 1, name); }
    }
    forall name, a, b, i | name in names && SaysIn(lines, name, v, a, b, i) ensures Owned(found, i) {
      assert OwnedBlock(lines, names, a, b, name);
      FirstVersionOnly(lines, a, b);
    }
  }

  ghost predicate SaidAt(lines: seq<Bytes>, name: Bytes, v: Bytes, i: int) { exists a, b :: SaysIn(lines, name, v, a, b, i) }

  lemma BlocksEnd(lines: seq<Bytes>)
    ensures forall a, b :: IsBlock(lines, a, b) ==> b < |lines| + 1
  {
    hide StartsBlock;
  }

  lemma BlockSays(lines: seq<Bytes>, names: seq<Bytes>, v: Bytes, found: Found, name: Bytes)
    requires FoundRead(lines, names, |lines| + 1, found) && Agrees(found, v) && name in found
    ensures SaidAt(lines, name, v, found[name].0) && OneBlockSays(lines, name, v)
  {
    BlocksEnd(lines);
    hide IsBlock, BlockNamed, StatedAt;
    assert HasBlock(lines, names, |lines| + 1, name);
    var a, b :| OwnedBlock(lines, names, a, b, name) && b < |lines| + 1;
    forall c, d | IsBlock(lines, c, d) && BlockNamed(lines, c, d, name) ensures c == a && d == b {
      assert OwnedBlock(lines, names, c, d, name);
    }
    assert SaysIn(lines, name, v, a, b, found[name].0);
  }

  lemma SayingIsFound(lines: seq<Bytes>, names: seq<Bytes>, v: Bytes)
    requires forall name :: name in names ==> OneBlockSays(lines, name, v)
    ensures !Refused(lines, names)
  {
    hide IsBlock, BlockNamed, StatedAt;
    forall a, b, c, d, name | OwnedBlock(lines, names, a, b, name) && OwnedBlock(lines, names, c, d, name)
      ensures a == c && b == d && !StatesNothing(lines, a, b)
    {
      assert OneBlockSays(lines, name, v);
      var x, y, i :| SaysIn(lines, name, v, x, y, i);
    }
  }

  lemma SayingAgrees(lines: seq<Bytes>, names: seq<Bytes>, v: Bytes, found: Found)
    requires FoundRead(lines, names, |lines| + 1, found) && forall name :: name in names ==> OneBlockSays(lines, name, v)
    ensures AllFound(found, names) && Agrees(found, v)
  {
    BlocksEnd(lines);
    hide IsBlock, BlockNamed, StatedAt;
    forall name | name in names ensures name in found {
      assert OneBlockSays(lines, name, v);
      var a, b, i :| SaysIn(lines, name, v, a, b, i);
      assert OwnedBlock(lines, names, a, b, name);
    }
    forall name | name in found ensures found[name].1 == v {
      assert HasBlock(lines, names, |lines| + 1, name);
      var c, d :| OwnedBlock(lines, names, c, d, name) && d < |lines| + 1;
      assert OneBlockSays(lines, name, v);
      var a, b, i :| SaysIn(lines, name, v, a, b, i);
      FirstVersionOnly(lines, a, b);
    }
  }
}
