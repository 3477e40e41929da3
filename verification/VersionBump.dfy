/** The version update as a validate-then-write transaction over the declaring
    files, and the --check that must accept its result. */
module VersionBump {
  import opened Bytes
  import opened Decimals
  import opened LineSplit
  import opened LockVersion
  import opened Semver
  import opened TomlVersion
  import opened VersionLines
  import opened Wrappers

  /** The declaring files, and all the others. */
  datatype Path =
    | VersionFile
    | CorePyproject | McpPyproject      // vibecrafted-core/pyproject.toml, vibecrafted-mcp/pyproject.toml
    | CorePackaged | McpPackaged        // the packaged VERSION files
    | WebCargo | ControlCargo | ShimCargo
    | ServerLock | AppLock
    | Other(name: string)

  /** The raw bytes of each file. */
  type Files = map<Path, Bytes>

  /** files[p].read_text() */
  function TextOf(files: Files, p: Path): (text: Bytes)
    requires p in files
    ensures CR !in text
  {
    ReadHasNoCr(files[p]);
    ReadText(files[p])
  }

  const PROJECT: Bytes := Ascii("project")
  const PACKAGE_TABLE: Bytes := Ascii("package")
  const SERVER_PACKAGES: seq<Bytes> := [Ascii("control-core"), Ascii("vibecrafted-server-web"), Ascii("vc-mcp-shim")]
  const APP_PACKAGES: seq<Bytes> := [Ascii("control-core")]

  /** How a file declares the version. */
  datatype Kind = Table(table: Bytes) | Plain | Lock(names: seq<Bytes>)
  datatype Target = Target(path: Path, kind: Kind)

  function PythonTargets(): seq<Target> {
    [Target(CorePyproject, Table(PROJECT)), Target(McpPyproject, Table(PROJECT)),
     Target(CorePackaged, Plain), Target(McpPackaged, Plain)]
  }

  function CargoTargets(): seq<Target> {
    [Target(WebCargo, Table(PACKAGE_TABLE)), Target(ControlCargo, Table(PACKAGE_TABLE)), Target(ShimCargo, Table(PACKAGE_TABLE))]
  }

  function LockTargets(): seq<Target> {
    [Target(ServerLock, Lock(SERVER_PACKAGES)), Target(AppLock, Lock(APP_PACKAGES))]
  }

  predicate AnyExists(files: Files, targets: seq<Target>) { exists i :: 0 <= i < |targets| && targets[i].path in files }
  predicate AllExist(files: Files, targets: seq<Target>) { forall i :: 0 <= i < |targets| ==> targets[i].path in files }

  function Existing(files: Files, targets: seq<Target>): seq<Target> {
    if targets == [] then []
    else Existing(files, targets[..|targets| - 1])
         + (if targets[|targets| - 1].path in files then [targets[|targets| - 1]] else [])
  }

  /** What mirrors VERSION; None where the layout is incomplete. The Python files
      are read even when only the Cargo files exist, so that layout is refused. */
  function Targets(files: Files): Option<seq<Target>> {
    var python, cargo := AnyExists(files, PythonTargets()), AnyExists(files, CargoTargets());
    if !python && !cargo then Some([])
    else if !AllExist(files, PythonTargets()) || (cargo && !AllExist(files, CargoTargets())) then None
    else Some(PythonTargets() + (if cargo then CargoTargets() else []) + Existing(files, LockTargets()))
  }

  // ---- one file ----

  predicate Accepts(k: Kind, text: Bytes, v: Bytes) {
    match k
    case Table(table) => TableVersion(SplitLines(text), table) == Some(v)
    case Plain => Strip(text) == v
    case Lock(names) => ReplaceLock(SplitLines(text), names, v, v).Success?
  }

  function Updated(k: Kind, text: Bytes, current: Bytes, next: Bytes): Option<Bytes> {
    match k
    case Table(table) =>
      var changed := ReplaceTable(SplitLines(text), next, table);
      if changed == None then None else Some(Flat(changed.value))
    case Plain => Some(next + [LineSplit.LF])
    case Lock(names) =>
      var changed := ReplaceLock(SplitLines(text), names, current, next);
      if changed.Failure? then None else Some(Flat(changed.value))
  }

  lemma TrimmedBack(next: Bytes)
    ensures Strip(ReadText(next + [LineSplit.LF])) == next <==> Trimmed(next) && CR !in next
  {
    var raw := next + [LineSplit.LF];
    ReadsAsItIs(raw);
    ReadHasNoCr(raw);
    StripIsTrimmed(ReadText(raw));
    hide Strip, IsSpace;
    if CR !in next && Trimmed(next) {
      LfIsSpace();
      StripAfterSpaces(next, [LineSplit.LF]);
    }
    if Strip(ReadText(raw)) == next {
      StripOnlyDrops(ReadText(raw), CR);
    }
  }

  lemma LfIsSpace()
    ensures IsSpace(LineSplit.LF)
  {
  }

  lemma {:induction false} StripOnlyDrops(s: Bytes, x: byte)
    requires x !in s
    ensures x !in Strip(s)
  {
    if s != [] {
      StripOnlyDrops(s[1..], x);
      StripOnlyDrops(s[..|s| - 1], x);
    }
  }

  /** A file that declared the current version can be rewritten. */
  lemma UpdatedExists(k: Kind, text: Bytes, current: Bytes, next: Bytes)
    requires Accepts(k, text, current)
    ensures Updated(k, text, current, next).Some?
  {
    hide Packages, Rewritten, VersionLine, SplitLines;
  }

  /** Once rewritten, and read again, it declares the next version: a table or a
      Cargo.lock if that has no line break, a packaged VERSION if it is trimmed. */
  lemma UpdatedAccepts(k: Kind, text: Bytes, current: Bytes, next: Bytes)
    requires Accepts(k, text, current) && CR !in text && Quotable(next)
    ensures Updated(k, text, current, next).Some?
    ensures Accepts(k, ReadText(Updated(k, text, current, next).value), next) <==> (k.Plain? ==> Trimmed(next))
  {
    UpdatedExists(k, text, current, next);
    var written := Updated(k, text, current, next).value;
    ReadsAsItIs(written);
    match k
    case Table(table) =>
      ReplaceInText(text, next, table);
      ReplacedHasNoCr(text, next, table);
    case Plain => TrimmedBack(next);
    case Lock(names) =>
      LockText(text, names, current, next);
      LfTextSplits(text, names, next);
      RewrittenHasNoCr(text, names, current, next);
  }

  /** A table file whose version is changed and changed back: the file is as it
      was exactly if it had no CR, for the endings of all its lines become LF. */
  lemma ThereAndBack(raw: Bytes, table: Bytes, current: Bytes, next: Bytes)
    requires Accepts(Table(table), ReadText(raw), current) && Quotable(next)
    ensures Updated(Table(table), ReadText(raw), current, next).Some?
    ensures var written := Updated(Table(table), ReadText(raw), current, next).value;
            Updated(Table(table), ReadText(written), next, current) == Some(raw) <==> CR !in raw
  {
    ReadHasNoCr(raw);
    var text := ReadText(raw);
    ReplaceInText(text, next, table);
    ReplacedHasNoCr(text, next, table);
    ReadsAsItIs(Flat(ReplaceTable(SplitLines(text), next, table).value));
    ReadsAsItIs(raw);
    hide ReplaceTable, SplitLines, Flat, ReadText;
  }

  // ---- the whole update ----

  predicate AllAccept(files: Files, targets: seq<Target>, v: Bytes) {
    forall i :: 0 <= i < |targets| ==> targets[i].path in files && Accepts(targets[i].kind, TextOf(files, targets[i].path), v)
  }

  /** The texts to write, or None if some file refuses. */
  function Updates(files: Files, targets: seq<Target>, current: Bytes, next: Bytes): Option<Files> {
    if targets == [] then Some(map[])
    else
      var t := targets[|targets| - 1];
      var before := Updates(files, targets[..|targets| - 1], current, next);
      if before == None || t.path !in files then None
      else
        var text := Updated(t.kind, TextOf(files, t.path), current, next);
        if text == None then None else Some(before.value[t.path := text.value])
  }

  datatype Refusal = Refused

  /** update_version_declarations: the files after it, and the new version. */
  function Update(files: Files, requested: Bytes): Result<(Bytes, Files), Refusal> {
    if VersionFile !in files then Failure(Refused)
    else
      var current := Strip(TextOf(files, VersionFile));
      var next := Resolve(current, requested);
      var targets := Targets(files);
      if next == None || targets == None || !AllAccept(files, targets.value, current) then Failure(Refused)
      else
        var updates := Updates(files, targets.value, current, next.value);
        if updates == None then Failure(Refused)
        else Success((next.value, files + map[VersionFile := next.value + [LineSplit.LF]] + updates.value))
  }

  /** check_version_declarations */
  function Check(files: Files): Option<Bytes> {
    if VersionFile !in files || Parse(Strip(TextOf(files, VersionFile))) == None then None
    else
      var current, targets := Strip(TextOf(files, VersionFile)), Targets(files);
      if targets == None || !AllAccept(files, targets.value, current) then None else Some(current)
  }

  // ---- the paths ----

  function Slot(p: Path): nat {
    match p
    case VersionFile => 0
    case CorePyproject => 1 case McpPyproject => 2 case CorePackaged => 3 case McpPackaged => 4
    case WebCargo => 5 case ControlCargo => 6 case ShimCargo => 7
    case ServerLock => 8 case AppLock => 9
    case Other(_) => 10
  }

  /** In the order of their slots, within a range: so no path occurs twice. */
  ghost predicate InSlots(targets: seq<Target>, low: nat, high: nat) {
    && (forall i :: 0 <= i < |targets| ==> low <= Slot(targets[i].path) < high)
    && (forall i, j :: 0 <= i < j < |targets| ==> Slot(targets[i].path) < Slot(targets[j].path))
  }

  lemma SlotsAppend(a: seq<Target>, b: seq<Target>, low: nat, mid: nat, high: nat)
    requires InSlots(a, low, mid) && InSlots(b, mid, high) && low <= mid <= high
    ensures InSlots(a + b, low, high)
  {
    hide Slot;
  }

  lemma ExistingTwo(files: Files, a: Target, b: Target)
    ensures Existing(files, [a, b]) == (if a.path in files then [a] else []) + (if b.path in files then [b] else [])
  {
    assert [a, b][..1] == [a] && [a][..0] == [];
    assert Existing(files, [a][..0]) == [];
    assert Existing(files, [a]) == [] + (if a.path in files then [a] else []);
  }

  lemma ExistingLocks(files: Files)
    ensures InSlots(Existing(files, LockTargets()), 8, 10) && AllExist(files, Existing(files, LockTargets()))
  {
    ExistingTwo(files, LockTargets()[0], LockTargets()[1]);
    hide Existing, SERVER_PACKAGES, APP_PACKAGES;
  }

  lemma FixedSlots()
    ensures InSlots(PythonTargets(), 1, 5)
    ensures InSlots(CargoTargets(), 5, 8) && InSlots(LockTargets(), 8, 10)
  {
    PythonSlots();
    hide PythonTargets;
  }

  lemma PythonSlots()
    ensures InSlots(PythonTargets(), 1, 5) && PythonTargets() != []
  {
  }

  /** The mirrored files are present, and told apart by their paths. */
  lemma TargetsInSlots(files: Files)
    requires Targets(files).Some?
    ensures InSlots(Targets(files).value, 1, 10) && AllExist(files, Targets(files).value)
  {
    FixedSlots();
    ExistingLocks(files);
    var locks := Existing(files, LockTargets());
    SlotsAppend(PythonTargets(), CargoTargets(), 1, 5, 8);
    SlotsAppend(PythonTargets() + CargoTargets(), locks, 1, 8, 10);
    SlotsAppend(PythonTargets(), [], 1, 5, 8);
    SlotsAppend(PythonTargets() + [], locks, 1, 8, 10);
    hide InSlots, PythonTargets, CargoTargets, LockTargets, Slot;
  }

  ghost predicate SamePaths(files: Files, others: Files) { others.Keys == files.Keys }

  lemma {:induction false} SameExisting(files: Files, targets: seq<Target>, others: Files)
    requires SamePaths(files, others)
    ensures Existing(others, targets) == Existing(files, targets)
  {
    if targets != [] {
      SameExisting(files, targets[..|targets| - 1], others);
    }
  }

  /** Which files mirror VERSION does not depend on their texts. */
  lemma SameTargets(files: Files, others: Files)
    requires SamePaths(files, others)
    ensures Targets(others) == Targets(files)
  {
    SameExisting(files, LockTargets(), others);
    hide PythonTargets, CargoTargets, LockTargets, Existing;
    assert forall p :: p in others <==> p in files;
  }

  // ---- the updates ----

  ghost predicate Written(files: Files, targets: seq<Target>, current: Bytes, next: Bytes, updates: Files) {
    forall i :: 0 <= i < |targets| ==>
      targets[i].path in files && targets[i].path in updates
      && Updated(targets[i].kind, TextOf(files, targets[i].path), current, next) == Some(updates[targets[i].path])
  }

  ghost predicate Mentions(targets: seq<Target>, p: Path) { exists i :: 0 <= i < |targets| && targets[i].path == p }

  ghost predicate OnlyTargets(targets: seq<Target>, updates: Files) {
    forall p :: p in updates ==> Mentions(targets, p)
  }

  lemma WrittenNext(files: Files, before: seq<Target>, t: Target, current: Bytes, next: Bytes, updates: Files, text: Bytes)
    requires Written(files, before, current, next, updates) && OnlyTargets(before, updates)
    requires forall i :: 0 <= i < |before| ==> before[i].path != t.path
    requires t.path in files && Updated(t.kind, TextOf(files, t.path), current, next) == Some(text)
    ensures Written(files, before + [t], current, next, updates[t.path := text])
    ensures OnlyTargets(before + [t], updates[t.path := text])
  {
    hide Updated, TextOf;
    forall p | p in updates[t.path := text] ensures Mentions(before + [t], p) {
      if p == t.path {
        assert (before + [t])[|before|].path == p;
      } else {
        var i :| 0 <= i < |before| && before[i].path == p;
        assert (before + [t])[i].path == p;
      }
    }
  }

  ghost predicate Ready(files: Files, targets: seq<Target>, current: Bytes) {
    InSlots(targets, 1, 10) && AllAccept(files, targets, current)
  }

  lemma ReadyParts(files: Files, targets: seq<Target>, current: Bytes)
    requires Ready(files, targets, current) && targets != []
    ensures var before, t := targets[..|targets| - 1], targets[|targets| - 1];
            && Ready(files, before, current) && before + [t] == targets
            && t.path in files && Accepts(t.kind, TextOf(files, t.path), current)
            && forall i :: 0 <= i < |before| ==> before[i].path != t.path
  {
    hide Accepts, TextOf, Slot;
    var n := |targets| - 1;
    assert forall i :: 0 <= i < n ==> Slot(targets[i].path) < Slot(targets[n].path);
  }

  lemma UpdatesLast(files: Files, before: seq<Target>, t: Target, current: Bytes, next: Bytes)
    requires Updates(files, before, current, next).Some? && t.path in files
    requires Updated(t.kind, TextOf(files, t.path), current, next).Some?
    ensures Updates(files, before + [t], current, next) ==
            Some(Updates(files, before, current, next).value[t.path := Updated(t.kind, TextOf(files, t.path), current, next).value])
  {
    hide Updated, TextOf;
    assert (before + [t])[..|before|] == before;
  }

  lemma {:induction false} UpdatesFit(files: Files, targets: seq<Target>, current: Bytes, next: Bytes)
    requires Ready(files, targets, current)
    ensures Updates(files, targets, current, next).Some?
    ensures Written(files, targets, current, next, Updates(files, targets, current, next).value)
    ensures OnlyTargets(targets, Updates(files, targets, current, next).value)
  {
    if targets != [] {
      hide *;
      var before, t := targets[..|targets| - 1], targets[|targets| - 1];
      ReadyParts(files, targets, current);
      UpdatesFit(files, before, current, next);
      UpdatedExists(t.kind, TextOf(files, t.path), current, next);
      UpdatesLast(files, before, t, current, next);
      WrittenNext(files, before, t, current, next, Updates(files, before, current, next).value,
                  Updated(t.kind, TextOf(files, t.path), current, next).value);
    }
  }

  // ---- the guarantees ----

  function Current(files: Files): Bytes
    requires VersionFile in files
  {
    Strip(TextOf(files, VersionFile))
  }

  /** What an update leaves behind. */
  function After(files: Files, next: Bytes, updates: Files): Files {
    files + map[VersionFile := next + [LineSplit.LF]] + updates
  }

  /** The layout is complete, and every mirror declares the version of VERSION. */
  ghost predicate Agreed(files: Files) {
    VersionFile in files && Targets(files).Some? && AllAccept(files, Targets(files).value, Current(files))
  }

  /** An update succeeds exactly when the layout is complete and in agreement and
      the request is resolved; it then rewrites each declaring file by its own
      rewriter, and VERSION. */
  lemma UpdateSucceeds(files: Files, requested: Bytes)
    ensures Update(files, requested).Success? <==> Agreed(files) && Resolve(Current(files), requested).Some?
    ensures Update(files, requested).Success? ==>
              var current, next, targets := Current(files), Resolve(Current(files), requested).value, Targets(files).value;
              var updates := Updates(files, targets, current, next);
              && updates.Some? && Update(files, requested) == Success((next, After(files, next, updates.value)))
              && Written(files, targets, current, next, updates.value) && OnlyTargets(targets, updates.value)
  {
    hide Targets, AllAccept, Resolve, Strip, TextOf, Updates, Written, OnlyTargets, InSlots;
    if Agreed(files) && Resolve(Current(files), requested).Some? {
      TargetsInSlots(files);
      UpdatesFit(files, Targets(files).value, Current(files), Resolve(Current(files), requested).value);
    }
  }

  /** What is written as the version, and what that takes from the request. */
  lemma NextFacts(current: Bytes, requested: Bytes)
    requires Resolve(current, requested).Some?
    ensures var next := Resolve(current, requested).value;
            && next != [] && Parse(next).Some? && TomlVersion.QUOTE !in next
            && (Trimmed(next) <==> Trimmed(requested)) && (Trimmed(next) ==> Unbroken(next))
            && (Unbroken(requested) ==> Unbroken(next))
  {
    var next := Resolve(current, requested).value;
    ResolvedBytes(current, requested);
    if Bumped(Parse(current).value, requested).Some? {
      PrintedBytes(Bumped(Parse(current).value, requested).value);
      BumpsAreTrimmed(requested);
    }
    hide Parse, IsSpace, Print, Trimmed;
    assert TomlVersion.QUOTE !in next by {
      assert !IsDigit(TomlVersion.QUOTE) && TomlVersion.QUOTE != DOT;
      assert !IsSpace(TomlVersion.QUOTE) by { QuoteIsNoSpace(); }
    }
    assert !IsDigit(LineSplit.LF) && !IsDigit(CR) && LineSplit.LF != DOT && CR != DOT;
  }

  lemma BumpsAreTrimmed(requested: Bytes)
    ensures requested in {PATCH, MINOR, MAJOR} ==> Trimmed(requested)
  {
    assert PATCH[0] == 112 && PATCH[4] == 104 && MINOR[0] == 109 && MINOR[4] == 114 && MAJOR[0] == 109 && MAJOR[4] == 114;
  }

  lemma QuoteIsNoSpace()
    ensures !IsSpace(TomlVersion.QUOTE)
  {
  }

  /** The state --check sees after a successful update. */
  lemma AfterState(files: Files, targets: seq<Target>, current: Bytes, next: Bytes, updates: Files)
    requires VersionFile in files && InSlots(targets, 1, 10) && AllExist(files, targets)
    requires Written(files, targets, current, next, updates) && OnlyTargets(targets, updates)
    ensures var after := After(files, next, updates);
            && SamePaths(files, after) && after[VersionFile] == next + [LineSplit.LF]
            && (forall i :: 0 <= i < |targets| ==> after[targets[i].path] == updates[targets[i].path])
            && (forall p :: p in files && p != VersionFile && !Mentions(targets, p) ==> after[p] == files[p])
  {
    hide Updated, TextOf;
    forall p | p in updates ensures p in files && Slot(p) >= 1 {
      var i :| 0 <= i < |targets| && targets[i].path == p;
    }
  }

  lemma TargetAfter(files: Files, t: Target, current: Bytes, next: Bytes, raw: Bytes)
    requires t.path in files && Accepts(t.kind, TextOf(files, t.path), current) && Quotable(next)
    requires Updated(t.kind, TextOf(files, t.path), current, next) == Some(raw)
    ensures Accepts(t.kind, ReadText(raw), next) <==> (t.kind.Plain? ==> Trimmed(next))
  {
    UpdatedAccepts(t.kind, TextOf(files, t.path), current, next);
  }

  lemma AllTargetsAfter(files: Files, targets: seq<Target>, current: Bytes, next: Bytes, updates: Files, after: Files)
    requires Ready(files, targets, current) && Quotable(next) && Written(files, targets, current, next, updates)
    requires SamePaths(files, after) && forall i :: 0 <= i < |targets| ==> after[targets[i].path] == updates[targets[i].path]
    ensures Trimmed(next) ==> AllAccept(after, targets, next)
    ensures forall i :: 0 <= i < |targets| && !targets[i].kind.Plain? ==>
              targets[i].path in after && Accepts(targets[i].kind, TextOf(after, targets[i].path), next)
  {
    hide Updated, Accepts, Trimmed, Quotable, ReadText;
    forall i | 0 <= i < |targets|
      ensures Accepts(targets[i].kind, TextOf(after, targets[i].path), next) <==> (targets[i].kind.Plain? ==> Trimmed(next))
    {
      TargetAfter(files, targets[i], current, next, updates[targets[i].path]);
    }
  }

  lemma FirstTarget(files: Files)
    requires Targets(files).Some?
    ensures Targets(files).value != [] ==> Targets(files).value[0] == Target(CorePyproject, Table(PROJECT))
  {
    hide Existing, LockTargets, CargoTargets;
  }

  lemma ParseStripped(v: Bytes)
    requires CR !in v
    ensures Parse(Strip(ReadText(v + [LineSplit.LF]))) == Parse(v)
  {
    ReadsAsItIs(v + [LineSplit.LF]);
    StripTwice(v);
    hide Number;
  }

  lemma {:induction false} StripTwice(v: Bytes)
    ensures Strip(Strip(v + [LineSplit.LF])) == Strip(v)
  {
    StripIsTrimmed(v + [LineSplit.LF]);
    StripSnoc(v);
  }

  lemma {:induction false} StripSnoc(v: Bytes)
    ensures Strip(v + [LineSplit.LF]) == Strip(v)
  {
    var w := v + [LineSplit.LF];
    if v == [] {
      assert w[1..] == [];
    } else if IsSpace(v[0]) {
      assert w[1..] == v[1..] + [LineSplit.LF];
      StripSnoc(v[1..]);
    } else {
      assert w[..|w| - 1] == v;
    }
  }

  /** Check, once the version in VERSION is known. */
  lemma CheckIs(files: Files, v: Bytes)
    requires VersionFile in files && Current(files) == v && Parse(v).Some? && Targets(files).Some?
    ensures Check(files) == if AllAccept(files, Targets(files).value, v) then Some(v) else None
  {
    hide Targets, AllAccept, Parse, Strip, TextOf;
  }

  /** Whatever --check accepts is the text of VERSION. */
  lemma CheckReads(files: Files)
    ensures Check(files).Some? ==> VersionFile in files && Check(files).value == Current(files)
  {
    hide Targets, AllAccept, Parse, Strip, TextOf;
  }

  /** The mirrors read as the version that was written, VERSION as its trimmed form. */
  lemma AcceptsAfter(files: Files, targets: seq<Target>, current: Bytes, next: Bytes, updates: Files)
    requires VersionFile in files && Ready(files, targets, current) && Quotable(next) && AllExist(files, targets)
    requires Written(files, targets, current, next, updates) && OnlyTargets(targets, updates)
    requires targets != [] ==> targets[0].kind.Table?
    ensures var after := After(files, next, updates);
            && SamePaths(files, after) && VersionFile in after
            && (Trimmed(next) <==> Current(after) == next)
            && (AllAccept(after, targets, Current(after)) <==> Trimmed(next) || targets == [])
  {
    AfterState(files, targets, current, next, updates);
    var after := After(files, next, updates);
    AllTargetsAfter(files, targets, current, next, updates, after);
    TrimmedBack(next);
    hide Ready, After, Written, OnlyTargets, Trimmed, Strip, ReadText;
    if targets != [] {
      assert Accepts(targets[0].kind, TextOf(after, targets[0].path), next);
    }
  }

  /** After a successful update --check accepts the version that was written
      exactly when the request was trimmed. A request with spaces around it on one
      line is refused everywhere, unless VERSION stands alone. */
  lemma UpdateThenCheck(files: Files, requested: Bytes)
    requires Update(files, requested).Success?
    ensures var (next, after) := Update(files, requested).value;
            && (Check(after) == Some(next) <==> Trimmed(requested))
            && (Unbroken(requested) ==> (Check(after).Some? <==> Trimmed(requested) || Targets(files).value == []))
  {
    UpdateSucceeds(files, requested);
    var current, targets := Current(files), Targets(files).value;
    var next := Resolve(current, requested).value;
    NextFacts(current, requested);
    TargetsInSlots(files);
    FirstTarget(files);
    assert Ready(files, targets, current);
    assert Unbroken(next) ==> Quotable(next);
    hide *;
    var updates := Updates(files, targets, current, next).value;
    var after := After(files, next, updates);
    CheckReads(after);
    if Unbroken(next) {
      AcceptsAfter(files, targets, current, next, updates);
      SameTargets(files, after);
      AfterParses(files, next, updates, targets);
      CheckIs(after, Current(after));
    } else {
      AfterState(files, targets, current, next, updates);
      CurrentAfter(after, next);
    }
  }

  lemma CurrentAfter(after: Files, next: Bytes)
    requires VersionFile in after && after[VersionFile] == next + [LineSplit.LF]
    ensures Current(after) == next ==> Trimmed(next)
  {
    TrimmedBack(next);
  }

  lemma AfterParses(files: Files, next: Bytes, updates: Files, targets: seq<Target>)
    requires Parse(next).Some? && Unbroken(next) && OnlyTargets(targets, updates) && InSlots(targets, 1, 10)
    ensures VersionFile in After(files, next, updates) && Parse(Current(After(files, next, updates))).Some?
  {
    ParseStripped(next);
    hide Parse, Strip, ReadText;
    forall p | p in updates ensures Slot(p) >= 1 {
      var i :| 0 <= i < |targets| && targets[i].path == p;
    }
  }

  // ---- layouts ----

  const PYTHON: set<Path> := {CorePyproject, McpPyproject, CorePackaged, McpPackaged}
  const CARGO: set<Path> := {WebCargo, ControlCargo, ShimCargo}

  /** The declaring files there are, lock files apart. */
  function Declaring(files: Files): set<Path> { set p | p in PYTHON + CARGO && p in files }

  lemma AnyAndAll(files: Files)
    ensures AnyExists(files, PythonTargets()) <==> Declaring(files) * PYTHON != {}
    ensures AllExist(files, PythonTargets()) <==> PYTHON <= Declaring(files)
    ensures AnyExists(files, CargoTargets()) <==> Declaring(files) * CARGO != {}
    ensures AllExist(files, CargoTargets()) <==> CARGO <= Declaring(files)
  {
    var python, cargo := PythonTargets(), CargoTargets();
    forall p | p in PYTHON ensures exists i :: 0 <= i < |python| && python[i].path == p {
      assert python[0].path == CorePyproject && python[1].path == McpPyproject && python[2].path == CorePackaged
             && python[3].path == McpPackaged;
    }
    forall p | p in CARGO ensures exists i :: 0 <= i < |cargo| && cargo[i].path == p {
      assert cargo[0].path == WebCargo && cargo[1].path == ControlCargo && cargo[2].path == ShimCargo;
    }
  }

  /** The complete layouts: VERSION alone, the Python files, or these and the Cargo
      manifests. */
  lemma LayoutsExactly(files: Files)
    ensures Targets(files).Some? <==> Declaring(files) in {{}, PYTHON, PYTHON + CARGO}
    ensures Targets(files) == Some([]) <==> Declaring(files) == {}
  {
    AnyAndAll(files);
    var d := Declaring(files);
    DeclaringParts(d);
    var targets := Targets(files);
    hide AnyExists, AllExist, Existing, LockTargets, CargoTargets, Declaring;
    assert |PythonTargets()| == 4;
    assert targets.Some? && targets.value == [] <==> d * PYTHON == {} && d * CARGO == {};
  }

  lemma DeclaringParts(d: set<Path>)
    requires d <= PYTHON + CARGO
    ensures d == {} <==> d * PYTHON == {} && d * CARGO == {}
    ensures d == PYTHON <==> PYTHON <= d && d * CARGO == {}
    ensures d == PYTHON + CARGO <==> PYTHON <= d && CARGO <= d
    ensures PYTHON <= d ==> d * PYTHON != {}
    ensures CARGO <= d ==> d * CARGO != {}
  {
    assert d == d * PYTHON + d * CARGO;
    assert CorePyproject in PYTHON && WebCargo in CARGO && PYTHON * CARGO == {};
  }

  /** Where no Python file exists VERSION stands alone, as the source says,
      exactly when no Cargo manifest exists either: otherwise every update and
      every check is refused. */
  lemma WithoutPython(files: Files)
    requires Declaring(files) * PYTHON == {}
    ensures Targets(files) == Some([]) <==> Declaring(files) == {}
    ensures Declaring(files) != {} ==> Check(files) == None && forall requested :: Update(files, requested).Failure?
  {
    LayoutsExactly(files);
    assert CorePyproject in PYTHON;
    hide Targets, Declaring, TextOf, Resolve, Parse, AllAccept;
  }

  lemma CargoAlone(version: Bytes, manifest: Bytes)
    ensures var files: Files := map[VersionFile := version, WebCargo := manifest];
            Declaring(files) == {WebCargo} && Check(files) == None && Update(files, PATCH).Failure?
  {
    var files: Files := map[VersionFile := version, WebCargo := manifest];
    assert Declaring(files) == {WebCargo} && WebCargo in Declaring(files);
    WithoutPython(files);
    hide Check, Update;
  }

  // ---- an untrimmed request ----

  const V122: Bytes := Ascii("1.2.2")
  const V123: Bytes := Ascii("1.2.3")

  function Sample(): Files {
    map[VersionFile := V122 + [LineSplit.LF],
        CorePyproject := Declaration(PROJECT, V122), McpPyproject := Declaration(PROJECT, V122),
        CorePackaged := V122 + [LineSplit.LF], McpPackaged := V122 + [LineSplit.LF]]
  }

  lemma SampleVersions()
    ensures Print(Version(1, 2, 2)) == V122 && Print(Version(1, 2, 3)) == V123
    ensures Quotable(V122) && Trimmed(V122) && Trimmed(V123)
  {
    assert Decimal(1) == [49] && Decimal(2) == [50] && Decimal(3) == [51];
    assert Print(Version(1, 2, 2)) == [49, 46, 50, 46, 50] == V122;
    assert Print(Version(1, 2, 3)) == [49, 46, 50, 46, 51] == V123;
  }

  const UNTRIMMED: Bytes := V123 + [32]

  lemma SampleRequest()
    ensures Resolve(V122, UNTRIMMED) == Some(UNTRIMMED) && !Trimmed(UNTRIMMED) && Unbroken(UNTRIMMED)
  {
    UntrimmedShape();
    SampleVersions();
    hide *;
    ParseInvertsPrint(Version(1, 2, 2));
    ParseInvertsPrint(Version(1, 2, 3));
    UntrimmedParses();
    ResolvesItself(V122, UNTRIMMED);
  }

  lemma ResolvesItself(current: Bytes, requested: Bytes)
    requires Parse(current).Some? && Parse(requested).Some? && requested !in {PATCH, MINOR, MAJOR}
    ensures Resolve(current, requested) == Some(requested)
  {
    hide Parse, Print, PATCH, MINOR, MAJOR;
  }

  lemma UntrimmedShape()
    ensures UNTRIMMED !in {PATCH, MINOR, MAJOR} && !Trimmed(UNTRIMMED) && Unbroken(UNTRIMMED)
  {
    assert UNTRIMMED == [49, 46, 50, 46, 51, 32];
    assert IsSpace(UNTRIMMED[5]);
    assert PATCH[0] == 112 && MINOR[0] == 109 && MAJOR[0] == 109;
  }

  lemma UntrimmedParses()
    ensures Parse(UNTRIMMED) == Parse(V123)
  {
    SampleVersions();
    StripAfterSpaces(V123, [32]);
    StripIsTrimmed(V123);
    hide Number, Strip, V123;
  }

  const PYPROJECT: Bytes := Declaration(PROJECT, V122)
  const PACKAGED: Bytes := V122 + [LineSplit.LF]

  lemma SampleFiles()
    ensures Sample().Keys == PYTHON + {VersionFile}
    ensures Sample()[CorePyproject] == Sample()[McpPyproject] == PYPROJECT
    ensures Sample()[VersionFile] == Sample()[CorePackaged] == Sample()[McpPackaged] == PACKAGED
  {
    hide Declaration, V122, PROJECT;
  }

  /** The texts of the sample files are their bytes, and declare 1.2.2. */
  lemma SampleTexts()
    ensures ReadText(PYPROJECT) == PYPROJECT && TableVersion(SplitLines(PYPROJECT), PROJECT) == Some(V122)
    ensures Strip(ReadText(PACKAGED)) == V122
  {
    ProjectUnbroken();
    SampleVersions();
    assert CR !in V122;
    hide *;
    DeclarationReads(PROJECT, V122);
    ReadsAsItIs(Declaration(PROJECT, V122));
    TrimmedBack(V122);
    assert PYPROJECT == Declaration(PROJECT, V122) && PACKAGED == V122 + [LineSplit.LF] by { SampleParts(); }
  }

  lemma ProjectUnbroken()
    ensures Unbroken(PROJECT)
  {
  }

  lemma SampleParts()
    ensures PYPROJECT == Declaration(PROJECT, V122) && PACKAGED == V122 + [LineSplit.LF]
  {
    hide Declaration, V122, PROJECT;
  }

  lemma TextIs(files: Files, p: Path, raw: Bytes)
    requires p in files && files[p] == raw
    ensures TextOf(files, p) == ReadText(raw)
  {
    hide ReadText;
  }

  lemma SampleAgrees()
    ensures Agreed(Sample()) && Current(Sample()) == V122 && Targets(Sample()) == Some(PythonTargets())
  {
    SampleFiles();
    InPython();
    SampleTexts();
    hide *;
    TextIs(Sample(), VersionFile, PACKAGED);
    TextIs(Sample(), CorePyproject, PYPROJECT);
    TextIs(Sample(), McpPyproject, PYPROJECT);
    TextIs(Sample(), CorePackaged, PACKAGED);
    TextIs(Sample(), McpPackaged, PACKAGED);
    CurrentIs(Sample());
    PythonAgrees(Sample(), V122);
  }

  lemma InPython()
    ensures CorePyproject in PYTHON && McpPyproject in PYTHON && CorePackaged in PYTHON && McpPackaged in PYTHON
  {
  }

  lemma CurrentIs(files: Files)
    requires VersionFile in files
    ensures Current(files) == Strip(TextOf(files, VersionFile))
  {
    hide Strip, TextOf;
  }

  lemma PythonAgrees(files: Files, v: Bytes)
    requires files.Keys == PYTHON + {VersionFile} && Current(files) == v
    requires TableVersion(SplitLines(TextOf(files, CorePyproject)), PROJECT) == Some(v)
    requires TableVersion(SplitLines(TextOf(files, McpPyproject)), PROJECT) == Some(v)
    requires Strip(TextOf(files, CorePackaged)) == v && Strip(TextOf(files, McpPackaged)) == v
    ensures Agreed(files) && Targets(files) == Some(PythonTargets())
  {
    SampleTargets(files);
    TableAccepts(TextOf(files, CorePyproject), PROJECT, v);
    TableAccepts(TextOf(files, McpPyproject), PROJECT, v);
    PlainAccepts(TextOf(files, CorePackaged), v);
    PlainAccepts(TextOf(files, McpPackaged), v);
    hide Accepts, TableVersion, SplitLines, TextOf, Strip, Targets, PROJECT, AllAccept;
    FourAccept(files, v);
  }

  lemma FourAccept(files: Files, v: Bytes)
    requires PYTHON <= files.Keys
    requires Accepts(Table(PROJECT), TextOf(files, CorePyproject), v) && Accepts(Table(PROJECT), TextOf(files, McpPyproject), v)
    requires Accepts(Plain, TextOf(files, CorePackaged), v) && Accepts(Plain, TextOf(files, McpPackaged), v)
    ensures AllAccept(files, PythonTargets(), v)
  {
    hide Accepts, TextOf, PROJECT;
    assert forall p :: p in PYTHON ==> p in files.Keys;
  }

  lemma TableAccepts(text: Bytes, table: Bytes, v: Bytes)
    requires TableVersion(SplitLines(text), table) == Some(v)
    ensures Accepts(Table(table), text, v)
  {
  }

  lemma PlainAccepts(text: Bytes, v: Bytes)
    requires Strip(text) == v
    ensures Accepts(Plain, text, v)
  {
  }

  lemma SampleTargets(files: Files)
    requires files.Keys == PYTHON + {VersionFile}
    ensures Targets(files) == Some(PythonTargets())
  {
    NoLocks(files);
    AnyAndAll(files);
    assert Declaring(files) == PYTHON && PYTHON * CARGO == {} && CorePyproject in PYTHON && PYTHON * PYTHON == PYTHON;
    hide AnyExists, AllExist, Existing, LockTargets, CargoTargets, Declaring;
    assert PythonTargets() + [] + [] == PythonTargets();
  }

  lemma NoLocks(files: Files)
    requires ServerLock !in files && AppLock !in files
    ensures Existing(files, LockTargets()) == []
  {
    var locks := LockTargets();
    assert locks[..1] == [locks[0]] && locks[..1][..0] == [];
    assert Existing(files, locks[..1][..0]) == [] && Existing(files, locks[..1]) == [];
  }

  lemma {:induction false} ReadCrLf(body: Bytes, rest: Bytes)
    requires CR !in body
    ensures ReadText(body + [CR, LineSplit.LF] + rest) == body + [LineSplit.LF] + ReadText(rest)
  {
    var raw := body + [CR, LineSplit.LF] + rest;
    if body == [] {
      assert raw[2..] == rest;
    } else {
      assert body[0] in body && forall x :: x in body[1..] ==> x in body;
      ReadCrLf(body[1..], rest);
      assert raw[1..] == body[1..] + [CR, LineSplit.LF] + rest;
    }
  }

  /** A declaration with CR LF ends is read as one with LF ends. */
  lemma CrLfDeclaration(table: Bytes, v: Bytes)
    requires Unbroken(table) && Quotable(v)
    ensures var raw := Header(table) + [CR, LineSplit.LF] + (VersionText(v) + [CR, LineSplit.LF]);
            CR in raw && Accepts(Table(table), ReadText(raw), v)
  {
    HeaderLine(table);
    VersionTextSpan(v);
    DeclarationReads(table, v);
    ReadCrLf(Header(table), VersionText(v) + [CR, LineSplit.LF]);
    ReadCrLf(VersionText(v), []);
    var end := [CR, LineSplit.LF];
    var raw := Header(table) + end + (VersionText(v) + end);
    assert raw[|Header(table)|] == CR;
    hide Header, VersionText, VersionSpan, TableVersion, SplitLines, ReadText;
    assert VersionText(v) + end + [] == VersionText(v) + end;
    NothingRead();
    assert ReadText(raw) == Declaration(table, v);
  }

  lemma NothingRead()
    ensures ReadText([]) == []
  {
  }

  /** "1.2.3 " is written as it is, and then --check refuses what was written. */
  lemma UntrimmedRefused()
    ensures Update(Sample(), UNTRIMMED).Success?
    ensures Update(Sample(), UNTRIMMED).value.0 == UNTRIMMED
    ensures Check(Update(Sample(), UNTRIMMED).value.1) == None
  {
    hide *;
    SampleAgrees();
    SampleRequest();
    UpdateSucceeds(Sample(), UNTRIMMED);
    UpdateThenCheck(Sample(), UNTRIMMED);
    assert PythonTargets() != [] by { PythonSlots(); }
  }

  // ---- the transaction ----

  /** A checkout whose files the update rewrites. */
  class Checkout {
    var files: Files

    constructor (files: Files)
      ensures this.files == files
    {
      this.files := files;
    }

    /** Everything is validated before the first write: a refusal writes nothing,
        and a success changes the declaring files and no others. */
    method UpdateVersionDeclarations(requested: Bytes) returns (r: Result<Bytes, Refusal>)
      modifies this
      ensures r.Failure? <==> Update(old(files), requested).Failure?
      ensures r.Failure? ==> files == old(files)
      ensures r.Success? ==> (r.value, files) == Update(old(files), requested).value
    {
      if VersionFile !in files { return Failure(Refused); }
      var current := Strip(TextOf(files, VersionFile));
      var next := Resolve(current, requested);
      if next == None { return Failure(Refused); }
      var targets := Targets(files);
      if targets == None { return Failure(Refused); }
      if !AllAccept(files, targets.value, current) { return Failure(Refused); }
      var updates := GatherUpdates(files, targets.value, current, next.value);
      if updates == None { return Failure(Refused); }
      assert Update(files, requested) == Success((next.value, After(files, next.value, updates.value)));
      hide *;
      ghost var before := files;
      var writes := map[VersionFile := next.value + [LineSplit.LF]] + updates.value;
      AfterIs(before, next.value, updates.value, writes);
      WriteAll(writes);
      r := Success(next.value);
    }

    method WriteAll(updates: Files)
      modifies this
      ensures files == old(files) + updates
    {
      var left := updates.Keys;
      while left != {}
        invariant left <= updates.Keys
        invariant files == old(files) + (map p | p in updates && p !in left :: updates[p])
        decreases |left|
      {
        var p :| p in left;
        files := files[p := updates[p]];
        left := left - {p};
      }
      assert (map p | p in updates && p !in left :: updates[p]) == updates;
    }
  }

  lemma AfterIs(files: Files, next: Bytes, updates: Files, writes: Files)
    requires writes == map[VersionFile := next + [LineSplit.LF]] + updates
    ensures After(files, next, updates) == files + writes
  {
  }

  method GatherUpdates(files: Files, targets: seq<Target>, current: Bytes, next: Bytes) returns (updates: Option<Files>)
    ensures updates == Updates(files, targets, current, next)
  {
    var gathered: Files := map[];
    var i := 0;
    hide Updated;
    assert targets[..0] == [];
    while i < |targets|
      invariant i <= |targets|
      invariant Updates(files, targets[..i], current, next) == Some(gathered)
    {
      var t := targets[i];
      assert targets[..i + 1][..i] == targets[..i];
      var text := if t.path in files then Updated(t.kind, TextOf(files, t.path), current, next) else None;
      if text == None {
        UpdatesFails(files, targets, i + 1, current, next);
        return None;
      }
      gathered := gathered[t.path := text.value];
      i := i + 1;
    }
    assert targets[..i] == targets;
    updates := Some(gathered);
  }

  lemma {:induction false} UpdatesFails(files: Files, targets: seq<Target>, n: nat, current: Bytes, next: Bytes)
    requires n <= |targets| && Updates(files, targets[..n], current, next) == None
    ensures Updates(files, targets, current, next) == None
    decreases |targets| - n
  {
    hide Updated;
    if n == |targets| {
      assert targets[..n] == targets;
    } else {
      assert targets[..n + 1][..n] == targets[..n];
      UpdatesFails(files, targets, n + 1, current, next);
    }
  }
}
