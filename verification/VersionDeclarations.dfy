/** What --check demands and what an update writes, file by file. */
module VersionDeclarations {
  import opened Bytes
  import opened LineSplit
  import opened VersionLines
  import opened TomlVersion
  import opened TomlLines
  import opened LockVersion
  import opened LockBlocks
  import opened Semver
  import opened VersionBump
  import opened Wrappers

  ghost predicate TableSays(files: Files, p: VersionBump.Path, table: string, v: Bytes) {
    p in files && FirstSays(SplitLines(TextOf(files, p)), Ascii(table), v)
  }

  predicate FileSays(files: Files, p: VersionBump.Path, v: Bytes) { p in files && Strip(TextOf(files, p)) == v }

  ghost predicate LockSays(files: Files, p: VersionBump.Path, name: string, v: Bytes) {
    p in files ==> OneBlockSays(SplitLines(TextOf(files, p)), Ascii(name), v)
  }

  ghost predicate PythonSays(files: Files, v: Bytes) {
    && TableSays(files, CorePyproject, "project", v) && TableSays(files, McpPyproject, "project", v)
    && FileSays(files, CorePackaged, v) && FileSays(files, McpPackaged, v)
  }

  ghost predicate CargoSays(files: Files, v: Bytes) {
    && TableSays(files, WebCargo, "package", v) && TableSays(files, ControlCargo, "package", v)
    && TableSays(files, ShimCargo, "package", v)
  }

  ghost predicate LocksSay(files: Files, v: Bytes) {
    && LockSays(files, ServerLock, "control-core", v) && LockSays(files, ServerLock, "vibecrafted-server-web", v)
    && LockSays(files, ServerLock, "vc-mcp-shim", v) && LockSays(files, AppLock, "control-core", v)
  }

  predicate NoPython(files: Files) {
    CorePyproject !in files && McpPyproject !in files && CorePackaged !in files && McpPackaged !in files
  }

  predicate NoCargo(files: Files) { WebCargo !in files && ControlCargo !in files && ShimCargo !in files }

  /** --check accepts v exactly if it is the trimmed text of VERSION and a version,
      and either no Python file or Cargo manifest exists, or all the Python files
      do and declare it, no Cargo manifest or each of them, and each Cargo.lock. */
  lemma CheckExactly(files: Files, v: Bytes)
    ensures Check(files) == Some(v) <==>
              && FileSays(files, VersionFile, v) && (exists w :: v == Print(w))
              && ((NoPython(files) && NoCargo(files))
                  || (PythonSays(files, v) && (NoCargo(files) || CargoSays(files, v)) && LocksSay(files, v)))
  {
    hide *;
    TargetsSay(files, v);
    VersionText(files, v);
    CheckParts(files, v);
  }

  lemma CheckParts(files: Files, v: Bytes)
    ensures Check(files) == Some(v) <==>
              && FileSays(files, VersionFile, v) && Parse(v).Some?
              && Targets(files).Some? && AllAccept(files, Targets(files).value, v)
  {
    hide Targets, AllAccept, Parse, Strip, TextOf;
  }

  lemma VersionText(files: Files, v: Bytes)
    ensures FileSays(files, VersionFile, v) ==> (Parse(v).Some? <==> exists w :: v == Print(w))
  {
    hide Parse, TextOf, Print;
    if FileSays(files, VersionFile, v) {
      StripIsTrimmed(TextOf(files, VersionFile));
      StripIsTrimmed(v);
      hide Strip;
      forall w ensures Parse(v) == Some(w) <==> v == Print(w) {
        ParsesExactly(v, w);
      }
    }
  }

  // ---- the targets ----

  lemma TableTarget(files: Files, p: VersionBump.Path, table: string, v: Bytes)
    requires p in files
    ensures Accepts(Table(Ascii(table)), TextOf(files, p), v) <==> TableSays(files, p, table, v)
  {
    TableVersionExactly(SplitLines(TextOf(files, p)), Ascii(table), v);
    hide TableVersion, FirstSays, SplitLines, TextOf, Ascii;
  }

  lemma LockTarget(files: Files, p: VersionBump.Path, names: seq<Bytes>, v: Bytes)
    requires p in files
    ensures Accepts(Lock(names), TextOf(files, p), v)
            <==> forall i :: 0 <= i < |names| ==> OneBlockSays(SplitLines(TextOf(files, p)), names[i], v)
  {
    var lines := SplitLines(TextOf(files, p));
    LockExactly(lines, names, v, v);
    hide ReplaceLock, OneBlockSays, SplitLines, TextOf;
    if forall i :: 0 <= i < |names| ==> OneBlockSays(lines, names[i], v) {
      forall name | name in names ensures OneBlockSays(lines, name, v) {
        var i :| 0 <= i < |names| && names[i] == name;
      }
    }
  }

  /** One target of a list of them. */
  ghost predicate Agrees(files: Files, t: Target, v: Bytes) {
    t.path in files && Accepts(t.kind, TextOf(files, t.path), v)
  }

  ghost predicate AllAgree(files: Files, targets: seq<Target>, v: Bytes) {
    forall i :: 0 <= i < |targets| ==> Agrees(files, targets[i], v)
  }

  lemma AcceptIsAgree(files: Files, targets: seq<Target>, v: Bytes)
    ensures AllAccept(files, targets, v) <==> AllAgree(files, targets, v)
  {
    hide Accepts, TextOf;
  }

  lemma AgreeAppend(files: Files, a: seq<Target>, b: seq<Target>, v: Bytes)
    ensures AllAgree(files, a + b, v) <==> AllAgree(files, a, v) && AllAgree(files, b, v)
  {
    hide Agrees;
    if AllAgree(files, a + b, v) {
      assert forall i :: 0 <= i < |a| ==> (a + b)[i] == a[i];
      assert forall i :: 0 <= i < |b| ==> (a + b)[|a| + i] == b[i];
    }
  }

  lemma PythonAgree(files: Files, v: Bytes)
    ensures AllAgree(files, PythonTargets(), v) <==> PythonSays(files, v)
  {
    var l := PythonTargets();
    assert l == [Target(CorePyproject, Table(Ascii("project"))), Target(McpPyproject, Table(Ascii("project"))),
                 Target(CorePackaged, Plain), Target(McpPackaged, Plain)];
    hide *;
    TableAgrees(files, CorePyproject, "project", v);
    TableAgrees(files, McpPyproject, "project", v);
    PlainAgrees(files, CorePackaged, v);
    PlainAgrees(files, McpPackaged, v);
    Four(files, l, v);
  }

  lemma Four(files: Files, l: seq<Target>, v: Bytes)
    requires |l| == 4
    ensures AllAgree(files, l, v) <==> Agrees(files, l[0], v) && Agrees(files, l[1], v) && Agrees(files, l[2], v) && Agrees(files, l[3], v)
  {
    hide Agrees;
  }

  lemma TableAgrees(files: Files, p: VersionBump.Path, table: string, v: Bytes)
    ensures Agrees(files, Target(p, Table(Ascii(table))), v) <==> TableSays(files, p, table, v)
  {
    if p in files { TableTarget(files, p, table, v); }
    hide Accepts, FirstSays, TextOf, Ascii, SplitLines;
  }

  lemma PlainAgrees(files: Files, p: VersionBump.Path, v: Bytes)
    ensures Agrees(files, Target(p, Plain), v) <==> FileSays(files, p, v)
  {
    hide Strip, TextOf;
  }

  lemma CargoAgree(files: Files, v: Bytes)
    ensures AllAgree(files, CargoTargets(), v) <==> CargoSays(files, v)
  {
    var l := CargoTargets();
    assert l == [Target(WebCargo, Table(Ascii("package"))), Target(ControlCargo, Table(Ascii("package"))),
                 Target(ShimCargo, Table(Ascii("package")))];
    hide *;
    TableAgrees(files, WebCargo, "package", v);
    TableAgrees(files, ControlCargo, "package", v);
    TableAgrees(files, ShimCargo, "package", v);
    assert AllAgree(files, l, v) <==> Agrees(files, l[0], v) && Agrees(files, l[1], v) && Agrees(files, l[2], v) by {
      Three(files, l, v);
    }
  }

  lemma Three(files: Files, l: seq<Target>, v: Bytes)
    requires |l| == 3
    ensures AllAgree(files, l, v) <==> Agrees(files, l[0], v) && Agrees(files, l[1], v) && Agrees(files, l[2], v)
  {
    hide Agrees;
  }

  lemma LocksAgree(files: Files, v: Bytes)
    ensures AllAgree(files, Existing(files, LockTargets()), v) <==> LocksSay(files, v)
  {
    var server, app := Target(ServerLock, Lock(SERVER_PACKAGES)), Target(AppLock, Lock(APP_PACKAGES));
    assert LockTargets() == [server, app];
    var a := if ServerLock in files then [server] else [];
    var b := if AppLock in files then [app] else [];
    if ServerLock in files { ServerAgrees(files, v); }
    if AppLock in files { AppAgrees(files, v); }
    hide *;
    ExistingTwo(files, server, app);
    AgreeAppend(files, a, b, v);
    assert Existing(files, LockTargets()) == a + b;
    OneAgrees(files, server, v);
    OneAgrees(files, app, v);
    LocksParts(files, v);
  }

  lemma LocksParts(files: Files, v: Bytes)
    ensures LocksSay(files, v) <==>
              && (ServerLock in files ==> ServerSays(files, v))
              && (AppLock in files ==> OneBlockSays(SplitLines(TextOf(files, AppLock)), Ascii("control-core"), v))
  {
    hide OneBlockSays, SplitLines, TextOf, Ascii;
  }

  ghost predicate ServerSays(files: Files, v: Bytes) {
    && LockSays(files, ServerLock, "control-core", v) && LockSays(files, ServerLock, "vibecrafted-server-web", v)
    && LockSays(files, ServerLock, "vc-mcp-shim", v)
  }

  lemma OneAgrees(files: Files, t: Target, v: Bytes)
    ensures AllAgree(files, [t], v) <==> Agrees(files, t, v)
    ensures AllAgree(files, [], v)
  {
    hide Agrees;
    assert [t][0] == t;
  }

  lemma ServerAgrees(files: Files, v: Bytes)
    requires ServerLock in files
    ensures Agrees(files, Target(ServerLock, Lock(SERVER_PACKAGES)), v) <==> ServerSays(files, v)
  {
    var names := [Ascii("control-core"), Ascii("vibecrafted-server-web"), Ascii("vc-mcp-shim")];
    assert SERVER_PACKAGES == names;
    assert names[0] == Ascii("control-core") && names[1] == Ascii("vibecrafted-server-web") && names[2] == Ascii("vc-mcp-shim");
    LockTarget(files, ServerLock, names, v);
    hide Accepts, OneBlockSays, TextOf, SplitLines, Ascii, SERVER_PACKAGES;
  }

  lemma AppAgrees(files: Files, v: Bytes)
    requires AppLock in files
    ensures Agrees(files, Target(AppLock, Lock(APP_PACKAGES)), v)
            <==> OneBlockSays(SplitLines(TextOf(files, AppLock)), Ascii("control-core"), v)
  {
    var names := [Ascii("control-core")];
    assert APP_PACKAGES == names && names[0] == Ascii("control-core");
    LockTarget(files, AppLock, names, v);
    hide Accepts, OneBlockSays, TextOf, SplitLines, Ascii, APP_PACKAGES;
  }

  /** The mirrors there are, and whether they all say v. */
  lemma TargetsSay(files: Files, v: Bytes)
    ensures Targets(files).Some? && AllAccept(files, Targets(files).value, v) <==>
              || (NoPython(files) && NoCargo(files))
              || (PythonSays(files, v) && (NoCargo(files) || CargoSays(files, v)) && LocksSay(files, v))
  {
    var python, cargo, locks := PythonTargets(), CargoTargets(), Existing(files, LockTargets());
    PythonFiles(files, v);
    CargoFiles(files, v);
    TargetsAre(files);
    hide *;
    PythonAgree(files, v);
    CargoAgree(files, v);
    LocksAgree(files, v);
    AgreeAppend(files, python, cargo, v);
    AgreeAppend(files, python + cargo, locks, v);
    AgreeAppend(files, python, [], v);
    AgreeAppend(files, python + [], locks, v);
    NoneAgree(files, v);
    if Targets(files).Some? {
      AcceptIsAgree(files, Targets(files).value, v);
    }
  }

  lemma NoneAgree(files: Files, v: Bytes)
    ensures AllAgree(files, [], v)
  {
  }

  lemma TargetsAre(files: Files)
    ensures var python, cargo := AnyExists(files, PythonTargets()), AnyExists(files, CargoTargets());
            Targets(files) ==
              if !python && !cargo then Some([])
              else if !AllExist(files, PythonTargets()) || (cargo && !AllExist(files, CargoTargets())) then None
              else Some(PythonTargets() + (if cargo then CargoTargets() else []) + Existing(files, LockTargets()))
  {
    hide PythonTargets, CargoTargets, LockTargets, Existing;
  }

  lemma PythonFiles(files: Files, v: Bytes)
    ensures AnyExists(files, PythonTargets()) <==> !NoPython(files)
    ensures PythonSays(files, v) ==> AllExist(files, PythonTargets()) && !NoPython(files)
  {
    AnyAndAll(files);
    DeclaringIs(files);
    hide AnyExists, AllExist, PythonTargets, CargoTargets, Declaring, FirstSays, Strip, TextOf;
  }

  lemma CargoFiles(files: Files, v: Bytes)
    ensures AnyExists(files, CargoTargets()) <==> !NoCargo(files)
    ensures CargoSays(files, v) ==> AllExist(files, CargoTargets()) && !NoCargo(files)
  {
    AnyAndAll(files);
    DeclaringIs(files);
    hide AnyExists, AllExist, PythonTargets, CargoTargets, Declaring, FirstSays, Strip, TextOf;
  }

  lemma DeclaringIs(files: Files)
    ensures Declaring(files) * PYTHON != {} <==> !NoPython(files)
    ensures Declaring(files) * CARGO != {} <==> !NoCargo(files)
    ensures PYTHON <= Declaring(files) <==>
              CorePyproject in files && McpPyproject in files && CorePackaged in files && McpPackaged in files
    ensures CARGO <= Declaring(files) <==> WebCargo in files && ControlCargo in files && ShimCargo in files
  {
    var d := Declaring(files);
    assert forall p :: p in d * PYTHON <==> p in PYTHON && p in files;
    assert forall p :: p in d * CARGO <==> p in CARGO && p in files;
    forall p | p in PYTHON && p in files ensures d * PYTHON != {} {
      assert p in d * PYTHON;
    }
    forall p | p in CARGO && p in files ensures d * CARGO != {} {
      assert p in d * CARGO;
    }
  }

  // ---- what is written ----

  lemma SlotsApart(targets: seq<Target>)
    requires InSlots(targets, 1, 10)
    ensures forall name :: !Mentions(targets, Other(name))
  {
  }

  lemma PackagedAre(files: Files)
    requires Targets(files).Some? && Targets(files).value != []
    ensures var targets := Targets(files).value;
            |targets| >= 4 && targets[2] == Target(CorePackaged, Plain) && targets[3] == Target(McpPackaged, Plain)
  {
    hide Existing, LockTargets, CargoTargets, AnyExists, AllExist;
    assert PythonTargets()[2] == Target(CorePackaged, Plain) && PythonTargets()[3] == Target(McpPackaged, Plain);
  }

  lemma PackagedUpdated(files: Files, targets: seq<Target>, current: Bytes, next: Bytes, updates: Files, i: nat)
    requires VersionBump.Written(files, targets, current, next, updates) && i < |targets| && targets[i].kind == Plain
    ensures targets[i].path in files && targets[i].path in updates && updates[targets[i].path] == next + [10]
  {
    hide TextOf;
  }

  /** A successful update writes the next version and a line feed to VERSION and to
      the packaged VERSION files, and leaves every file alone that declares none. */
  lemma UpdateWrites(files: Files, requested: Bytes)
    requires Update(files, requested).Success?
    ensures var (next, after) := Update(files, requested).value;
            && after.Keys == files.Keys && after[VersionFile] == next + [10]
            && (!(NoPython(files) && NoCargo(files)) ==>
                  CorePackaged in files && McpPackaged in files && after[CorePackaged] == next + [10] == after[McpPackaged])
            && forall name :: Other(name) in files ==> after[Other(name)] == files[Other(name)]
  {
    UpdateSucceeds(files, requested);
    var current, next, targets := Current(files), Resolve(Current(files), requested).value, Targets(files).value;
    var updates := Updates(files, targets, current, next).value;
    TargetsInSlots(files);
    TargetsAre(files);
    PythonFiles(files, current);
    CargoFiles(files, current);
    hide *;
    AfterState(files, targets, current, next, updates);
    SlotsApart(targets);
    if !(NoPython(files) && NoCargo(files)) {
      PackagedAre(files);
      PackagedUpdated(files, targets, current, next, updates, 2);
      PackagedUpdated(files, targets, current, next, updates, 3);
    }
  }
}
