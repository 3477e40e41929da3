/** Relative payload paths and the allow/deny rules of a distribution. */
module PathPolicy {
  import opened Bytes

  const SLASH: byte := '/' as int
  const BACKSLASH: byte := '\\' as int
  const DOT: Bytes := ['.' as int]
  const DOT_DOT: Bytes := ['.' as int, '.' as int]

  predicate IsName(s: Bytes) {
    s != [] && SLASH !in s && s != DOT
  }

  /** One component of a pathlib path: never empty, never ".", no slash. */
  type Name = s: Bytes | IsName(s) witness ['a' as int]
  /** Path.parts of a relative path; [] is the payload root itself. */
  type Path = seq<Name>

  predicate HasDotDot(p: Path) {
    DOT_DOT in p
  }

  const SOURCE_PROVENANCE_FILE := "source-provenance.json"

  predicate AllowedTopLevel(part: string) {
    part in {
      "VERSION", "LICENSE", "README.md", "CHANGELOG.md", "SECURITY.md", "Makefile",
      "install.sh", "install.ps1", "install.toml", "runtime-manifest.json",
      SOURCE_PROVENANCE_FILE, "pyproject.toml", "plugin.json", "bin", "config", "docs",
      "plugins", "runtime", "scripts", "templates", "tools", "vibecrafted-app",
      "vibecrafted-core", "vibecrafted-mcp", "vibecrafted-server", "vibecrafted-vm", "workflows"
    }
  }

  predicate ForbiddenName(part: string) {
    part in {
      ".DS_Store", ".backup", ".build", ".cache", ".circleci", ".coverage", ".devcontainer",
      ".dockerignore", ".env", ".git", ".github", ".gitignore", ".gitlab", ".junie",
      ".legacy-state-agency", ".loctignore", ".loctree", ".mypy_cache", ".netrc", ".next",
      ".prettierignore", ".pytest_cache", ".ruff_cache", ".tox", ".venv", "AGENTS.md",
      "Cargo.lock", "CONTRIBUTING.md", "DerivedData", "Pipfile.lock", "__pycache__",
      "__tests__", "build", "coverage.xml", "credentials.json", "dist", "id_dsa", "id_ecdsa",
      "id_ed25519", "id_rsa", "node_modules", "package-lock.json", "pnpm-lock.yaml",
      "poetry.lock", "reports", "secrets.json", "target", "test", "tests", "uv.lock", "yarn.lock"
    }
  }

  const FORBIDDEN_SUFFIXES: seq<string> := [".pyc", ".pyo", ".swp", "~", ".pem", ".p12", ".pfx"]
  const SECRET_NAME_PREFIXES: seq<string> := ["id_rsa", "id_dsa", "id_ecdsa", "id_ed25519"]

  /** The byte string read as Latin-1, so that it can be compared with a literal. */
  function Text(b: Bytes): (s: string)
    ensures |s| == |b|
    ensures forall i :: 0 <= i < |b| ==> s[i] as int == b[i]
  {
    seq(|b|, i requires 0 <= i < |b| => b[i] as char)
  }

  predicate StartsWith(s: string, prefix: string) {
    prefix <= s
  }

  predicate EndsWith(s: string, suffix: string) {
    |suffix| <= |s| && s[|s| - |suffix|..] == suffix
  }

  predicate EndsWithAny(s: string, suffixes: seq<string>) {
    exists i :: 0 <= i < |suffixes| && EndsWith(s, suffixes[i])
  }

  predicate StartsWithAny(s: string, prefixes: seq<string>) {
    exists i :: 0 <= i < |prefixes| && StartsWith(s, prefixes[i])
  }

  /** str.lower restricted to ASCII letters: no other character lowers to a
      letter that occurs in the prefixes and suffixes it is used with. */
  function Lower(s: string): (r: string)
    ensures |r| == |s|
    ensures forall i :: 0 <= i < |s| ==> r[i] == LowerChar(s[i])
  {
    seq(|s|, i requires 0 <= i < |s| => LowerChar(s[i]))
  }

  function LowerChar(c: char): char {
    if 'A' <= c <= 'Z' then ((c as int) + 32) as char else c
  }

  predicate ComponentIsSecretEnv(name: string) {
    name == ".env" || (StartsWith(name, ".env.") && !EndsWith(name, ".example"))
  }

  predicate ComponentLooksLikeSecret(name: string) {
    var lowered := Lower(name);
    !EndsWithAny(lowered, [".pub", ".example"]) && StartsWithAny(lowered, SECRET_NAME_PREFIXES)
  }

  predicate ComponentForbidden(name: Name) {
    var part := Text(name);
    ForbiddenName(part) || ComponentIsSecretEnv(part) || ComponentLooksLikeSecret(part)
  }

  predicate SuffixForbidden(name: Name) {
    EndsWithAny(Text(name), FORBIDDEN_SUFFIXES)
  }

  /** relative_path.as_posix() in REQUIRED_LOCKFILES. */
  predicate IsRequiredLockfile(p: Path) {
    |p| == 2 && Text(p[1]) == "Cargo.lock" && (Text(p[0]) == "vibecrafted-app" || Text(p[0]) == "vibecrafted-server")
  }

  /** path_is_forbidden on a path without ".."; with one the source raises. */
  predicate PathIsForbidden(p: Path)
    requires !HasDotDot(p)
  {
    if p == [] then true
    else if IsRequiredLockfile(p) then false
    else (exists i :: 0 <= i < |p| && ComponentForbidden(p[i])) || SuffixForbidden(p[|p| - 1])
  }

  /** path_is_included on a path without ".."; with one the source raises. */
  predicate PathIsIncluded(p: Path)
    requires !HasDotDot(p)
  {
    p != [] && AllowedTopLevel(Text(p[0])) && !PathIsForbidden(p)
  }

  predicate IsCarrier(p: Path) {
    |p| == 1 && Text(p[0]) == SOURCE_PROVENANCE_FILE
  }

  // ---- spellings ----

  /** as_posix: the components joined by slashes. */
  function Posix(p: Path): (b: Bytes)
    requires p != []
    ensures b != []
  {
    if |p| == 1 then p[0] else p[0] + [SLASH] + Posix(p[1..])
  }

  /** Well-formed UTF-8, as section 4 of RFC 3629 defines it. */
  predicate ValidUtf8(b: Bytes) {
    b == [] || (
      var n := Utf8Length(b);
      n > 0 && ValidUtf8(b[n..]))
  }

  predicate Continuation(b: byte) { 0x80 <= b <= 0xBF }

  /** Length of the leading well-formed sequence, 0 when there is none. */
  function Utf8Length(b: Bytes): (n: nat)
    requires b != []
    ensures n <= |b|
  {
    if b[0] <= 0x7F then 1
    else if 0xC2 <= b[0] <= 0xDF && |b| >= 2 && Continuation(b[1]) then 2
    else if 0xE0 <= b[0] <= 0xEF && |b| >= 3 && Continuation(b[1]) && Continuation(b[2])
            && (b[0] == 0xE0 ==> b[1] >= 0xA0) && (b[0] == 0xED ==> b[1] <= 0x9F) then 3
    else if 0xF0 <= b[0] <= 0xF4 && |b| >= 4 && Continuation(b[1]) && Continuation(b[2]) && Continuation(b[3])
            && (b[0] == 0xF0 ==> b[1] >= 0x90) && (b[0] == 0xF4 ==> b[1] <= 0x8F) then 4
    else 0
  }

  /** The relative paths _canonical_relative_path_bytes accepts; it returns Posix(p) then. */
  predicate CanonicalPath(p: Path) {
    && p != []
    && !HasDotDot(p)
    && BACKSLASH !in Posix(p)
    && 0 !in Posix(p)
    && ValidUtf8(Posix(p))
  }

  // ---- pathlib parsing of a raw relative spelling ----

  function SplitSlash(b: Bytes): (parts: seq<Bytes>)
    ensures parts != []
    ensures forall part :: part in parts ==> SLASH !in part
  {
    if SLASH !in b then [b]
    else
      var i := IndexOfSlash(b);
      [b[..i]] + SplitSlash(b[i + 1..])
  }

  predicate NoSlashBefore(b: Bytes, i: nat)
    requires i <= |b|
  {
    SLASH !in b[..i]
  }

  function IndexOfSlash(b: Bytes): (i: nat)
    requires SLASH in b
    ensures i < |b| && b[i] == SLASH && NoSlashBefore(b, i)
  {
    if b[0] == SLASH then 0 else
      var i := IndexOfSlash(b[1..]);
      assert b[..i + 1] == [b[0]] + b[1..][..i];
      i + 1
  }

  /** pathlib drops empty and "." components. */
  function KeepNames(parts: seq<Bytes>): (p: Path)
    requires forall part :: part in parts ==> SLASH !in part
  {
    if parts == [] then []
    else if parts[0] == [] || parts[0] == DOT then KeepNames(parts[1..])
    else [parts[0]] + KeepNames(parts[1..])
  }

  /** Path(raw).parts of a relative spelling. */
  function Parts(raw: Bytes): Path {
    KeepNames(SplitSlash(raw))
  }

  /** Path(raw).is_absolute(). */
  predicate IsAbsolute(raw: Bytes) {
    raw != [] && raw[0] == SLASH
  }

  lemma {:induction false} FirstSlash(name: Bytes, rest: Bytes)
    requires SLASH !in name
    ensures IndexOfSlash(name + [SLASH] + rest) == |name|
  {
    var b := name + [SLASH] + rest;
    if name != [] {
      FirstSlash(name[1..], rest);
      assert b[1..] == name[1..] + [SLASH] + rest;
      assert b[0] == name[0] && name[0] in name;
    }
  }

  lemma SplitFirst(name: Name, rest: Bytes)
    ensures SplitSlash(name + [SLASH] + rest) == [name] + SplitSlash(rest)
  {
    var b := name + [SLASH] + rest;
    FirstSlash(name, rest);
    assert b[..|name|] == name && b[|name| + 1..] == rest;
  }

  lemma {:induction false} PartsOfPosix(p: Path)
    requires p != []
    ensures Parts(Posix(p)) == p
    ensures !IsAbsolute(Posix(p))
  {
    assert p[0][0] != SLASH by { assert p[0][0] in p[0]; }
    if |p| > 1 {
      SplitFirst(p[0], Posix(p[1..]));
      PartsOfPosix(p[1..]);
      assert p == [p[0]] + p[1..];
    } else {
      assert KeepNames([p[0]]) == [p[0]] + KeepNames([p[0]][1..]);
    }
  }

  /** Distinct paths have distinct spellings. */
  lemma PosixInjective(p: Path, q: Path)
    requires p != [] && q != [] && Posix(p) == Posix(q)
    ensures p == q
  {
    PartsOfPosix(p);
    PartsOfPosix(q);
  }

  // ---- the deny rules and ancestors ----

  lemma LockfileTopAllowed(p: Path)
    requires IsRequiredLockfile(p)
    ensures !HasDotDot(p[..1]) && !ComponentForbidden(p[0]) && !SuffixForbidden(p[0])
    ensures !IsRequiredLockfile(p[..1])
  {
    var top := Text(p[0]);
    assert top[0] == 'v' && top[|top| - 1] in {'p', 'r'};
    assert p[0][0] == 'v' as int && DOT_DOT[0] == '.' as int;
    var lowered := Lower(top);
    assert lowered[0] == 'v';
    FirstLetters(top);
  }

  lemma PrefixDotDot(p: Path, k: nat)
    requires k <= |p| && !HasDotDot(p)
    ensures !HasDotDot(p[..k])
  {
  }

  /** The rules are not ancestor-closed: a directory above an included path is
      denied exactly when its own name ends in a denied suffix, and otherwise it
      is included too. */
  lemma AncestorOfIncluded(p: Path, k: nat)
    requires !HasDotDot(p) && PathIsIncluded(p) && 0 < k < |p|
    ensures !HasDotDot(p[..k])
    ensures PathIsForbidden(p[..k]) <==> SuffixForbidden(p[k - 1])
    ensures PathIsIncluded(p[..k]) <==> !SuffixForbidden(p[k - 1])
  {
    PrefixDotDot(p, k);
    NotLockfilePrefix(p, k);
    NoDeniedAncestor(p, k);
    hide ComponentForbidden, SuffixForbidden, AllowedTopLevel, Text, IsRequiredLockfile, HasDotDot;
    var q := p[..k];
    assert q[k - 1] == p[k - 1] && q[0] == p[0];
  }

  /** Above an included path no component is denied by its own name. */
  lemma NoDeniedAncestor(p: Path, k: nat)
    requires !HasDotDot(p) && PathIsIncluded(p) && 0 < k < |p|
    ensures forall i :: 0 <= i < k ==> !ComponentForbidden(p[..k][i])
    ensures AllowedTopLevel(Text(p[0]))
  {
    NotLockfilePrefix(p, k);
    hide ComponentForbidden, SuffixForbidden, AllowedTopLevel, Text, IsRequiredLockfile, HasDotDot;
    if IsRequiredLockfile(p) {
      LockfileTopAllowed(p);
      assert k == 1 && p[..k][0] == p[0];
    } else {
      assert forall i :: 0 <= i < k ==> p[..k][i] == p[i];
    }
  }

  /** A lockfile exemption never covers a directory above an included path. */
  lemma NotLockfilePrefix(p: Path, k: nat)
    requires !HasDotDot(p) && PathIsIncluded(p) && 0 < k < |p|
    ensures !IsRequiredLockfile(p[..k])
    ensures IsRequiredLockfile(p) ==> |p| == 2
  {
    hide ComponentForbidden, SuffixForbidden, AllowedTopLevel;
    if k == 2 {
      CargoLockForbidden(p[1]);
    }
  }

  lemma CargoLockForbidden(name: Name)
    ensures Text(name) == "Cargo.lock" ==> ComponentForbidden(name)
  {
  }

  /** config/x.pem/a.txt is included, and its directory config/x.pem is denied. */
  lemma IncludedBelowForbidden(config: Name, secret: Name, note: Name)
    requires Text(config) == "config" && Text(secret) == "x.pem" && Text(note) == "a.txt"
    ensures !HasDotDot([config, secret, note]) && PathIsIncluded([config, secret, note])
    ensures !HasDotDot([config, secret]) && PathIsForbidden([config, secret])
  {
    hide ComponentForbidden, SuffixForbidden, Text, HasDotDot, PathIsIncluded, PathIsForbidden, DOT_DOT;
    PlainComponent(config, 'c');
    PlainComponent(secret, 'x');
    PlainComponent(note, 'a');
    PlainSuffix(note, 't');
    PemSuffix(secret);
    IncludedByComponents([config, secret, note]);
    DeniedBySuffix([config, secret]);
  }

  lemma ConfigIncluded(name: Name)
    requires Text(name) == "config"
    ensures !HasDotDot([name]) && PathIsIncluded([name])
  {
    hide ComponentForbidden, SuffixForbidden, Text, HasDotDot, PathIsIncluded, PathIsForbidden, DOT_DOT;
    PlainComponent(name, 'c');
    PlainSuffix(name, 'g');
    IncludedByComponents([name]);
  }

  lemma IncludedByComponents(p: Path)
    requires p != [] && AllowedTopLevel(Text(p[0])) && !SuffixForbidden(p[|p| - 1])
    requires forall i :: 0 <= i < |p| ==> p[i] != DOT_DOT && !ComponentForbidden(p[i])
    ensures !HasDotDot(p) && PathIsIncluded(p)
  {
    hide ComponentForbidden, SuffixForbidden, AllowedTopLevel, Text;
  }

  lemma DeniedBySuffix(p: Path)
    requires |p| == 2 && SuffixForbidden(p[1]) && Text(p[1]) != "Cargo.lock"
    requires p[0] != DOT_DOT && p[1] != DOT_DOT
    ensures !HasDotDot(p) && PathIsForbidden(p)
  {
    hide ComponentForbidden, SuffixForbidden, AllowedTopLevel, Text;
  }

  lemma PemSuffix(secret: Name)
    requires Text(secret) == "x.pem"
    ensures SuffixForbidden(secret)
  {
    assert EndsWith(Text(secret), FORBIDDEN_SUFFIXES[4]);
  }

  /** A name that ends in none of the letters a denied suffix ends in. */
  lemma PlainSuffix(name: Name, last: char)
    requires last in {'t', 'g', 'n'} && Text(name)[|name| - 1] == last
    ensures !SuffixForbidden(name)
  {
    forall i | 0 <= i < |FORBIDDEN_SUFFIXES| ensures !EndsWith(Text(name), FORBIDDEN_SUFFIXES[i]) {
      var suffix := FORBIDDEN_SUFFIXES[i];
      assert suffix[|suffix| - 1] != last;
    }
  }

  lemma FirstLetters(part: string)
    requires part != [] && (part[0] in {'v', 'x'} || part in {"config", "a.txt"})
    ensures !ForbiddenName(part)
  {
  }

  /** A component that starts with none of the letters a rule starts with. */
  lemma PlainComponent(name: Name, first: char)
    requires Text(name) in {"config", "x.pem", "a.txt"} && Text(name)[0] == first
    ensures name != DOT_DOT && !ComponentForbidden(name)
  {
    var part := Text(name);
    var lowered := Lower(part);
    FirstLetters(part);
    assert lowered[0] != 'i';
    assert part[0] != '.';
    assert name[0] == first as int && DOT_DOT[0] == '.' as int;
  }

  // ---- the carrier's own path ----

  lemma CarrierNotDenied(c: Path)
    requires IsCarrier(c)
    ensures !SuffixForbidden(c[0])
  {
    PlainSuffix(c[0], 'n');
  }

  lemma CarrierComponent(name: Name)
    requires Text(name) == SOURCE_PROVENANCE_FILE
    ensures name != DOT_DOT && !ComponentForbidden(name) && AllowedTopLevel(Text(name))
  {
    var part := Text(name);
    assert part[0] == 's' && Lower(part)[0] == 's';
    assert name[0] == 's' as int && DOT_DOT[0] == '.' as int;
  }

  lemma CarrierIncluded(c: Path)
    requires IsCarrier(c)
    ensures c != [] && !HasDotDot(c) && PathIsIncluded(c) && !PathIsForbidden(c)
    ensures AllowedTopLevel(Text(c[0]))
  {
    hide ComponentForbidden, SuffixForbidden, AllowedTopLevel, SOURCE_PROVENANCE_FILE, Text,
         HasDotDot, PathIsForbidden, DOT_DOT;
    CarrierNotDenied(c);
    CarrierComponent(c[0]);
    IncludedByComponents(c);
  }

  lemma {:induction false} AsciiIsUtf8(b: Bytes)
    requires forall i :: 0 <= i < |b| ==> b[i] < 0x80
    ensures ValidUtf8(b)
  {
    if b != [] {
      AsciiIsUtf8(b[1..]);
    }
  }

  lemma CarrierLetters(i: nat)
    requires i < |SOURCE_PROVENANCE_FILE|
    ensures '-' <= SOURCE_PROVENANCE_FILE[i] <= 'z' && SOURCE_PROVENANCE_FILE[i] != '\\'
  {
  }

  lemma CarrierCanonical(c: Path)
    requires IsCarrier(c)
    ensures CanonicalPath(c)
  {
    hide ComponentForbidden, PathIsIncluded, PathIsForbidden, AllowedTopLevel, ForbiddenName, SOURCE_PROVENANCE_FILE;
    CarrierIncluded(c);
    var b := c[0];
    forall i | 0 <= i < |b| ensures '-' as int <= b[i] <= 'z' as int && b[i] != BACKSLASH {
      CarrierLetters(i);
      assert Text(b)[i] as int == b[i];
    }
    AsciiIsUtf8(b);
    assert Posix(c) == b;
  }
}
