/** The payload rules in the words of the policy: what may be in a distribution
    and what never is. The path policy is proved against them. */
module PayloadRules {
  import opened Bytes
  import opened PathPolicy

  // ---- spellings ----

  predicate Begins(s: string, prefix: string) { |prefix| <= |s| && s[..|prefix|] == prefix }
  predicate Ends(s: string, suffix: string) { |suffix| <= |s| && s[|s| - |suffix|..] == suffix }

  /** The character is the given small letter or other character, or its capital. */
  predicate AnyCase(c: char, small: char) {
    c == small || ('a' <= small <= 'z' && c as int + 32 == small as int)
  }

  predicate BeginsAnyCase(s: string, prefix: string) {
    |prefix| <= |s| && forall i :: 0 <= i < |prefix| ==> AnyCase(s[i], prefix[i])
  }

  predicate EndsAnyCase(s: string, suffix: string) {
    |suffix| <= |s| && forall i :: 0 <= i < |suffix| ==> AnyCase(s[|s| - |suffix| + i], suffix[i])
  }

  // ---- credentials ----

  /** .env and its variants, but for the committed templates. */
  predicate LiveEnv(part: string) {
    part == ".env" || (Begins(part, ".env.") && !Ends(part, ".example"))
  }

  /** The usual names of private keys, but for public halves and templates. */
  predicate PrivateKey(part: string) {
    && (BeginsAnyCase(part, "id_rsa") || BeginsAnyCase(part, "id_dsa") || BeginsAnyCase(part, "id_ecdsa")
        || BeginsAnyCase(part, "id_ed25519"))
    && !EndsAnyCase(part, ".pub") && !EndsAnyCase(part, ".example")
  }

  predicate Secret(part: string) { LiveEnv(part) || PrivateKey(part) }

  /** Bytecode, editor leftovers, and key material by extension. */
  predicate DeniedEnding(part: string) {
    Ends(part, ".pyc") || Ends(part, ".pyo") || Ends(part, ".swp") || Ends(part, "~") || Ends(part, ".pem")
    || Ends(part, ".p12") || Ends(part, ".pfx")
  }

  /** What may stand at the top of a distribution. */
  const TOPS: set<string> :=
    // texts and entry points
    {"VERSION", "LICENSE", "README.md", "CHANGELOG.md", "SECURITY.md", "Makefile", "install.sh", "install.ps1",
     "install.toml", "runtime-manifest.json", "source-provenance.json", "pyproject.toml", "plugin.json"}
    // directories
    + {"bin", "config", "docs", "plugins", "runtime", "scripts", "templates", "tools", "workflows", "vibecrafted-app",
       "vibecrafted-core", "vibecrafted-mcp", "vibecrafted-server", "vibecrafted-vm"}

  /** Names that keep a path out wherever they stand in it. */
  predicate RepositoryName(part: string) {
    part in {".git", ".github", ".gitignore", ".gitlab", ".circleci", ".devcontainer", ".dockerignore", ".prettierignore",
             ".junie", ".loctignore", ".loctree", ".DS_Store", "AGENTS.md", "CONTRIBUTING.md"}
  }

  predicate CacheName(part: string) {
    part in {".backup", ".build", ".cache", ".coverage", ".legacy-state-agency", ".mypy_cache", ".next", ".pytest_cache",
             ".ruff_cache", ".tox", ".venv"}
  }

  predicate BuildName(part: string) {
    part in {"DerivedData", "__pycache__", "build", "coverage.xml", "dist", "node_modules", "reports", "target",
             "__tests__", "test", "tests"}
  }

  predicate LockName(part: string) {
    part in {"Cargo.lock", "Pipfile.lock", "package-lock.json", "pnpm-lock.yaml", "poetry.lock", "uv.lock", "yarn.lock"}
  }

  predicate CredentialName(part: string) {
    part in {".env", ".netrc", "credentials.json", "id_dsa", "id_ecdsa", "id_ed25519", "id_rsa", "secrets.json"}
  }

  predicate Never(part: string) {
    RepositoryName(part) || CacheName(part) || BuildName(part) || LockName(part) || CredentialName(part)
  }

  lemma TopsAllowed(part: string)
    ensures AllowedTopLevel(part) <==> part in TOPS
  {
  }

  lemma NeverForbidden(part: string)
    ensures ForbiddenName(part) <==> Never(part)
  {
  }

  /** The two lock files that a distribution needs. */
  predicate NeededLockfile(p: Path) {
    |p| == 2 && Text(p[1]) == "Cargo.lock" && Text(p[0]) in {"vibecrafted-app", "vibecrafted-server"}
  }

  /** What the policy admits: below an allowed top, with no component that is on
      the list of denied names or a secret, and no denied ending. */
  ghost predicate Admitted(p: Path) {
    && p != [] && Text(p[0]) in TOPS
    && (NeededLockfile(p)
        || ((forall i :: 0 <= i < |p| ==> !Never(Text(p[i])) && !Secret(Text(p[i])))
            && !DeniedEnding(Text(p[|p| - 1]))))
  }

  // ---- the policy decides exactly that ----

  lemma LowerAnyCase(c: char, small: char)
    requires !('A' <= small <= 'Z')
    ensures LowerChar(c) == small <==> AnyCase(c, small)
  {
  }

  predicate Small(s: string) { forall i :: 0 <= i < |s| ==> !('A' <= s[i] <= 'Z') }

  lemma BeginsLowered(s: string, prefix: string)
    requires Small(prefix)
    ensures StartsWith(Lower(s), prefix) <==> BeginsAnyCase(s, prefix)
  {
    forall i | 0 <= i < |prefix| && i < |s| ensures Lower(s)[i] == prefix[i] <==> AnyCase(s[i], prefix[i]) {
      LowerAnyCase(s[i], prefix[i]);
    }
  }

  lemma EndsLowered(s: string, suffix: string)
    requires Small(suffix)
    ensures EndsWith(Lower(s), suffix) <==> EndsAnyCase(s, suffix)
  {
    if |suffix| <= |s| {
      var k := |s| - |suffix|;
      var tail := Lower(s)[k..];
      hide Lower, LowerChar, AnyCase;
      forall i | 0 <= i < |suffix| ensures tail[i] == suffix[i] <==> AnyCase(s[k + i], suffix[i]) {
        LowerAnyCase(s[k + i], suffix[i]);
      }
      assert tail == suffix <==> forall i :: 0 <= i < |suffix| ==> tail[i] == suffix[i];
    }
  }

  lemma AnyOfTwo(s: string, a: string, b: string)
    ensures EndsWithAny(s, [a, b]) <==> EndsWith(s, a) || EndsWith(s, b)
  {
    hide EndsWith;
    assert [a, b][0] == a && [a, b][1] == b;
  }

  lemma AnyOfFour(s: string, l: seq<string>)
    requires |l| == 4
    ensures StartsWithAny(s, l) <==> StartsWith(s, l[0]) || StartsWith(s, l[1]) || StartsWith(s, l[2]) || StartsWith(s, l[3])
  {
    hide StartsWith;
  }

  lemma AnyOfSeven(s: string, l: seq<string>)
    requires |l| == 7
    ensures EndsWithAny(s, l) <==> EndsWith(s, l[0]) || EndsWith(s, l[1]) || EndsWith(s, l[2]) || EndsWith(s, l[3])
                                   || EndsWith(s, l[4]) || EndsWith(s, l[5]) || EndsWith(s, l[6])
  {
    hide EndsWith;
  }

  lemma LiveEnvRule(part: string)
    ensures ComponentIsSecretEnv(part) <==> LiveEnv(part)
  {
  }

  lemma SmallSpellings()
    ensures Small(".pub") && Small(".example") && SECRET_NAME_PREFIXES == ["id_rsa", "id_dsa", "id_ecdsa", "id_ed25519"]
    ensures Small("id_rsa") && Small("id_dsa") && Small("id_ecdsa") && Small("id_ed25519")
  {
  }

  lemma PrivateKeyRule(part: string)
    ensures ComponentLooksLikeSecret(part) <==> PrivateKey(part)
  {
    SmallSpellings();
    var lowered := Lower(part);
    hide Lower, Small, StartsWith, EndsWith, StartsWithAny, EndsWithAny, BeginsAnyCase, EndsAnyCase, SECRET_NAME_PREFIXES;
    AnyOfTwo(lowered, ".pub", ".example");
    AnyOfFour(lowered, SECRET_NAME_PREFIXES);
    EndsLowered(part, ".pub");
    EndsLowered(part, ".example");
    BeginsLowered(part, "id_rsa");
    BeginsLowered(part, "id_dsa");
    BeginsLowered(part, "id_ecdsa");
    BeginsLowered(part, "id_ed25519");
  }

  lemma SecretRule(part: string)
    ensures ComponentIsSecretEnv(part) || ComponentLooksLikeSecret(part) <==> Secret(part)
  {
    LiveEnvRule(part);
    PrivateKeyRule(part);
    hide LiveEnv, PrivateKey, ComponentIsSecretEnv, ComponentLooksLikeSecret;
  }

  lemma EndingRule(name: Name)
    ensures SuffixForbidden(name) <==> DeniedEnding(Text(name))
  {
    AnyOfSeven(Text(name), FORBIDDEN_SUFFIXES);
    hide EndsWithAny, Text;
  }

  /** The policy includes exactly the admitted paths. */
  lemma IncludedExactly(p: Path)
    requires !HasDotDot(p)
    ensures PathIsIncluded(p) <==> Admitted(p)
  {
    hide ComponentForbidden, SuffixForbidden, AllowedTopLevel, TOPS, Never, Secret, DeniedEnding, HasDotDot, Text;
    forall i | 0 <= i < |p| ensures ComponentForbidden(p[i]) <==> Never(Text(p[i])) || Secret(Text(p[i])) {
      ComponentRule(p[i]);
    }
    if p != [] {
      TopsAllowed(Text(p[0]));
      EndingRule(p[|p| - 1]);
    }
  }

  lemma ComponentRule(name: Name)
    ensures ComponentForbidden(name) <==> Never(Text(name)) || Secret(Text(name))
  {
    SecretRule(Text(name));
    NeverForbidden(Text(name));
    hide ForbiddenName, Never, Secret, Text, ComponentIsSecretEnv, ComponentLooksLikeSecret;
  }

  // ---- no secret is ever included ----

  /** No component of the path names a credential. */
  ghost predicate NoSecrets(p: Path) {
    forall i :: 0 <= i < |p| ==> !Secret(Text(p[i]))
  }

  /** A name with one of the first letters c, s or v: no credential starts so. */
  lemma PlainStart(part: string)
    requires part != "" && part[0] in {'C', 's', 'v'}
    ensures !Secret(part)
  {
    NotAKey(part, "id_rsa");
    NotAKey(part, "id_dsa");
    NotAKey(part, "id_ecdsa");
    NotAKey(part, "id_ed25519");
    NotEnv(part);
    hide BeginsAnyCase, EndsAnyCase, LiveEnv;
  }

  lemma NotAKey(part: string, prefix: string)
    requires part != "" && part[0] in {'C', 's', 'v'} && prefix != "" && prefix[0] == 'i'
    ensures !BeginsAnyCase(part, prefix)
  {
    assert BeginsAnyCase(part, prefix) ==> AnyCase(part[0], prefix[0]);
  }

  lemma BeginsFirst(s: string, prefix: string)
    ensures prefix != "" && Begins(s, prefix) ==> s != "" && s[0] == prefix[0]
  {
  }

  lemma NotEnv(part: string)
    requires part != "" && part[0] in {'C', 's', 'v'}
    ensures !LiveEnv(part)
  {
    BeginsFirst(part, ".env.");
  }

  lemma IncludedHasNoSecrets(p: Path)
    requires !HasDotDot(p) && PathIsIncluded(p)
    ensures NoSecrets(p)
  {
    hide Secret, PathIsIncluded, TOPS, Never, DeniedEnding, Text, HasDotDot;
    IncludedExactly(p);
    if NeededLockfile(p) {
      PlainStart(Text(p[0]));
      PlainStart(Text(p[1]));
    }
  }

  lemma CarrierHasNoSecrets(c: Path)
    requires IsCarrier(c)
    ensures NoSecrets(c)
  {
    hide Secret, Text;
    assert SOURCE_PROVENANCE_FILE[0] == 's';
    hide SOURCE_PROVENANCE_FILE;
    PlainStart(Text(c[0]));
  }

  // ---- how a path is read off its spelling ----

  lemma SlashFirst(first: Bytes, rest: Bytes)
    requires SLASH !in first
    ensures SplitSlash(first + [SLASH] + rest) == [first] + SplitSlash(rest)
  {
    var s := first + [SLASH] + rest;
    FirstSlash(first, rest);
    assert s[|first|] == SLASH;
    assert s[..|first|] == first && s[|first| + 1..] == rest;
  }

  lemma CutAtSlash(a: Bytes) returns (first: Bytes, rest: Bytes)
    requires SLASH in a
    ensures SLASH !in first && a == first + [SLASH] + rest && |rest| < |a|
  {
    var i := IndexOfSlash(a);
    first, rest := a[..i], a[i + 1..];
  }

  lemma {:induction false} SplitJoined(a: Bytes, b: Bytes)
    ensures SplitSlash(a + [SLASH] + b) == SplitSlash(a) + SplitSlash(b)
    decreases |a|
  {
    if SLASH !in a {
      SlashFirst(a, b);
      assert SplitSlash(a) == [a];
    } else {
      var first, rest := CutAtSlash(a);
      SplitJoined(rest, b);
      hide *;
      SlashFirst(first, rest);
      SlashFirst(first, rest + [SLASH] + b);
      Regroup(first, rest, b);
      Reassociate([first], SplitSlash(rest), SplitSlash(b));
    }
  }

  lemma Regroup(first: Bytes, rest: Bytes, b: Bytes)
    ensures first + [SLASH] + rest + [SLASH] + b == first + [SLASH] + (rest + [SLASH] + b)
  {
  }

  lemma Reassociate(a: seq<Bytes>, b: seq<Bytes>, c: seq<Bytes>)
    ensures a + (b + c) == a + b + c
  {
  }

  lemma KeepFirst(first: Bytes, rest: seq<Bytes>)
    requires SLASH !in first && forall part :: part in rest ==> SLASH !in part
    ensures KeepNames([first] + rest) == (if first == [] || first == DOT then [] else [first]) + KeepNames(rest)
  {
    assert ([first] + rest)[1..] == rest;
  }

  lemma {:induction false} KeepJoined(a: seq<Bytes>, b: seq<Bytes>)
    requires (forall part :: part in a ==> SLASH !in part) && forall part :: part in b ==> SLASH !in part
    ensures KeepNames(a + b) == KeepNames(a) + KeepNames(b)
  {
    if a == [] {
      assert a + b == b;
    } else {
      assert a[0] in a && forall part :: part in a[1..] ==> part in a;
      KeepJoined(a[1..], b);
      KeepFirst(a[0], a[1..]);
      KeepFirst(a[0], a[1..] + b);
      hide KeepNames;
      assert a == [a[0]] + a[1..] && a + b == [a[0]] + (a[1..] + b);
    }
  }

  /** What stands before a slash and what stands behind it are read apart. */
  lemma PartsOfJoined(a: Bytes, b: Bytes)
    ensures Parts(a + [47] + b) == Parts(a) + Parts(b)
  {
    SplitJoined(a, b);
    KeepJoined(SplitSlash(a), SplitSlash(b));
  }

  /** A spelling without slash is one name, but for the empty one and the dot. With
      the law of joined spellings this says what every path is. */
  lemma PartsOfName(name: Bytes)
    requires 47 !in name
    ensures Parts(name) == if name == [] || name == [46] then [] else [name]
  {
    assert SLASH == 47 && DOT == [46];
    assert SplitSlash(name) == [name] && [name][0] == name && [name][1..] == [];
    assert KeepNames([]) == [];
  }
}
