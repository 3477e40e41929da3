/** The byte stream behind the provider's source and content digests: each file
    as its path and its bytes, both ended by NUL. */
module TreeDigest {
  import opened Bytes

  const NUL: byte := 0

  datatype File = File(path: Bytes, body: Bytes)

  function Stream(files: seq<File>): Bytes {
    if files == [] then [] else files[0].path + [NUL] + files[0].body + [NUL] + Stream(files[1..])
  }

  predicate NulFree(files: seq<File>) {
    forall i :: 0 <= i < |files| ==> NUL !in files[i].path && NUL !in files[i].body
  }

  function FirstNul(s: Bytes): nat {
    if s == [] || s[0] == NUL then 0 else 1 + FirstNul(s[1..])
  }

  lemma {:induction false} FirstNulAfter(a: Bytes, x: Bytes)
    requires NUL !in a
    ensures FirstNul(a + ([NUL] + x)) == |a|
  {
    if a != [] {
      assert a[0] in a && forall c :: c in a[1..] ==> c in a;
      FirstNulAfter(a[1..], x);
      assert (a + ([NUL] + x))[1..] == a[1..] + ([NUL] + x);
    }
  }

  lemma CutAtNul(a: Bytes, x: Bytes, b: Bytes, y: Bytes)
    requires NUL !in a && NUL !in b && a + ([NUL] + x) == b + ([NUL] + y)
    ensures a == b && x == y
  {
    var s := a + ([NUL] + x);
    FirstNulAfter(a, x);
    FirstNulAfter(b, y);
    assert a == s[..|a|] == b && x == s[|a| + 1..] == y;
  }

  lemma StreamParts(files: seq<File>)
    requires files != []
    ensures Stream(files) == files[0].path + ([NUL] + (files[0].body + ([NUL] + Stream(files[1..]))))
  {
  }

  /** As long as no body holds a NUL, equal streams mean equal files. */
  lemma {:induction false} StreamInjective(a: seq<File>, b: seq<File>)
    requires NulFree(a) && NulFree(b) && Stream(a) == Stream(b)
    ensures a == b
  {
    if a != [] && b != [] {
      StreamParts(a);
      StreamParts(b);
      hide Stream;
      CutAtNul(a[0].path, a[0].body + ([NUL] + Stream(a[1..])), b[0].path, b[0].body + ([NUL] + Stream(b[1..])));
      CutAtNul(a[0].body, Stream(a[1..]), b[0].body, Stream(b[1..]));
      assert forall i :: 0 <= i < |a[1..]| ==> a[1..][i] == a[i + 1];
      assert forall i :: 0 <= i < |b[1..]| ==> b[1..][i] == b[i + 1];
      StreamInjective(a[1..], b[1..]);
      assert a == [a[0]] + a[1..] && b == [b[0]] + b[1..];
    }
  }

  /** With NUL in a body two different trees have the same stream. */
  lemma StreamAmbiguous(path: Bytes, body: Bytes, path2: Bytes, body2: Bytes)
    ensures Stream([File(path, body + [NUL] + path2 + [NUL] + body2)]) == Stream([File(path, body), File(path2, body2)])
  {
    var one, two := [File(path, body + [NUL] + path2 + [NUL] + body2)], [File(path, body), File(path2, body2)];
    assert one[1..] == [] && two[1..] == [File(path2, body2)] && two[1..][1..] == [];
    assert Stream(two[1..]) == path2 + [NUL] + body2 + [NUL] + [];
  }

  // ---- exactly when a stream determines the files ----

  /** Paths hold no NUL; bodies may. */
  predicate PathsNulFree(files: seq<File>) {
    forall i :: 0 <= i < |files| ==> NUL !in files[i].path
  }

  function Nuls(s: Bytes): nat {
    if s == [] then 0 else (if s[0] == NUL then 1 else 0) + Nuls(s[1..])
  }

  lemma {:induction false} NulsAppend(a: Bytes, b: Bytes)
    ensures Nuls(a + b) == Nuls(a) + Nuls(b)
  {
    if a == [] {
      assert a + b == b;
    } else {
      NulsAppend(a[1..], b);
      assert (a + b)[1..] == a[1..] + b;
    }
  }

  lemma {:induction false} NoNuls(s: Bytes)
    ensures Nuls(s) == 0 <==> NUL !in s
  {
    if s != [] {
      NoNuls(s[1..]);
      assert s == [s[0]] + s[1..];
    }
  }

  lemma NulsOfFile(f: File)
    ensures Nuls(Framed(f)) == Nuls(f.path) + Nuls(f.body) + 2
  {
    NulsAppend(f.path + [NUL] + f.body, [NUL]);
    NulsAppend(f.path + [NUL], f.body);
    NulsAppend(f.path, [NUL]);
    assert [NUL][1..] == [];
  }

  /** Each file ends two strings. */
  lemma {:induction false} NulsOfStream(files: seq<File>)
    ensures Nuls(Stream(files)) >= 2 * |files|
  {
    if files != [] {
      NulsOfStream(files[1..]);
      NulsOfFile(files[0]);
      NulsAppend(Framed(files[0]), Stream(files[1..]));
      hide Nuls, Framed;
    }
  }

  lemma OneFileStream(f: File)
    ensures Stream([f]) == Framed(f) == f.path + ([NUL] + (f.body + [NUL]))
  {
    assert [f][1..] == [] && Framed(f) + [] == Framed(f);
  }

  /** Some other list of files has the same stream. */
  ghost predicate Shared(a: seq<File>) {
    exists b :: PathsNulFree(b) && b != a && Stream(b) == Stream(a)
  }

  /** Two or more files can always be taken for one. */
  lemma ManyAsOne(a: seq<File>)
    requires |a| >= 2 && PathsNulFree(a)
    ensures Shared(a)
  {
    var first, rest := a[0], Stream(a[1..]);
    StreamEndsInNul(a[1..]);
    var one := File(first.path, first.body + ([NUL] + rest[..|rest| - 1]));
    OneFileStream(one);
    StreamParts(a);
    assert rest == rest[..|rest| - 1] + [NUL];
    Regroup(first.body, rest[..|rest| - 1]);
    assert PathsNulFree([one]) && Stream([one]) == Stream(a) && [one] != a;
  }

  lemma Regroup(body: Bytes, rest: Bytes)
    ensures (body + ([NUL] + rest)) + [NUL] == body + ([NUL] + (rest + [NUL]))
  {
  }

  lemma {:induction false} StreamEndsInNul(files: seq<File>)
    requires files != []
    ensures Stream(files) != [] && Stream(files)[|Stream(files)| - 1] == NUL
  {
    if |files| > 1 {
      StreamEndsInNul(files[1..]);
    } else {
      assert files[1..] == [];
    }
  }

  /** One file whose body holds two NULs can be taken for two. */
  lemma OneAsTwo(f: File)
    requires NUL !in f.path && Nuls(f.body) >= 2
    ensures Shared([f])
  {
    hide Nuls, Stream;
    var (x, y) := CutOnce(f.body);
    var (q, z) := CutOnce(y);
    StreamAmbiguous(f.path, x, q, z);
    assert f.body == x + [NUL] + q + [NUL] + z;
    SharedWith([f], [File(f.path, x), File(q, z)]);
  }

  lemma SharedWith(a: seq<File>, b: seq<File>)
    requires PathsNulFree(b) && |b| != |a| && Stream(b) == Stream(a)
    ensures Shared(a)
  {
  }

  /** What stands before and after the first NUL. */
  function CutOnce(s: Bytes): (r: (Bytes, Bytes))
    requires Nuls(s) >= 1
    ensures NUL !in r.0 && s == r.0 + ([NUL] + r.1) && Nuls(r.1) == Nuls(s) - 1
  {
    if s[0] == NUL then
      ([], s[1..])
    else
      var (x, y) := CutOnce(s[1..]);
      assert s == [s[0]] + s[1..] && [s[0]] + (x + ([NUL] + y)) == ([s[0]] + x) + ([NUL] + y);
      ([s[0]] + x, y)
  }

  /** A stream with fewer than four NULs is that of one file at most, and such a
      stream names its path and its body. */
  lemma FewNulsDetermine(a: seq<File>, b: seq<File>)
    requires PathsNulFree(a) && PathsNulFree(b) && Stream(a) == Stream(b)
    requires |a| == 0 || (|a| == 1 && Nuls(a[0].body) < 2)
    ensures a == b
  {
    NulsOfStream(b);
    if |a| == 1 {
      OneFileStream(a[0]);
      NulsOfFile(a[0]);
      NoNuls(a[0].path);
      assert a == [a[0]];
      assert |b| < 2;
      if |b| == 1 {
        assert b == [b[0]];
        OneFileStream(b[0]);
        hide Stream, Framed;
        CutAtNul(a[0].path, a[0].body + [NUL], b[0].path, b[0].body + [NUL]);
        assert a[0].body == (a[0].body + [NUL])[..|a[0].body|] == b[0].body;
      }
    } else if b != [] {
      StreamParts(b);
    }
  }

  /** The stream determines the files exactly when there is at most one, whose
      body holds at most one NUL. */
  lemma SharedExactly(a: seq<File>)
    requires PathsNulFree(a)
    ensures Shared(a) <==> |a| >= 2 || (|a| == 1 && Nuls(a[0].body) >= 2)
  {
    if |a| >= 2 {
      ManyAsOne(a);
    } else if |a| == 1 && Nuls(a[0].body) >= 2 {
      assert a == [a[0]];
      OneAsTwo(a[0]);
    } else if Shared(a) {
      var b :| PathsNulFree(b) && b != a && Stream(b) == Stream(a);
      FewNulsDetermine(a, b);
    }
  }

  /** Even with the same paths in the same order the bodies may differ: text that
      looks like the next file's head can move from one body to the next. */
  lemma SamePathsDrift(p: Bytes, q: Bytes, u: Bytes, v: Bytes, w: Bytes)
    ensures var (head, a, b) := ([NUL] + q + [NUL], [File(p, u), File(q, v + ([NUL] + q + [NUL]) + w)],
                                 [File(p, u + ([NUL] + q + [NUL]) + v), File(q, w)]);
            Stream(a) == Stream(b) && (u != u + head + v)
  {
    var head := [NUL] + q + [NUL];
    TwoFileStream(p, u, q, v + head + w);
    TwoFileStream(p, u + head + v, q, w);
    assert u + head + (v + head + w) == (u + head + v) + head + w;
    assert |u + head + v| > |u|;
  }

  lemma TwoFileStream(p: Bytes, x: Bytes, q: Bytes, y: Bytes)
    ensures Stream([File(p, x), File(q, y)]) == p + [NUL] + (x + ([NUL] + q + [NUL]) + y) + [NUL]
  {
    var two := [File(p, x), File(q, y)];
    StreamParts(two);
    assert two[1..] == [File(q, y)];
    OneFileStream(File(q, y));
    hide Stream;
    assert p + ([NUL] + (x + ([NUL] + (q + ([NUL] + (y + [NUL])))))) == p + [NUL] + (x + ([NUL] + q + [NUL]) + y) + [NUL];
  }

  // ---- _tree_digest ----

  const NODE_MODULES: Bytes := Ascii("node_modules")
  const PORTAL_DIST: seq<Bytes> := [Ascii("portal"), Ascii("dist")]
  const RENDERED_PLIST: Bytes := Ascii("com.vetcoders.vibecrafted-slack-bridge.plist")

  /** A path below one of the copied roots; a symlink is no regular file. */
  datatype Found = Found(parts: seq<Bytes>, regular: bool, body: Bytes)

  predicate Hashed(f: Found, withDist: bool) {
    f.regular && NODE_MODULES !in f.parts && (withDist || !(PORTAL_DIST <= f.parts))
    && (f.parts == [] || f.parts[|f.parts| - 1] != RENDERED_PLIST)
  }

  function Posix(parts: seq<Bytes>): Bytes {
    if parts == [] then [] else if |parts| == 1 then parts[0] else parts[0] + [47] + Posix(parts[1..])
  }

  function HashedFiles(found: seq<Found>, withDist: bool): seq<File> {
    if found == [] then []
    else
      var n := |found| - 1;
      HashedFiles(found[..n], withDist) + (if Hashed(found[n], withDist) then [File(Posix(found[n].parts), found[n].body)] else [])
  }

  /** Build output left in a checkout does not change the source digest. */
  lemma {:induction false} DistIgnored(found: seq<Found>, f: Found)
    requires PORTAL_DIST <= f.parts
    ensures HashedFiles(found + [f], false) == HashedFiles(found, false)
  {
    assert (found + [f])[..|found|] == found;
  }

  function Framed(f: File): Bytes { f.path + [NUL] + f.body + [NUL] }

  lemma StreamFirst(f: File, rest: seq<File>)
    ensures Stream([f] + rest) == Framed(f) + Stream(rest)
  {
    assert ([f] + rest)[1..] == rest;
  }

  lemma {:induction false} StreamSnoc(files: seq<File>, f: File)
    ensures Stream(files + [f]) == Stream(files) + Framed(f)
  {
    hide Framed;
    if files == [] {
      assert files + [f] == [f] + [];
      StreamFirst(f, []);
    } else {
      StreamSnoc(files[1..], f);
      hide Stream;
      assert files + [f] == [files[0]] + (files[1..] + [f]) && files == [files[0]] + files[1..];
      StreamFirst(files[0], files[1..] + [f]);
      StreamFirst(files[0], files[1..]);
    }
  }

  lemma StreamNext(found: seq<Found>, f: Found, withDist: bool)
    ensures Stream(HashedFiles(found + [f], withDist)) ==
            if Hashed(f, withDist) then Stream(HashedFiles(found, withDist)) + Framed(File(Posix(f.parts), f.body))
            else Stream(HashedFiles(found, withDist))
  {
    assert (found + [f])[..|found|] == found;
    hide Hashed, Posix, Framed, Stream;
    if Hashed(f, withDist) {
      StreamSnoc(HashedFiles(found, withDist), File(Posix(f.parts), f.body));
    } else {
      assert HashedFiles(found, withDist) + [] == HashedFiles(found, withDist);
    }
  }

  function Concat(roots: seq<seq<Found>>): seq<Found> {
    if roots == [] then [] else Concat(roots[..|roots| - 1]) + roots[|roots| - 1]
  }

  method FeedRoot(sofar: Bytes, ghost before: seq<Found>, paths: seq<Found>, withDist: bool) returns (fed: Bytes)
    requires sofar == Stream(HashedFiles(before, withDist))
    ensures fed == Stream(HashedFiles(before + paths, withDist))
  {
    hide *;
    fed := sofar;
    var j := 0;
    assert before + paths[..0] == before;
    while j < |paths|
      invariant j <= |paths|
      invariant fed == Stream(HashedFiles(before + paths[..j], withDist))
    {
      StreamNext(before + paths[..j], paths[j], withDist);
      assert (before + paths[..j]) + [paths[j]] == before + paths[..j + 1];
      if Hashed(paths[j], withDist) {
        fed := fed + Framed(File(Posix(paths[j].parts), paths[j].body));
      }
      j := j + 1;
    }
    assert paths[..j] == paths;
  }

  /** What the digest is fed, root by root and file by file. */
  method Feed(roots: seq<seq<Found>>, withDist: bool) returns (fed: Bytes)
    ensures fed == Stream(HashedFiles(Concat(roots), withDist))
  {
    fed := [];
    var i := 0;
    assert roots[..0] == [] && Stream(HashedFiles([], withDist)) == [];
    hide Stream, HashedFiles;
    while i < |roots|
      invariant i <= |roots|
      invariant fed == Stream(HashedFiles(Concat(roots[..i]), withDist))
    {
      fed := FeedRoot(fed, Concat(roots[..i]), roots[i], withDist);
      assert roots[..i + 1][..i] == roots[..i];
      i := i + 1;
    }
    assert roots[..i] == roots;
  }

  // ---- which files are fed ----

  /** A regular file with no node_modules in its path, that is not the rendered
      plist and, for the source, not below portal/dist. */
  ghost predicate Runtime(f: Found, withDist: bool) {
    && f.regular && (forall i :: 0 <= i < |f.parts| ==> f.parts[i] != Ascii("node_modules"))
    && (f.parts == [] || f.parts[|f.parts| - 1] != Ascii("com.vetcoders.vibecrafted-slack-bridge.plist"))
    && (withDist || !(|f.parts| >= 2 && f.parts[0] == Ascii("portal") && f.parts[1] == Ascii("dist")))
  }

  lemma HashedExactly(f: Found, withDist: bool)
    ensures Hashed(f, withDist) <==> Runtime(f, withDist)
  {
    assert NODE_MODULES == Ascii("node_modules") && RENDERED_PLIST == Ascii("com.vetcoders.vibecrafted-slack-bridge.plist");
    assert PORTAL_DIST == [Ascii("portal"), Ascii("dist")];
    hide NODE_MODULES, RENDERED_PLIST, Ascii;
    if PORTAL_DIST <= f.parts {
      assert f.parts[..2] == PORTAL_DIST && f.parts[0] == PORTAL_DIST[0] && f.parts[1] == PORTAL_DIST[1];
    }
    if |f.parts| >= 2 && f.parts[0] == Ascii("portal") && f.parts[1] == Ascii("dist") {
      assert f.parts[..2] == PORTAL_DIST;
    }
  }

  /** The files that are fed are the runtime files, each under its own path. */
  lemma {:induction false} FedExactly(found: seq<Found>, withDist: bool, file: File)
    ensures file in HashedFiles(found, withDist)
            <==> exists f :: f in found && Runtime(f, withDist) && file == File(Posix(f.parts), f.body)
  {
    if found != [] {
      var before, last := found[..|found| - 1], found[|found| - 1];
      assert found == before + [last];
      FedExactly(before, withDist, file);
      HashedExactly(last, withDist);
      hide Hashed, Runtime, Posix;
    }
  }

  /** A path is spelled with a slash before each part but the first. */
  lemma {:induction false} SpelledWithSlashes(parts: seq<Bytes>, last: Bytes)
    ensures Posix([last]) == last
    ensures parts != [] ==> Posix(parts + [last]) == Posix(parts) + [47] + last
  {
    if |parts| == 1 {
      assert (parts + [last])[1..] == [last] && (parts + [last])[0] == parts[0];
    } else if |parts| > 1 {
      SpelledWithSlashes(parts[1..], last);
      assert (parts + [last])[1..] == parts[1..] + [last];
      assert parts[0] + [47] + (Posix(parts[1..]) + [47] + last) == (parts[0] + [47] + Posix(parts[1..])) + [47] + last;
    }
  }
}
