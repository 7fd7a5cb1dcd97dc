/** From a request target to a file name: `path_cat` and the target check of http_session.cpp. */
module StaticFiles {
  import opened Octets

  const DOTS: bytes := ".."
  const INDEX: bytes := "index.html"

  /** The check of `handle_request`: absolute, and no "..". */
  predicate Legal(target: bytes) {
    target != [] && target[0] == '/' && Find(target, DOTS, 0).None?
  }

  function Stripped(base: bytes): bytes {
    if base != [] && base[|base| - 1] == '/' then base[..|base| - 1] else base
  }

  /** `path_cat`, where the path separator is '/'. */
  method PathCat(base: bytes, path: bytes) returns (result: bytes)
    ensures result == if base == [] then path else Stripped(base) + path
  {
    if base == [] { return path; }
    result := base;
    if result[|result| - 1] == '/' { result := result[..|result| - 1]; }
    result := result + path;
  }

  /** The target, with the default file name of a directory. */
  function WithIndex(target: bytes): bytes {
    if target != [] && target[|target| - 1] == '/' then target + INDEX else target
  }

  function Built(docRoot: bytes, target: bytes): bytes {
    if docRoot == [] then WithIndex(target) else Stripped(docRoot) + WithIndex(target)
  }

  /** The file name `handle_request` opens; `None` is a bad request. */
  method BuildPath(docRoot: bytes, target: bytes) returns (path: Option<bytes>)
    ensures path == if Legal(target) then Some(Built(docRoot, target)) else None
  {
    if target == [] || target[0] != '/' || Find(target, DOTS, 0).Some? { return None; }
    var p := PathCat(docRoot, target);
    if target[|target| - 1] == '/' { p := p + INDEX; }
    assert docRoot != [] ==> Stripped(docRoot) + target + INDEX == Stripped(docRoot) + (target + INDEX);
    return Some(p);
  }

  // What a file name means: a walk from a directory, as POSIX resolves names without links.

  /** The components between separators. */
  function Split(s: bytes): (parts: seq<bytes>)
    ensures parts != []
  {
    if s == [] then [[]]
    else
      var rest := Split(s[1..]);
      if s[0] == '/' then [[]] + rest else [[s[0]] + rest[0]] + rest[1..]
  }

  function Enter(dir: seq<bytes>, part: bytes): seq<bytes> {
    if part == [] || part == "." then dir
    else if part == DOTS then (if dir == [] then [] else dir[..|dir| - 1])
    else dir + [part]
  }

  function Walk(dir: seq<bytes>, parts: seq<bytes>): seq<bytes>
    decreases |parts|
  {
    if parts == [] then dir else Walk(Enter(dir, parts[0]), parts[1..])
  }

  /** The directory or file that a name denotes for a process working in `cwd`. */
  function Resolve(cwd: seq<bytes>, name: bytes): seq<bytes> {
    Walk(if name != [] && name[0] == '/' then [] else cwd, Split(name))
  }

  /** The components that name something. */
  function Names(parts: seq<bytes>): seq<bytes> {
    if parts == [] then []
    else (if parts[0] == [] || parts[0] == "." then [] else [parts[0]]) + Names(parts[1..])
  }

  lemma {:induction false} SplitJoin(a: bytes, b: bytes)
    ensures Split(a + "/" + b) == Split(a) + Split(b)
  {
    var s := a + "/" + b;
    if a == [] {
      assert s[1..] == b;
    } else {
      assert s[1..] == a[1..] + "/" + b;
      SplitJoin(a[1..], b);
    }
  }

  lemma {:induction false} SplitPlain(s: bytes)
    requires '/' !in s
    ensures Split(s) == [s]
  {
    if s != [] {
      SplitPlain(s[1..]);
      assert s[0] in s && [s[0]] + s[1..] == s;
    }
  }

  lemma {:induction false} WalkAppend(dir: seq<bytes>, x: seq<bytes>, y: seq<bytes>)
    ensures Walk(dir, x + y) == Walk(Walk(dir, x), y)
    decreases |x|
  {
    if x == [] {
      assert x + y == y;
    } else {
      assert (x + y)[1..] == x[1..] + y;
      WalkAppend(Enter(dir, x[0]), x[1..], y);
    }
  }

  lemma {:induction false} WalkDown(dir: seq<bytes>, parts: seq<bytes>)
    requires DOTS !in parts
    ensures Walk(dir, parts) == dir + Names(parts)
    decreases |parts|
  {
    if parts != [] {
      assert parts[0] in parts && DOTS !in parts[1..];
      WalkDown(Enter(dir, parts[0]), parts[1..]);
    }
  }

  /** A component stands in the string it was cut from, the first one at its start. */
  lemma {:induction false} ComponentOccurs(s: bytes, k: nat) returns (p: nat)
    requires k < |Split(s)|
    ensures OccursAt(s, Split(s)[k], p) && (k == 0 ==> p == 0)
  {
    if s == [] || (k == 0 && s[0] == '/') {
      p := 0;
    } else if k == 0 {
      var q := ComponentOccurs(s[1..], 0);
      p := 0;
      var part := Split(s[1..])[0];
      assert s[..1 + |part|] == [s[0]] + s[1..][..|part|];
    } else {
      var rest, m := s[1..], if s[0] == '/' then k - 1 else k;
      var q := ComponentOccurs(rest, m);
      p := q + 1;
      var part := Split(s)[k];
      assert part == Split(rest)[m];
      assert rest[q..q + |part|] == part;
      assert s[p..p + |part|] == rest[q..q + |part|];
    }
  }

  lemma NoDotsComponent(s: bytes)
    requires forall p: nat :: !OccursAt(s, DOTS, p)
    ensures DOTS !in Split(s)
  {
    forall k | 0 <= k < |Split(s)|
      ensures Split(s)[k] != DOTS
    {
      var p := ComponentOccurs(s, k);
    }
  }

  lemma NoDotsInPrefix(pre: bytes, s: bytes)
    requires pre <= s && Find(s, DOTS, 0).None?
    ensures forall p: nat :: !OccursAt(pre, DOTS, p)
  {
    forall p: nat
      ensures !OccursAt(pre, DOTS, p)
    {
      assert p + 2 <= |pre| ==> s[p..p + 2] == pre[p..p + 2];
      assert !OccursAt(s, DOTS, p);
    }
  }

  /** A legal target, with its index file, has no component that goes up. */
  lemma LegalGoesDown(target: bytes)
    requires Legal(target)
    ensures DOTS !in Split(WithIndex(target))
  {
    hide Split;
    if target[|target| - 1] == '/' {
      var pre := target[..|target| - 1];
      assert target == pre + "/";
      NoDotsInPrefix(pre, target);
      NoDotsComponent(pre);
      assert target + INDEX == pre + "/" + INDEX;
      SplitJoin(pre, INDEX);
      SplitPlain(INDEX);
    } else {
      NoDotsComponent(target);
    }
  }

  /** A trailing separator does not change what a name denotes. */
  lemma StrippedResolves(start: seq<bytes>, root: bytes)
    ensures Walk(start, Split(root)) == Walk(start, Split(Stripped(root)))
  {
    if Stripped(root) != root {
      assert root == Stripped(root) + "/" + [];
      SplitJoin(Stripped(root), []);
      WalkAppend(start, Split(Stripped(root)), [[]]);
      assert Walk(Walk(start, Split(Stripped(root))), [[]]) == Walk(start, Split(Stripped(root)));
    }
  }

  lemma NamesSkip(parts: seq<bytes>)
    ensures Names([[]] + parts) == Names(parts)
  {
    assert ([[]] + parts)[1..] == parts;
  }

  /**
   * For any working directory and any non-empty document root, a legal target opens a file at or
   * below the root: at the root followed by the components that the target names.
   */
  lemma Containment(cwd: seq<bytes>, docRoot: bytes, target: bytes)
    requires docRoot != [] && Legal(target)
    ensures Resolve(cwd, Built(docRoot, target)) == Resolve(cwd, docRoot) + Names(Split(WithIndex(target)))
  {
    hide Names, Split, Walk;
    var full, base := WithIndex(target), Stripped(docRoot);
    var start := if docRoot[0] == '/' then [] else cwd;
    LegalGoesDown(target);
    assert full == "/" + full[1..] && full == [] + "/" + full[1..];
    assert base + full == base + "/" + full[1..];
    SplitJoin(base, full[1..]);
    SplitJoin([], full[1..]);
    SplitPlain([]);
    assert Split(full) == [[]] + Split(full[1..]);
    NamesSkip(Split(full[1..]));
    assert DOTS !in Split(full[1..]);
    WalkAppend(start, Split(base), Split(full[1..]));
    WalkDown(Walk(start, Split(base)), Split(full[1..]));
    StrippedResolves(start, docRoot);
    assert (base + full)[0] == docRoot[0];
  }

  /** With an empty document root the target is opened as it stands, from the top of the file system. */
  lemma EmptyRoot(cwd: seq<bytes>, target: bytes)
    requires Legal(target)
    ensures Resolve(cwd, []) == cwd && Resolve(cwd, Built([], target)) == Names(Split(WithIndex(target)))
  {
    LegalGoesDown(target);
    WalkDown([], Split(WithIndex(target)));
    assert [] + Names(Split(WithIndex(target))) == Names(Split(WithIndex(target)));
    assert Walk(cwd, [[]]) == cwd;
  }

  lemma NamesOfOne(part: bytes)
    requires part != [] && part != "."
    ensures Names([[], part]) == [part]
  {
    assert [[], part][1..] == [part] && [part][1..] == [];
    assert Names([part]) == [part] + Names([]);
  }

  /** A target of one letter, and where it leads from the top. */
  lemma OneLetter(c: octet)
    requires c != '/' && c != '.'
    ensures Legal(['/', c]) && Names(Split(WithIndex(['/', c]))) == [[c]]
  {
    hide Names, Split;
    var target: bytes, part: bytes := ['/', c], [c];
    assert target == [] + "/" + part;
    SplitJoin([], part);
    SplitPlain([]);
    SplitPlain(part);
    assert Split(target) == [[], part];
    NamesOfOne(part);
    assert !OccursAt(target, DOTS, 0) by { assert target[0..2][0] == '/'; }
    assert forall p | 0 <= p :: !OccursAt(target, DOTS, p);
  }

  /** A target that leaves the working directory under an empty document root. */
  lemma EmptyRootIsNotContained(cwd: seq<bytes>) returns (target: bytes)
    requires cwd != []
    ensures Legal(target) && !(Resolve(cwd, []) <= Resolve(cwd, Built([], target)))
  {
    hide Names, Split, Walk, Resolve;
    var c: octet := if cwd[0] == "a" then 'b' else 'a';
    target := ['/', c];
    OneLetter(c);
    EmptyRoot(cwd, target);
    assert [c] != cwd[0] by { if cwd[0] == "a" { assert cwd[0][0] == 'a'; } }
  }

  /**
   * Every legal target stays at or below the document root exactly if the root is not empty, or the
   * server works in the top directory.
   */
  lemma ContainedExactlyWhen(cwd: seq<bytes>, docRoot: bytes)
    ensures (forall target | Legal(target) :: Resolve(cwd, docRoot) <= Resolve(cwd, Built(docRoot, target)))
       <==> docRoot != [] || cwd == []
  {
    hide Names, Split, Walk, Resolve;
    if docRoot != [] {
      forall target | Legal(target)
        ensures Resolve(cwd, docRoot) <= Resolve(cwd, Built(docRoot, target))
      {
        Containment(cwd, docRoot, target);
      }
    } else if cwd == [] {
      EmptyRoot(cwd, "/a") by { OneLetter('a'); }
    } else {
      var target := EmptyRootIsNotContained(cwd);
    }
  }

  lemma {:induction false} NamesAppend(x: seq<bytes>, y: seq<bytes>)
    ensures Names(x + y) == Names(x) + Names(y)
  {
    if x == [] {
      assert x + y == y;
    } else {
      assert (x + y)[1..] == x[1..] + y;
      NamesAppend(x[1..], y);
    }
  }

  lemma NamesOfIndex()
    ensures '/' !in INDEX && Names([INDEX]) == ["index.html"] && Names([[]]) == []
  {
    assert [INDEX] == [INDEX] + [];
  }

  lemma NamesUnder(pre: bytes, last: bytes)
    requires '/' !in last
    ensures Names(Split(pre + "/" + last)) == Names(Split(pre)) + Names([last])
  {
    hide Names, Split;
    SplitJoin(pre, last);
    SplitPlain(last);
    NamesAppend(Split(pre), [last]);
  }

  lemma Unsplit(target: bytes)
    requires target != [] && target[|target| - 1] == '/'
    ensures target == target[..|target| - 1] + "/" == target[..|target| - 1] + "/" + []
  {
  }

  lemma Nothing(names: seq<bytes>)
    ensures names + [] == names
  {
  }

  /** The index file is named exactly for a target that ends in a separator, besides what the target names. */
  lemma IndexIsNamed(target: bytes)
    requires target != []
    ensures Names(Split(WithIndex(target)))
         == Names(Split(target)) + if target[|target| - 1] == '/' then ["index.html"] else []
  {
    hide Names, Split, INDEX;
    if target[|target| - 1] == '/' {
      var pre := target[..|target| - 1];
      NamesOfIndex();
      Unsplit(target);
      NamesUnder(pre, []);
      NamesUnder(pre, INDEX);
      Nothing(Names(Split(pre)));
    }
  }

  /** Which file a legal target opens: the root, what the target names, and the index file of a directory. */
  lemma OpensFile(cwd: seq<bytes>, docRoot: bytes, target: bytes)
    requires docRoot != [] && Legal(target)
    ensures Resolve(cwd, Built(docRoot, target))
         == Resolve(cwd, docRoot) + (Names(Split(target)) + if target[|target| - 1] == '/' then ["index.html"] else [])
  {
    hide Names, Split, Walk, Resolve, Built, WithIndex, Find;
    Containment(cwd, docRoot, target);
    IndexIsNamed(target);
  }

  /** A root given with or without one separator at its end makes the same name, with one separator there. */
  lemma LastSeparator(root: bytes, target: bytes)
    requires root != [] && root[|root| - 1] != '/' && Legal(target)
    ensures Built(root + "/", target) == Built(root, target)
    ensures root + target <= Built(root, target)
  {
    assert (root + "/")[..|root|] == root;
  }

  /** The targets that are served: those that start with a separator and have no two dots side by side. */
  lemma LegalExactly(target: bytes)
    ensures Legal(target) <==> target != [] && target[0] == '/'
                               && forall i | 0 <= i < |target| - 1 :: !(target[i] == '.' && target[i + 1] == '.')
  {
    if Find(target, DOTS, 0).None? {
      forall i | 0 <= i < |target| - 1
        ensures !(target[i] == '.' && target[i + 1] == '.')
      {
        assert !OccursAt(target, DOTS, i);
        assert target[i..i + 2] == [target[i], target[i + 1]];
      }
    } else {
      var i := Find(target, DOTS, 0).value;
      assert target[i] == target[i..i + 2][0] && target[i + 1] == target[i..i + 2][1];
    }
  }
}
