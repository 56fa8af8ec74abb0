/** The `os.path` functions the core calls, with POSIX semantics ('/' is the only separator). */
module PosixPath {

  /** `i` is `p.rfind('/') + 1`: 0 when `p` has no slash, else the index just after the last one. */
  predicate IsAfterLastSlash(p: string, i: nat) {
    && i <= |p|
    && (i > 0 ==> p[i - 1] == '/')
    && (forall k :: i <= k < |p| ==> p[k] != '/')
  }

  /**
   * `p.rfind('/') + 1`. The path functions state only length bounds in their contracts;
   * the lemmas below give their full characterisation to the proofs that need it.
   */
  function AfterLastSlash(p: string): (i: nat)
    ensures i <= |p|
  {
    if p == [] then 0 else if p[|p| - 1] == '/' then |p| else AfterLastSlash(p[..|p| - 1])
  }

  lemma {:induction false} AfterLastSlashIs(p: string)
    ensures IsAfterLastSlash(p, AfterLastSlash(p))
  {
    if p != [] && p[|p| - 1] != '/' {
      var q := p[..|p| - 1];
      AfterLastSlashIs(q);
      var i := AfterLastSlash(q);
      forall k | i <= k < |p| ensures p[k] != '/' {
        if k < |q| { assert p[k] == q[k]; }
      }
      if i > 0 { assert p[i - 1] == q[i - 1]; }
    }
  }

  /** Only one index satisfies `IsAfterLastSlash`, so any witness is the function's result. */
  lemma AfterLastSlashUnique(p: string, i: nat)
    requires IsAfterLastSlash(p, i)
    ensures AfterLastSlash(p) == i
  {
    AfterLastSlashIs(p);
  }

  /** `i` is `p.rfind('.') + 1`. */
  predicate IsAfterLastDot(p: string, i: nat) {
    && i <= |p|
    && (i > 0 ==> p[i - 1] == '.')
    && (forall k :: i <= k < |p| ==> p[k] != '.')
  }

  function AfterLastDot(p: string): (i: nat)
    ensures IsAfterLastDot(p, i)
  {
    if p == [] then 0 else if p[|p| - 1] == '.' then |p| else AfterLastDot(p[..|p| - 1])
  }

  lemma AfterLastDotUnique(p: string, i: nat)
    requires IsAfterLastDot(p, i)
    ensures AfterLastDot(p) == i
  {
  }

  /** `os.path.basename(p)`: the text after the last slash. */
  function Basename(p: string): (r: string)
    ensures |r| <= |p|
  {
    p[AfterLastSlash(p)..]
  }

  /** The basename is the slash-free suffix of `p`, preceded by a slash when it is not all of `p`. */
  lemma BasenameIs(p: string)
    ensures var r := Basename(p);
            '/' !in r && r == p[|p| - |r|..] && (|r| < |p| ==> p[|p| - |r| - 1] == '/')
  {
    AfterLastSlashIs(p);
    var r := Basename(p);
    assert forall k :: 0 <= k < |r| ==> r[k] == p[AfterLastSlash(p) + k];
  }

  /** Whether `s` holds a character other than `c`. */
  predicate HasOtherThan(s: string, c: char) {
    exists k :: 0 <= k < |s| && s[k] != c
  }

  /** `s.rstrip('/')`. */
  function StripTrailingSlashes(s: string): (r: string)
    ensures |r| <= |s|
  {
    if s != [] && s[|s| - 1] == '/' then StripTrailingSlashes(s[..|s| - 1]) else s
  }

  /** What `rstrip('/')` removes is slashes only, and what it keeps does not end in one. */
  lemma {:induction false} StripTrailingSlashesIs(s: string)
    ensures var r := StripTrailingSlashes(s); r == s[..|r|] && (r != [] ==> r[|r| - 1] != '/')
    ensures forall k :: |StripTrailingSlashes(s)| <= k < |s| ==> s[k] == '/'
  {
    if s != [] && s[|s| - 1] == '/' {
      StripTrailingSlashesIs(s[..|s| - 1]);
    }
  }

  /**
   * `os.path.dirname(p)`: everything before the last slash; trailing slashes of that
   * head are dropped unless the head consists of slashes only.
   */
  function Dirname(p: string): (r: string)
    ensures |r| <= AfterLastSlash(p)
  {
    var head := p[..AfterLastSlash(p)];
    if HasOtherThan(head, '/') then StripTrailingSlashes(head) else head
  }

  /**
   * The directory part is the path up to its last slash, less the slashes that end it,
   * unless it consists of slashes only (the root), which is kept whole; it is empty
   * exactly when the path has no slash.
   */
  lemma DirnameIs(p: string)
    ensures var r := Dirname(p); r == p[..|r|] && ('/' !in p <==> r == [])
    ensures forall k :: |Dirname(p)| <= k < AfterLastSlash(p) ==> p[k] == '/'
    ensures HasOtherThan(Dirname(p), '/') ==> Dirname(p)[|Dirname(p)| - 1] != '/'
    ensures !HasOtherThan(Dirname(p), '/') ==> |Dirname(p)| == AfterLastSlash(p)
  {
    AfterLastSlashIs(p);
    var i := AfterLastSlash(p);
    var head := p[..i];
    var r := Dirname(p);
    StripTrailingSlashesIs(head);
    if HasOtherThan(head, '/') {
      var k :| 0 <= k < |head| && head[k] != '/';
      assert k < |r| && r[k] == head[k];
      forall k' | |r| <= k' < i ensures p[k'] == '/' { assert p[k'] == head[k']; }
    }
    if '/' !in p {
      assert i == 0;
    } else {
      var k :| 0 <= k < |p| && p[k] == '/';
      assert k < i && head[i - 1] == '/';
    }
  }

  /** A path with two directories above its file name. */
  lemma DirnameExample()
    ensures Dirname("x/y/Bar") == "x/y"
  {
    var p := "x/y/Bar";
    assert IsAfterLastSlash(p, 4);
    AfterLastSlashUnique(p, 4);
    var head := p[..4];
    assert head == "x/y/" && head[0] != '/';
    assert StripTrailingSlashes(head) == StripTrailingSlashes("x/y");
  }

  /**
   * `p` is `name` itself, or `name` cut just before one of its slashes, or a prefix made of
   * slashes only (the root): the directories `makedirs(name)` may create.
   */
  predicate AncestorOrSelf(p: string, name: string) {
    && p != [] && |p| <= |name| && p == name[..|p|]
    && (|p| == |name| || name[|p|] == '/' || !HasOtherThan(p, '/'))
  }

  /** A non-empty directory part of a path is one of its ancestors. */
  lemma DirnameAncestor(p: string)
    requires Dirname(p) != []
    ensures AncestorOrSelf(Dirname(p), p)
  {
    DirnameIs(p);
    AfterLastSlashIs(p);
    var r := Dirname(p);
    if HasOtherThan(r, '/') {
      assert |r| != AfterLastSlash(p) by { assert p[AfterLastSlash(p) - 1] == '/'; }
    }
  }

  lemma AncestorTransitive(p: string, q: string, name: string)
    requires AncestorOrSelf(p, q) && AncestorOrSelf(q, name)
    ensures AncestorOrSelf(p, name)
  {
    if |p| < |q| {
      assert name[|p|] == q[|p|];
    }
  }

  /** `os.path.join(a, b)`: an absolute `b` replaces `a`; otherwise one '/' separates them. */
  function Join(a: string, b: string): (r: string)
    ensures |b| <= |r|
  {
    if |b| > 0 && b[0] == '/' then b
    else if a == [] || a[|a| - 1] == '/' then a + b
    else a + "/" + b
  }

  /**
   * An absolute `b` is the result as it is; a relative `b` follows `a`, with one '/'
   * added unless `a` is empty or already ends in one. Either way the result is `b` behind
   * a prefix that is empty or ends in a slash.
   */
  lemma JoinIs(a: string, b: string)
    ensures |b| > 0 && b[0] == '/' ==> Join(a, b) == b
    ensures (b == [] || b[0] != '/') && (a == [] || a[|a| - 1] == '/') ==> Join(a, b) == a + b
    ensures (b == [] || b[0] != '/') && a != [] && a[|a| - 1] != '/' ==> Join(a, b) == a + "/" + b
    ensures exists x :: Join(a, b) == x + b && (x == [] || x[|x| - 1] == '/')
  {
    if |b| > 0 && b[0] == '/' {
      assert b == [] + b;
    } else if !(a == [] || a[|a| - 1] == '/') {
      assert a + "/" + b == (a + "/") + b;
    }
  }

  /** `basename(join(a, b))` is `b` for a non-empty `b` without slashes. */
  lemma JoinBasename(a: string, b: string)
    requires b != [] && '/' !in b
    ensures Basename(Join(a, b)) == b
  {
    JoinIs(a, b);
    var x :| Join(a, b) == x + b && (x == [] || x[|x| - 1] == '/');
    BasenameBehindDir(x, b);
    assert AfterLastSlash(b) == 0 by { AfterLastSlashUnique(b, 0); }
  }

  /** Joining a relative, non-empty `b` to `a` gives a longer path than `a`. */
  lemma JoinLonger(a: string, b: string)
    requires b != [] && b[0] != '/'
    ensures |Join(a, b)| > |a|
  {
  }

  /** A path whose last character is not a slash has a non-empty basename. */
  lemma BasenameNonEmpty(p: string)
    requires p != [] && p[|p| - 1] != '/'
    ensures Basename(p) != []
  {
    AfterLastSlashIs(p);
  }

  /**
   * `os.path.splitext(p)` as (root, ext): `ext` starts at the last dot when that dot lies
   * in the last path segment and is preceded there by a character other than a dot.
   */
  function SplitExt(p: string): (r: (string, string))
    ensures r.0 + r.1 == p
    ensures r.1 == [] || (r.1[0] == '.' && '.' !in r.1[1..] && '/' !in r.1 && HasOtherThan(Basename(r.0), '.'))
  {
    var sep := AfterLastSlash(p);
    var dot := AfterLastDot(p);
    if dot > sep && HasOtherThan(p[sep..dot - 1], '.') then
      var root := p[..dot - 1];
      AfterLastSlashIs(p);
      assert IsAfterLastSlash(root, sep);
      AfterLastSlashUnique(root, sep);
      assert Basename(root) == p[sep..dot - 1];
      (root, p[dot - 1..])
    else (p, [])
  }

  /** A slash-free tail does not move the last slash. */
  lemma AfterLastSlashSlashFreeTail(a: string, b: string)
    requires '/' !in b
    ensures AfterLastSlash(a + b) == AfterLastSlash(a)
  {
    var i := AfterLastSlash(a);
    var p := a + b;
    AfterLastSlashIs(a);
    forall k | i <= k < |p| ensures p[k] != '/' {
      if k < |a| { assert p[k] == a[k]; } else { assert p[k] == b[k - |a|]; }
    }
    if i > 0 { assert p[i - 1] == a[i - 1]; }
    AfterLastSlashUnique(p, i);
  }

  /** Behind a prefix that is empty or ends in a slash, the last slash is found inside `b`, or is that one. */
  lemma AfterLastSlashBehindDir(x: string, b: string)
    requires x == [] || x[|x| - 1] == '/'
    ensures AfterLastSlash(x + b) == |x| + AfterLastSlash(b)
  {
    var j := AfterLastSlash(b);
    var i := |x| + j;
    var p := x + b;
    AfterLastSlashIs(b);
    forall k | i <= k < |p| ensures p[k] != '/' { assert p[k] == b[k - |x|]; }
    if j > 0 { assert p[i - 1] == b[j - 1]; }
    else if i > 0 { assert p[i - 1] == x[|x| - 1]; }
    AfterLastSlashUnique(p, i);
  }

  /** An extension `.e` with no further dot puts the last dot at its start. */
  lemma AfterLastDotOfExt(y: string, ext: string)
    requires |ext| > 0 && ext[0] == '.' && '.' !in ext[1..]
    ensures AfterLastDot(y + ext) == |y| + 1
  {
    var p := y + ext;
    assert p[|y|] == ext[0];
    forall k | |y| + 1 <= k < |p| ensures p[k] != '.' {
      assert p[k] == ext[1..][k - |y| - 1];
    }
    AfterLastDotUnique(p, |y| + 1);
  }

  /** `SplitExt` cuts at the last dot when that dot lies after the last slash with a non-dot before it. */
  lemma SplitExtAtDot(p: string, sep: nat, dot: nat)
    requires AfterLastSlash(p) == sep && AfterLastDot(p) == dot + 1 && sep <= dot
    requires HasOtherThan(p[sep..dot], '.')
    ensures SplitExt(p).0 == p[..dot]
  {
  }

  /** In `x + path + ext` the last slash is the one of `x + path` and the last dot starts `ext`. */
  lemma SlashAndDotOfFile(x: string, path: string, ext: string)
    requires x == [] || x[|x| - 1] == '/'
    requires |ext| > 0 && ext[0] == '.' && '.' !in ext[1..] && '/' !in ext
    ensures AfterLastSlash(x + path + ext) == |x| + AfterLastSlash(path)
    ensures AfterLastDot(x + path + ext) == |x| + |path| + 1
  {
    AfterLastSlashBehindDir(x, path);
    AfterLastSlashSlashFreeTail(x + path, ext);
    AfterLastDotOfExt(x + path, ext);
  }

  /**
   * The class name the engine derives from a located file: for `x` empty or ending in a
   * slash (what `Join` puts before its second argument), the root of `x + path + ext` has
   * the basename of `path`, provided that basename has a character other than a dot.
   */
  lemma BasenameOfRoot(x: string, path: string, ext: string)
    requires x == [] || x[|x| - 1] == '/'
    requires |ext| > 0 && ext[0] == '.' && '.' !in ext[1..] && '/' !in ext
    requires HasOtherThan(Basename(path), '.')
    ensures Basename(SplitExt(x + path + ext).0) == Basename(path)
  {
    RootOfFile(x, path, ext);
    BasenameBehindDir(x, path);
  }

  /** The root of `x + path + ext` is `x + path`. */
  lemma RootOfFile(x: string, path: string, ext: string)
    requires x == [] || x[|x| - 1] == '/'
    requires |ext| > 0 && ext[0] == '.' && '.' !in ext[1..] && '/' !in ext
    requires HasOtherThan(Basename(path), '.')
    ensures SplitExt(x + path + ext).0 == x + path
  {
    var p := x + path + ext;
    var n := |x| + |path|;
    SlashAndDotOfFile(x, path, ext);
    var sep := |x| + AfterLastSlash(path);
    MiddleOfFile(x, path, ext, AfterLastSlash(path));
    assert Basename(path) == path[AfterLastSlash(path)..];
    SplitExtAtDot(p, sep, n);
  }

  lemma MiddleOfFile(x: string, path: string, ext: string, a: nat)
    requires a <= |path|
    ensures (x + path + ext)[|x| + a..|x| + |path|] == path[a..]
    ensures (x + path + ext)[..|x| + |path|] == x + path
  {
  }

  /** A prefix that is empty or ends in a slash does not change the basename. */
  lemma BasenameBehindDir(x: string, b: string)
    requires x == [] || x[|x| - 1] == '/'
    ensures Basename(x + b) == Basename(b)
  {
    AfterLastSlashBehindDir(x, b);
    assert (x + b)[|x| + AfterLastSlash(b)..] == b[AfterLastSlash(b)..];
  }
}
