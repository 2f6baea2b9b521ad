// The pieces of os.path that scp.py relies on, on plain strings, and the paths
// below a base directory.
module PosixPath {
  import opened Text

  // Position just after the last separator.
  function AfterSlash(p: string): (i: nat)
    ensures i <= |p| && (i > 0 ==> p[i - 1] == '/')
    ensures forall k :: i <= k < |p| ==> p[k] != '/'
  {
    if p == [] then 0 else if p[|p| - 1] == '/' then |p| else AfterSlash(p[..|p| - 1])
  }

  function RStripSlashes(p: string): string {
    if p != [] && p[|p| - 1] == '/' then RStripSlashes(p[..|p| - 1]) else p
  }

  function Head(p: string): string {
    var head := p[..AfterSlash(p)];
    // A head of nothing but separators is kept.
    if RStripSlashes(head) == [] then head else RStripSlashes(head)
  }

  // os.path.split, whose halves are os.path.dirname and os.path.basename
  function Split(p: string): (string, string) {
    (Head(p), p[AfterSlash(p)..])
  }

  function DirName(p: string): string {
    Split(p).0
  }

  function BaseName(p: string): string {
    Split(p).1
  }

  // os.path.join of two parts
  function Join(a: string, b: string): string {
    if b != [] && b[0] == '/' then b
    else if a == [] || a[|a| - 1] == '/' then a + b
    else a + "/" + b
  }

  // os.path.commonprefix of two strings, character by character
  function CommonPrefix(a: string, b: string): string {
    if a != [] && b != [] && a[0] == b[0] then [a[0]] + CommonPrefix(a[1..], b[1..]) else []
  }

  // One directory entry's name.
  predicate Name(n: string) {
    n != [] && n != "." && n != ".." && '/' !in n && forall c :: c in n ==> !Whitespace(c)
  }

  // A directory path written without a trailing separator.
  predicate Plain(p: string) {
    p != [] && p[|p| - 1] != '/'
  }

  lemma {:induction false} AfterSlashOf(d: string, n: string)
    requires '/' !in n
    ensures AfterSlash(d + "/" + n) == |d| + 1
  {
    var p := d + "/" + n;
    if n == [] {
      assert p[|p| - 1] == '/';
    } else {
      assert p[..|p| - 1] == d + "/" + n[..|n| - 1];
      AfterSlashOf(d, n[..|n| - 1]);
    }
  }

  lemma SplitChild(d: string, n: string)
    requires Plain(d) && '/' !in n
    ensures Split(d + "/" + n) == (d, n)
  {
    AfterSlashOf(d, n);
    var p := d + "/" + n;
    assert p[..|d| + 1] == d + "/";
    assert (d + "/")[..|d|] == d;
    assert RStripSlashes(d) == d;
    assert RStripSlashes(d + "/") == d;
  }

  lemma JoinChild(d: string, n: string)
    requires Plain(d) && Name(n)
    ensures Join(d, n) == d + "/" + n && Plain(Join(d, n))
  {
  }

  lemma {:induction false} CommonPrefixOf(d: string, x: string, y: string)
    ensures CommonPrefix(d + x, d + y) == d + CommonPrefix(x, y)
  {
    if d != [] {
      assert (d + x)[1..] == d[1..] + x && (d + y)[1..] == d[1..] + y;
      CommonPrefixOf(d[1..], x, y);
    } else {
      assert d + x == x && d + y == y;
    }
  }

  lemma {:induction false} CommonPrefixSelf(d: string)
    ensures CommonPrefix(d, d) == d
  {
    if d != [] {
      CommonPrefixSelf(d[1..]);
    }
  }

  // Two different names have no whole component in common.
  lemma {:induction false} DistinctNames(m: string, x: string, n: string, y: string)
    requires '/' !in m && '/' !in n && m != n
    ensures '/' !in CommonPrefix(m + "/" + x, n + "/" + y)
    decreases |m|
  {
    var a, b := m + "/" + x, n + "/" + y;
    if a[0] == b[0] && m != [] {
      assert n != [] && m[0] == n[0];
      assert a[1..] == m[1..] + "/" + x && b[1..] == n[1..] + "/" + y;
      assert m == [m[0]] + m[1..] && n == [n[0]] + n[1..];
      DistinctNames(m[1..], x, n[1..], y);
    }
  }

  /** The directory of the character-level common prefix of two directories is their parent
      in common: from is d itself or lies in another child m of d, and to is the child n. */
  lemma CommonIsParent(d: string, m: string, x: string, n: string)
    requires Plain(d) && '/' !in m && '/' !in n && m != n
    ensures DirName(CommonPrefix(d + "/" + m + "/" + x, d + "/" + n + "/")) == d
  {
    var a, b := m + "/" + x, n + "/" + "";
    DistinctNames(m, x, n, "");
    CommonPrefixOf(d + "/", a, b);
    assert d + "/" + m + "/" + x == d + "/" + a && d + "/" + n + "/" == d + "/" + b;
    SplitChild(d, CommonPrefix(a, b));
  }

  lemma CommonIsFrom(d: string, n: string)
    requires Plain(d) && '/' !in n && n != []
    ensures DirName(CommonPrefix(d + "/", d + "/" + n + "/")) == d
  {
    CommonPrefixOf(d + "/", "", n + "/");
    assert d + "/" + "" == d + "/" && d + "/" + n + "/" == d + "/" + (n + "/");
    SplitChild(d, "");
  }

  lemma CommonIsSelf(d: string)
    requires Plain(d)
    ensures DirName(CommonPrefix(d + "/", d + "/")) == d
  {
    CommonPrefixSelf(d + "/");
    assert d + "/" == d + "/" + "";
    SplitChild(d, "");
  }

  // --- paths below a base ---

  // base followed by the components cs.
  function Under(base: string, cs: seq<string>): string {
    if cs == [] then base else Under(base, cs[..|cs| - 1]) + "/" + cs[|cs| - 1]
  }

  predicate Names(cs: seq<string>) {
    forall c :: c in cs ==> Name(c)
  }

  lemma {:induction false} UnderPlain(base: string, cs: seq<string>)
    requires Plain(base) && Names(cs)
    ensures Plain(Under(base, cs))
  {
    if cs != [] {
      assert cs[|cs| - 1] in cs;
    }
  }

  lemma UnderChild(base: string, cs: seq<string>, n: string)
    ensures Under(base, cs + [n]) == Under(base, cs) + "/" + n
  {
    assert (cs + [n])[..|cs|] == cs;
  }

  // Under(base, p + f) starts with Under(base, p + f[..1]).
  lemma {:induction false} UnderSplit(base: string, p: seq<string>, f: seq<string>) returns (x: string)
    requires f != []
    ensures Under(base, p + f) + "/" == Under(base, p) + "/" + f[0] + "/" + x
    decreases |f|
  {
    if |f| == 1 {
      assert p + f == p + [f[0]];
      UnderChild(base, p, f[0]);
      x := "";
      assert Under(base, p) + "/" + f[0] + "/" + x == Under(base, p) + "/" + f[0] + "/";
    } else {
      var g, n := f[..|f| - 1], f[|f| - 1];
      var y := UnderSplit(base, p, g);
      assert p + f == (p + g) + [n];
      UnderChild(base, p + g, n);
      x := y + n + "/";
      assert Under(base, p + f) + "/" == Under(base, p + g) + "/" + n + "/";
      assert Under(base, p) + "/" + f[0] + "/" + y + (n + "/") == Under(base, p) + "/" + f[0] + "/" + (y + n + "/");
      assert (Under(base, p + g) + "/") + (n + "/") == Under(base, p + f) + "/";
    }
  }

  /** What _chdir computes: stepping from p + f to the child n of p, where f does not lead
      into n, the common directory is p. */
  lemma CommonDir(base: string, p: seq<string>, f: seq<string>, n: string)
    requires Plain(base) && Names(p) && Names(f) && Name(n) && (f == [] || f[0] != n)
    ensures DirName(CommonPrefix(Under(base, p + f) + "/", Under(base, p + [n]) + "/")) == Under(base, p)
  {
    var d := Under(base, p);
    UnderPlain(base, p);
    UnderChild(base, p, n);
    if f == [] {
      assert p + f == p;
      CommonIsFrom(d, n);
    } else {
      var x := UnderSplit(base, p, f);
      assert f[0] in f;
      CommonIsParent(d, f[0], x, n);
    }
  }

  /** One os.path.split step goes up one component. */
  lemma SplitUnder(base: string, cs: seq<string>)
    requires Plain(base) && Names(cs) && cs != []
    ensures Split(Under(base, cs)) == (Under(base, cs[..|cs| - 1]), cs[|cs| - 1])
  {
    UnderPlain(base, cs[..|cs| - 1]);
    assert cs[|cs| - 1] in cs;
    SplitChild(Under(base, cs[..|cs| - 1]), cs[|cs| - 1]);
  }

  // d itself or anything below it.
  predicate Below(d: string, p: string) {
    p == d || d + "/" <= p
  }

  // The first component of a relative path.
  function FirstName(s: string): string {
    if s == [] || s[0] == '/' then [] else [s[0]] + FirstName(s[1..])
  }

  lemma {:induction false} FirstNameOf(m: string, x: string)
    requires '/' !in m && (x == [] || x[0] == '/')
    ensures FirstName(m + x) == m
  {
    if m != [] {
      assert (m + x)[1..] == m[1..] + x;
      FirstNameOf(m[1..], x);
    } else {
      assert m + x == x;
    }
  }

  lemma BelowFirstName(d: string, m: string, p: string)
    requires '/' !in m && Below(d + "/" + m, p)
    ensures |d| + 1 <= |p| && FirstName(p[|d| + 1..]) == m
  {
    var q := d + "/" + m;
    FirstNameOf(m, p[|q|..]);
    assert p[|d| + 1..] == m + p[|q|..];
  }

  /** Subtrees of two different children of one directory share no path. */
  lemma SiblingsApart(d: string, m: string, n: string, p: string)
    requires '/' !in m && '/' !in n && Below(d + "/" + m, p) && Below(d + "/" + n, p)
    ensures m == n
  {
    BelowFirstName(d, m, p);
    BelowFirstName(d, n, p);
  }
}
