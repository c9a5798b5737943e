/** The POSIX flavour of Python's os.path that the gallery relies on:
    splitext, split and join, with '/' as separator and '.' as extension
    separator. */
module Paths {
  import opened Text

  /** str.rfind(c): the index of the last `c` in `s`, or -1. */
  function RFind(s: string, c: char): (i: int)
    ensures -1 <= i < |s|
    ensures i >= 0 ==> s[i] == c
    ensures forall k :: i < k < |s| ==> s[k] != c
  {
    if |s| == 0 then -1
    else if s[|s| - 1] == c then |s| - 1
    else RFind(s[..|s| - 1], c)
  }

  /** Some character of s[lo..hi] is not a dot. */
  predicate HasNonDot(s: string, lo: int, hi: int)
    requires 0 <= lo && hi <= |s|
  {
    exists k :: lo <= k < hi && s[k] != '.'
  }

  /** os.path.splitext(p): the extension starts at the last dot of the last
      path component, unless everything before that dot in the component is
      dots (so '.bashrc' and '..' have no extension). */
  function SplitExt(p: string): (r: (string, string))
    ensures r.0 + r.1 == p
    ensures r.1 == [] || (r.1[0] == '.' && '/' !in r.1 && '.' !in r.1[1..])
  {
    var sepIndex := RFind(p, '/');
    var dotIndex := RFind(p, '.');
    if dotIndex > sepIndex && HasNonDot(p, sepIndex + 1, dotIndex) then
      (p[..dotIndex], p[dotIndex..])
    else
      (p, [])
  }

  /** os.path.split(p): the head is everything up to the last slash (with
      trailing slashes removed unless it is all slashes), the tail what
      follows it. */
  function PathSplit(p: string): (r: (string, string))
    ensures '/' !in r.1
  {
    var i := RFind(p, '/') + 1;
    var head := p[..i];
    var tail := p[i..];
    if head != [] && exists k :: 0 <= k < |head| && head[k] != '/' then
      (RStripSlashes(head), tail)
    else
      (head, tail)
  }

  /** str.rstrip('/') */
  function RStripSlashes(s: string): (r: string)
    ensures |r| <= |s| && r == s[..|r|]
    ensures r == [] || r[|r| - 1] != '/'
  {
    if |s| > 0 && s[|s| - 1] == '/' then
      var r := RStripSlashes(s[..|s| - 1]);
      assert s[..|s| - 1][..|r|] == s[..|r|];
      r
    else s
  }

  /** os.path.join(a, b) */
  function PathJoin(a: string, b: string): string
  {
    if |b| > 0 && b[0] == '/' then b
    else if a == [] || a[|a| - 1] == '/' then a + b
    else a + "/" + b
  }

  /** splitext cuts `stem + "." + ext` after `stem` when the stem holds a
      non-dot character, nothing in the name is a slash and the extension
      has no dot; a directory in front does not change the cut. */
  lemma SplitExtOf(dir: string, stem: string, ext: string)
    requires dir == [] || dir[|dir| - 1] == '/'
    requires '/' !in stem && '/' !in ext && '.' !in ext
    requires exists k :: 0 <= k < |stem| && stem[k] != '.'
    ensures SplitExt(dir + stem + "." + ext) == (dir + stem, "." + ext)
  {
    var p := dir + stem + "." + ext;
    var dot := |dir| + |stem|;
    assert p[dot] == '.';
    assert forall k :: dot < k < |p| ==> p[k] == ext[k - dot - 1];
    assert RFind(p, '.') == dot;
    var sepIndex := RFind(p, '/');
    assert forall k :: |dir| <= k < |p| ==> p[k] != '/' by {
      forall k | |dir| <= k < |p|
        ensures p[k] != '/'
      {
        if k < dot {
          assert p[k] == stem[k - |dir|];
        } else if k > dot {
          assert p[k] == ext[k - dot - 1];
        }
      }
    }
    assert sepIndex == |dir| - 1 by {
      if |dir| > 0 {
        assert p[|dir| - 1] == '/';
      }
    }
    var k :| 0 <= k < |stem| && stem[k] != '.';
    assert p[|dir| + k] == stem[k];
    assert HasNonDot(p, sepIndex + 1, dot);
    assert p[..dot] == dir + stem;
    assert p[dot..] == "." + ext;
  }

  /** Without a dot in the path there is no extension. */
  lemma SplitExtNoDot(p: string)
    requires '.' !in p
    ensures SplitExt(p) == (p, [])
  {
  }

  /** split cuts off the last component; a directory with no trailing
      slash comes back unchanged. */
  lemma PathSplitOf(dir: string, name: string)
    requires '/' !in name
    requires dir != [] && dir[|dir| - 1] != '/'
    ensures PathSplit(dir + "/" + name) == (dir, name)
  {
    var p := dir + "/" + name;
    assert p[|dir|] == '/';
    assert forall k :: |dir| < k < |p| ==> p[k] == name[k - |dir| - 1];
    assert RFind(p, '/') == |dir|;
    var head := p[..|dir| + 1];
    assert head == dir + "/";
    assert head[|dir| - 1] != '/';
    assert RStripSlashes(head) == dir;
    assert p[|dir| + 1..] == name;
  }

  /** split of a bare name: empty head. */
  lemma PathSplitBare(name: string)
    requires '/' !in name
    ensures PathSplit(name) == ("", name)
  {
  }
}
