/** Simplified POSIX path helpers: the subset of Node's `path.join`,
    `path.basename`, `path.extname` and `path.dirname` that the processor
    uses. Paths are plain strings with `/` as the only separator; `Join`
    assumes an already normalised directory and a single-segment name, so
    Node's normalisation of `.`/`..` segments and repeated slashes is not
    modelled. */
module Paths {

  type Path = string

  predicate HasNoSeparator(s: string) {
    forall i :: 0 <= i < |s| ==> s[i] != '/'
  }

  predicate EndsWith(s: string, suffix: string) {
    |suffix| <= |s| && s[|s| - |suffix|..] == suffix
  }

  /** `path.join(dir, name)` for a normalised directory and one segment. */
  function Join(dir: Path, name: string): Path {
    dir + "/" + name
  }

  /** The path with every trailing `/` removed. */
  function StripTrailingSeparators(p: Path): (q: Path)
    ensures |q| <= |p| && q == p[..|q|]
    ensures |q| == 0 || q[|q| - 1] != '/'
    ensures forall i :: |q| <= i < |p| ==> p[i] == '/'
  {
    if |p| > 0 && p[|p| - 1] == '/' then StripTrailingSeparators(p[..|p| - 1]) else p
  }

  /** The part of `p` after its last `/` (all of `p` when it has none). */
  function LastSegment(p: Path): (b: string)
    ensures HasNoSeparator(b)
    ensures EndsWith(p, b)
    ensures |b| < |p| ==> p[|p| - |b| - 1] == '/'
  {
    if |p| == 0 || p[|p| - 1] == '/' then ""
    else LastSegment(p[..|p| - 1]) + [p[|p| - 1]]
  }

  /** `path.basename(p)`: the last segment once trailing slashes are dropped. */
  function Basename(p: Path): (b: string)
    ensures HasNoSeparator(b)
    ensures |b| <= |p|
    ensures EndsWith(StripTrailingSeparators(p), b)
    ensures var q := StripTrailingSeparators(p); |b| < |q| ==> q[|q| - |b| - 1] == '/'
  {
    LastSegment(StripTrailingSeparators(p))
  }

  /** Index of the last occurrence of `c` in `s`, or -1 when there is none. */
  function LastIndexOf(s: string, c: char): (k: int)
    ensures -1 <= k < |s|
    ensures 0 <= k ==> s[k] == c
    ensures forall j :: k < j < |s| ==> s[j] != c
  {
    if |s| == 0 then -1
    else if s[|s| - 1] == c then |s| - 1
    else LastIndexOf(s[..|s| - 1], c)
  }

  /** The extension of a single segment, as `path.extname` computes it: from
      the last `.` to the end, except that a segment with no `.`, a segment
      whose only leading character is its last `.` (a dot-file) and the
      segment `..` have none. */
  function SegmentExtension(b: string): (e: string)
    ensures EndsWith(b, e)
    ensures e == "" || (e[0] == '.' && |e| < |b| && forall j :: 0 < j < |e| ==> e[j] != '.')
    ensures e != "" <==> b != ".." && exists i :: 0 < i < |b| && b[i] == '.'
  {
    var k := LastIndexOf(b, '.');
    if k <= 0 || b == ".." then
      assert forall i :: 0 < i < |b| && b != ".." ==> b[i] != '.';
      ""
    else b[k..]
  }

  /** `path.extname(p)`. */
  function Extname(p: Path): string {
    SegmentExtension(Basename(p))
  }

  /** `path.basename(p, path.extname(p))`: the base name without extension. */
  function Stem(p: Path): (s: string)
    ensures s + Extname(p) == Basename(p)
    ensures HasNoSeparator(s)
  {
    var b := Basename(p);
    var e := SegmentExtension(b);
    DropSuffix(b, e);
    b[..|b| - |e|]
  }

  /** Cutting a suffix off and putting it back gives the string again, and
      a prefix of a separator-free string is separator-free. */
  lemma DropSuffix(b: string, e: string)
    requires EndsWith(b, e) && HasNoSeparator(b)
    ensures b[..|b| - |e|] + e == b
    ensures HasNoSeparator(b[..|b| - |e|])
  {
    var k := |b| - |e|;
    assert b == b[..k] + b[k..];
  }

  /** `path.dirname(p)` for a path without trailing slash: everything before
      the last `/`, `"/"` when that is the only one, `"."` when there is none. */
  function Dirname(p: Path): Path {
    var k := LastIndexOf(p, '/');
    if k < 0 then "." else if k == 0 then "/" else p[..k]
  }

  lemma BasenameOfJoin(dir: Path, name: string)
    requires name != "" && HasNoSeparator(name)
    ensures Basename(Join(dir, name)) == name
  {
    var p := Join(dir, name);
    assert StripTrailingSeparators(p) == p;
    LastSegmentOfJoin(dir, name);
  }

  lemma {:induction false} LastSegmentOfJoin(dir: Path, name: string)
    requires HasNoSeparator(name)
    ensures LastSegment(Join(dir, name)) == name
    decreases |name|
  {
    var p := Join(dir, name);
    if |name| > 0 {
      var init := name[..|name| - 1];
      assert p[..|p| - 1] == Join(dir, init);
      LastSegmentOfJoin(dir, init);
      assert name == init + [name[|name| - 1]];
    }
  }

  lemma DirnameOfJoin(dir: Path, name: string)
    requires dir != "" && HasNoSeparator(name)
    ensures Dirname(Join(dir, name)) == dir
  {
    var p := Join(dir, name);
    var k := LastIndexOf(p, '/');
    assert p[|dir|] == '/';
    assert k == |dir|;
  }

  /** Joining is injective for single-segment names: equal joined paths
      come from the same directory and the same name. */
  lemma JoinInjective(d1: Path, n1: string, d2: Path, n2: string)
    requires HasNoSeparator(n1) && HasNoSeparator(n2)
    ensures Join(d1, n1) == Join(d2, n2) <==> d1 == d2 && n1 == n2
  {
    var p1, p2 := Join(d1, n1), Join(d2, n2);
    if p1 == p2 {
      assert p1[|d1|] == '/' && p2[|d2|] == '/';
      assert forall i :: |d1| < i < |p1| ==> p1[i] == n1[i - |d1| - 1];
      assert forall i :: |d2| < i < |p2| ==> p2[i] == n2[i - |d2| - 1];
      assert |d1| == |d2|;
      assert n1 == p1[|d1| + 1..];
      assert n2 == p2[|d2| + 1..];
      assert d1 == p1[..|d1|];
      assert d2 == p2[..|d2|];
    }
  }

  lemma NoSeparatorConcat(a: string, b: string)
    requires HasNoSeparator(a) && HasNoSeparator(b)
    ensures HasNoSeparator(a + b)
  {
    assert forall i :: |a| <= i < |a + b| ==> (a + b)[i] == b[i - |a|];
  }

  /** Appending text without `c` does not move the last `c`. */
  lemma {:induction false} LastIndexOfAppend(s: string, t: string, c: char)
    requires c !in t
    ensures LastIndexOf(s + t, c) == LastIndexOf(s, c)
    decreases |t|
  {
    if |t| > 0 {
      assert (s + t)[..|s + t| - 1] == s + t[..|t| - 1];
      LastIndexOfAppend(s, t[..|t| - 1], c);
    } else {
      assert s + t == s;
    }
  }

  lemma EndsWithAppend(s: string, t: string)
    ensures EndsWith(s + t, t)
  {
    assert (s + t)[|s + t| - |t|..] == t;
  }

  /** Two strings with different last characters are different. */
  lemma DifferentLastChar(a: string, b: string)
    requires a != "" && b != "" && a[|a| - 1] != b[|b| - 1]
    ensures a != b
  {
  }

  lemma AppendCancel(x: string, y: string, suffix: string)
    ensures x + suffix == y + suffix <==> x == y
  {
    if x + suffix == y + suffix {
      assert x == (x + suffix)[..|x|];
      assert y == (y + suffix)[..|y|];
    }
  }
}
