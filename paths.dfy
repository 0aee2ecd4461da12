/**
 * The three `path` helpers the tool relies on (`join`, `dirname`, `basename`),
 * modelled on POSIX-style paths made of `/`-separated segments. Segment
 * normalisation (`.`, `..`, repeated separators) is not modelled.
 */
module Paths {
  import opened Wrappers

  const Separator: char := '/'

  /** Position of the first occurrence of `c` in `s`. */
  function FirstIndexOf(s: string, c: char): (r: Option<nat>)
    ensures r.None? <==> c !in s
    ensures r.Some? ==> r.value < |s| && s[r.value] == c && c !in s[..r.value]
  {
    FirstIndexFrom(s, c, 0)
  }

  /** Position of the first occurrence of `c` in `s` at or after `from`. */
  function FirstIndexFrom(s: string, c: char, from: nat): (r: Option<nat>)
    requires from <= |s|
    ensures r.None? <==> c !in s[from..]
    ensures r.Some? ==> from <= r.value < |s| && s[r.value] == c && c !in s[from..r.value]
    decreases |s| - from
  {
    if from == |s| then None
    else if s[from] == c then Some(from)
    else FirstIndexFrom(s, c, from + 1)
  }

  /** Position of the last occurrence of `c` in `s`. */
  function LastIndexOf(s: string, c: char): (r: Option<nat>)
    ensures r.None? <==> c !in s
    ensures r.Some? ==> r.value < |s| && s[r.value] == c && c !in s[r.value + 1..]
  {
    if s == [] then None
    else if s[|s| - 1] == c then Some(|s| - 1)
    else
      match LastIndexOf(s[..|s| - 1], c)
      case None => None
      case Some(i) =>
        assert s[i + 1..] == s[..|s| - 1][i + 1..] + [s[|s| - 1]];
        Some(i)
  }

  /** `path.basename`: the last segment of `p`. */
  function Basename(p: string): (r: string)
    ensures Separator !in r
    ensures |r| <= |p| && r == p[|p| - |r|..]
    ensures Separator !in p ==> r == p
    ensures Separator in p ==> |r| < |p| && p[|p| - |r| - 1] == Separator
  {
    match LastIndexOf(p, Separator)
    case None => p
    case Some(i) => p[i + 1..]
  }

  /** `path.dirname`: everything before the last separator, `.` when there is none. */
  function Dirname(p: string): (r: string)
    ensures r != ""
    ensures Separator !in p ==> r == "."
    ensures Separator in p ==> var k := |p| - |Basename(p)| - 1;
      r == if k == 0 then [Separator] else p[..k]
  {
    match LastIndexOf(p, Separator)
    case None => "."
    case Some(i) => if i == 0 then [Separator] else p[..i]
  }

  /** `path.join` of two relative parts, one separator between them. */
  function Join(a: string, b: string): (r: string)
    ensures a == "" ==> r == b
    ensures b == "" ==> r == a
    ensures a != "" && b != "" ==> a <= r && |b| < |r| && r[|r| - |b|..] == b
    ensures a != "" && b != "" ==> r == TrimTrailingSeparator(a) + [Separator] + b
  {
    if a == "" then b
    else if b == "" then a
    else if a[|a| - 1] == Separator then a + b
    else a + [Separator] + b
  }

  /** `a` without one trailing separator. */
  function TrimTrailingSeparator(a: string): (r: string)
    ensures r == a || r + [Separator] == a
    ensures a != "" && a[|a| - 1] == Separator ==> r + [Separator] == a
  {
    if a != "" && a[|a| - 1] == Separator then a[..|a| - 1] else a
  }

  /** Joining a single segment onto a directory and splitting it again gives both parts back. */
  lemma {:induction false} JoinSplits(a: string, b: string)
    requires b != "" && Separator !in b
    ensures Basename(Join(a, b)) == b
    ensures a != "" && TrimTrailingSeparator(a) != "" ==> Dirname(Join(a, b)) == TrimTrailingSeparator(a)
  {
    if a != "" {
      var d := TrimTrailingSeparator(a);
      var p := Join(a, b);
      assert p == d + [Separator] + b;
      assert p[|d|] == Separator;
      LastSeparatorAt(p, |d|);
      assert p[|d| + 1..] == b;
      if d != "" {
        assert p[..|d|] == d;
      }
    }
  }

  /** The last separator of `p` sits at `k` when none follows it. */
  lemma LastSeparatorAt(p: string, k: nat)
    requires k < |p| && p[k] == Separator && Separator !in p[k + 1..]
    ensures LastIndexOf(p, Separator) == Some(k)
  {
    var r := LastIndexOf(p, Separator);
    assert r.Some?;
    assert p[k] in p[r.value..];
  }
}
