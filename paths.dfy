/**
 * The part of Node's `path` module (POSIX flavour) and of Vite's `normalizePath`
 * that the plugin relies on. Paths are already normalized: an absolute path is
 * the sequence of its segments (`/a/b` is `["a", "b"]`), and no segment is empty,
 * `.` or `..`, or contains a `/`.
 */
module Paths {

  predicate IsSegment(s: string) {
    s != "" && s != "." && s != ".." && '/' !in s
  }

  type Segment = s: string | IsSegment(s) witness "a"

  /** A normalized absolute POSIX path. */
  type AbsPath = seq<Segment>

  /** A configured directory such as `outDir` or `preserveModulesRoot`. */
  datatype DirSpec = Absolute(segs: seq<Segment>) | Relative(segs: seq<Segment>)

  predicate StartsWith(s: string, prefix: string) {
    prefix <= s
  }

  predicate EndsWith(s: string, suffix: string) {
    |suffix| <= |s| && s[|s| - |suffix|..] == suffix
  }

  /** Segments joined with `/`. */
  function Join(segs: seq<string>): string {
    if |segs| == 0 then ""
    else if |segs| == 1 then segs[0]
    else Join(segs[..|segs| - 1]) + "/" + segs[|segs| - 1]
  }

  /** `path.normalize` of a configured directory, as a string. */
  function Render(d: DirSpec): string {
    match d
    case Absolute(segs) => "/" + Join(segs)
    case Relative(segs) => if segs == [] then "." else Join(segs)
  }

  /** `path.join(d, ...tail)`, kept as a directory value. */
  function Append(d: DirSpec, tail: seq<Segment>): DirSpec {
    match d
    case Absolute(segs) => Absolute(segs + tail)
    case Relative(segs) => Relative(segs + tail)
  }

  function RenderAbs(p: AbsPath): string {
    "/" + Join(p)
  }

  /** Length of the longest common prefix of two paths. */
  function CommonPrefixLen(a: AbsPath, b: AbsPath): (k: nat)
    ensures k <= |a| && k <= |b|
    ensures a[..k] == b[..k]
    ensures k < |a| && k < |b| ==> a[k] != b[k]
  {
    if |a| == 0 || |b| == 0 || a[0] != b[0] then 0
    else
      var k' := CommonPrefixLen(a[1..], b[1..]);
      assert a[..k' + 1] == [a[0]] + a[1..][..k'];
      assert b[..k' + 1] == [b[0]] + b[1..][..k'];
      k' + 1
  }

  function Ups(n: nat): (r: seq<string>)
    ensures |r| == n && forall i :: 0 <= i < n ==> r[i] == ".."
  {
    if n == 0 then [] else [".."] + Ups(n - 1)
  }

  /** The segments of `path.relative(from, to)`: one `..` per segment of `from`
      below the common prefix, then the rest of `to`. */
  function RelativeSegs(from: AbsPath, to: AbsPath): seq<string> {
    var k := CommonPrefixLen(from, to);
    Ups(|from| - k) + to[k..]
  }

  /** `path.relative(from, to)`; the empty string when the two are equal. */
  function RelativePath(from: AbsPath, to: AbsPath): string {
    Join(RelativeSegs(from, to))
  }

  /** Vite's `normalizePath` on POSIX is `path.posix.normalize`; on the already
      normalized strings the plugin passes it, that only turns "" into ".". */
  function NormalizePath(s: string): string {
    if s == "" then "." else s
  }

  /** A directory value of the given kind. */
  function Dir(absolute: bool, segs: seq<Segment>): DirSpec {
    if absolute then Absolute(segs) else Relative(segs)
  }

  /**
   * `path.posix.normalize` of a path whose segments before the last are
   * already normal and whose last segment `last` has no `/`: a last `.` is
   * dropped, a last `..` removes the segment before it (it is dropped at the
   * root of an absolute path and stays at the start of a relative one), an
   * empty last segment leaves the trailing `/`, and anything else is kept.
   */
  function NormalizeLast(absolute: bool, init: seq<Segment>, last: string): string {
    if last == "." then Render(Dir(absolute, init))
    else if last == ".." then
      if init != [] then Render(Dir(absolute, init[..|init| - 1]))
      else if absolute then "/" else ".."
    else NormalizePath((if absolute then "/" else "") + Join(init + [last]))
  }

  lemma {:induction false} JoinAppend(segs: seq<string>, last: string)
    ensures Join(segs + [last]) == if segs == [] then last else Join(segs) + "/" + last
  {
    var s := segs + [last];
    if segs != [] {
      assert s[..|s| - 1] == segs;
    }
  }

  /** The first segment is a prefix of the joined path. */
  lemma {:induction false} JoinHead(segs: seq<string>)
    requires segs != []
    ensures StartsWith(Join(segs), segs[0])
  {
    if |segs| > 1 {
      var init := segs[..|segs| - 1];
      JoinHead(init);
      assert init[0] == segs[0];
    }
  }

  /** A joined path starts with ".." exactly when its first segment does. */
  lemma JoinDotDot(segs: seq<string>)
    requires segs != [] && IsSegment(segs[0])
    ensures StartsWith(Join(segs), "..") <==> StartsWith(segs[0], "..")
  {
    JoinHead(segs);
    var j := Join(segs);
    if |segs[0]| >= 2 {
      assert j[..2] == segs[0][..2];
    } else {
      assert segs[0][0] != '.';
      assert j[0] == segs[0][0];
    }
  }

  lemma CommonPrefixOfPrefix(a: AbsPath, b: AbsPath)
    ensures a <= b <==> CommonPrefixLen(a, b) == |a|
  {
    var k := CommonPrefixLen(a, b);
    if k == |a| {
      assert a == a[..k];
    }
  }

  /**
   * `path.relative(from, to).startsWith("..")` holds exactly when `to` is not
   * below `from`, or when the first segment of `to` below `from` itself starts
   * with ".." (a file named `..x` directly inside `from`).
   */
  lemma {:induction false} RelativeDotDot(from: AbsPath, to: AbsPath)
    ensures StartsWith(RelativePath(from, to), "..") <==>
      !(from <= to) || (|from| < |to| && StartsWith(to[|from|], ".."))
  {
    var k := CommonPrefixLen(from, to);
    var segs := RelativeSegs(from, to);
    CommonPrefixOfPrefix(from, to);
    if k < |from| {
      assert segs[0] == "..";
      JoinHead(segs);
    } else if k < |to| {
      assert segs == to[k..];
      JoinDotDot(segs);
    } else {
      assert segs == [];
    }
  }

  /** Relative path from a directory to a file below it. */
  lemma {:induction false} RelativeBelow(dir: AbsPath, tail: AbsPath)
    ensures RelativePath(dir, dir + tail) == Join(tail)
  {
    CommonPrefixOfPrefix(dir, dir + tail);
    assert (dir + tail)[|dir|..] == tail;
    assert CommonPrefixLen(dir, dir + tail) == |dir|;
    assert Ups(0) == [];
    assert RelativeSegs(dir, dir + tail) == tail;
  }

  /** A last segment that is itself a normal segment is kept as it is. */
  lemma NormalizeLastSegment(absolute: bool, init: seq<Segment>, last: Segment)
    ensures NormalizeLast(absolute, init, last) == Render(Dir(absolute, init + [last]))
  {
    JoinAppend(init, last);
  }

  /** The collapsing cases of `NormalizeLast`, on a non-empty parent. */
  lemma NormalizeLastCollapses(absolute: bool, init: seq<Segment>, a: Segment)
    ensures NormalizeLast(absolute, init + [a], ".") == Render(Dir(absolute, init + [a]))
    ensures NormalizeLast(absolute, init + [a], "..") == Render(Dir(absolute, init))
    ensures NormalizeLast(absolute, init + [a], "") == Render(Dir(absolute, init + [a])) + "/"
  {
    assert (init + [a])[..|init|] == init;
    JoinAppend(init + [a], "");
  }
}
