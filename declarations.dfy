/**
 * The string and path rules behind module tracking and declaration pruning:
 * `stripExt`, the stem recorded for an emitted module, `resolveOutDir` and
 * `shouldKeepDeclaration`.
 */
module Declarations {
  import opened Wrappers
  import opened Paths

  predicate IsNameChar(c: char) {
    c != '.' && c != '/'
  }

  /** Length of the longest suffix of `s` with neither `.` nor `/`. */
  function TrailingNameLen(s: string): (n: nat)
    ensures n <= |s|
    ensures forall j :: |s| - n <= j < |s| ==> IsNameChar(s[j])
    ensures n < |s| ==> !IsNameChar(s[|s| - n - 1])
  {
    if |s| == 0 || !IsNameChar(s[|s| - 1]) then 0
    else 1 + TrailingNameLen(s[..|s| - 1])
  }

  /** `id.replace(/\.[^/.]+$/, "")`: drop a final `.ext` of the last segment. */
  function StripExt(id: string): string {
    var n := TrailingNameLen(id);
    if 0 < n < |id| && id[|id| - n - 1] == '.' then id[..|id| - n - 1] else id
  }

  /** Position `k` holds the dot of a trailing extension: a `.` followed by one
      or more characters, none of them `.` or `/`, up to the end. */
  ghost predicate ExtDotAt(s: string, k: int) {
    0 <= k && k + 1 < |s| && s[k] == '.' && forall j :: k < j < |s| ==> IsNameChar(s[j])
  }

  /** The regular expression's meaning: the dot of a trailing extension and
      everything after it are dropped, and nothing changes without one. */
  lemma StripExtSpec(s: string)
    ensures forall k :: ExtDotAt(s, k) ==> StripExt(s) == s[..k]
    ensures (forall k :: !ExtDotAt(s, k)) ==> StripExt(s) == s
  {
    var n := TrailingNameLen(s);
    if 0 < n < |s| && s[|s| - n - 1] == '.' {
      assert ExtDotAt(s, |s| - n - 1);
    }
  }

  lemma StripExtOf(stem: string, ext: string)
    requires ext != [] && forall j :: 0 <= j < |ext| ==> IsNameChar(ext[j])
    ensures StripExt(stem + "." + ext) == stem
  {
    var s := stem + "." + ext;
    assert ExtDotAt(s, |stem|);
    StripExtSpec(s);
    assert s[..|stem|] == stem;
  }

  lemma StripExtExamples()
    ensures StripExt("src/Button.tsx") == "src/Button"
    ensures StripExt("a.b/c") == "a.b/c"
    ensures StripExt("x.d.ts") == "x.d"
    ensures StripExt(".hidden") == ""
  {
    StripExtOf("src/Button", "tsx");
    assert "src/Button" + "." + "tsx" == "src/Button.tsx";
    StripExtOf("x.d", "ts");
    assert "x.d" + "." + "ts" == "x.d.ts";
    StripExtOf("", "hidden");
    assert "" + "." + "hidden" == ".hidden";
    assert TrailingNameLen("a.b/c") == 1 by {
      assert "a.b/c"[..4] == "a.b/";
    }
  }

  /** `/\.d\.(?:[mc]?ts)$/`, one of the three declaration suffixes. */
  function DtsSuffixLen(s: string): nat {
    if EndsWith(s, ".d.ts") then 5
    else if EndsWith(s, ".d.mts") || EndsWith(s, ".d.cts") then 6
    else 0
  }

  /** `s.replace(dtsExtRE, "")` */
  function StripDtsExt(s: string): (r: string)
    ensures r <= s
    ensures !EndsWith(s, ".d.ts") && !EndsWith(s, ".d.mts") && !EndsWith(s, ".d.cts") ==> r == s
  {
    s[..|s| - DtsSuffixLen(s)]
  }

  lemma StripDtsExtOf(stem: string, suffix: string)
    requires suffix in {".d.ts", ".d.mts", ".d.cts"}
    ensures StripDtsExt(stem + suffix) == stem
  {
    var s := stem + suffix;
    assert s[|s| - |suffix|..] == suffix;
    if suffix != ".d.ts" {
      assert s[|s| - 5..] != ".d.ts" by {
        assert s[|s| - 4] == suffix[2];
      }
    }
    assert s[..|stem|] == stem;
  }

  /** The stem `recordModule` adds for a facade module id: the id relative to the
      project root (or the id itself while the root is unknown), extension
      stripped. */
  function ModuleStem(root: Option<AbsPath>, id: AbsPath): string {
    var rel := if root.Some? then RelativePath(root.value, id) else RenderAbs(id);
    StripExt(NormalizePath(rel))
  }

  /** `resolveOutDir()` once the project root is known. */
  function ResolveOutDir(root: AbsPath, outBase: DirSpec): AbsPath {
    match outBase
    case Absolute(segs) => segs
    case Relative(segs) => root + segs
  }

  /** A suffix without `/` ends a path after a `/` exactly when it ends the
      part after that `/`. */
  lemma EndsWithAfterSlash(p: string, last: string, suffix: string)
    requires p != [] && p[|p| - 1] == '/' && '/' !in suffix
    ensures EndsWith(p + last, suffix) <==> EndsWith(last, suffix)
  {
    var s := p + last;
    if |suffix| <= |last| {
      assert s[|s| - |suffix|..] == last[|last| - |suffix|..];
    } else if |suffix| <= |s| {
      assert s[|s| - |suffix|..][|suffix| - |last| - 1] == '/';
    }
  }

  /** The declaration suffix only ever shortens the last segment. */
  lemma StripDtsExtAfterSlash(p: string, last: string)
    requires p != [] && p[|p| - 1] == '/'
    ensures StripDtsExt(p + last) == p + StripDtsExt(last)
  {
    EndsWithAfterSlash(p, last, ".d.ts");
    EndsWithAfterSlash(p, last, ".d.mts");
    EndsWithAfterSlash(p, last, ".d.cts");
    var k := DtsSuffixLen(last);
    assert (p + last)[..|p + last| - k] == p + last[..|last| - k];
  }

  /** The stem a declaration file stands for: its path below the out dir,
      re-rooted under `preserveModulesRoot`, the declaration suffix dropped
      from its last segment, and the result normalized again. */
  function DeclarationStem(preserveModulesRoot: DirSpec, tail: seq<Segment>): string {
    var full := Append(preserveModulesRoot, tail);
    var segs := full.segs;
    if segs == [] then Render(full)
    else NormalizeLast(full.Absolute?, segs[..|segs| - 1], StripDtsExt(segs[|segs| - 1]))
  }

  /** `path.join(preserveModulesRoot, rel).replace(dtsExtRE, "")` is the joined
      path with the suffix removed from its last segment: the string that
      `DeclarationStem` normalizes. */
  lemma DeclarationStemString(preserveModulesRoot: DirSpec, tail: seq<Segment>)
    ensures var full := Append(preserveModulesRoot, tail);
      var segs := full.segs;
      && (segs == [] ==> StripDtsExt(Render(full)) == Render(full))
      && (segs != [] ==>
            StripDtsExt(Render(full))
            == (if full.Absolute? then "/" else "") + Join(segs[..|segs| - 1] + [StripDtsExt(segs[|segs| - 1])]))
  {
    var full := Append(preserveModulesRoot, tail);
    var segs := full.segs;
    if segs != [] {
      var init, last := segs[..|segs| - 1], segs[|segs| - 1];
      assert segs == init + [last];
      JoinAppend(init, last);
      JoinAppend(init, StripDtsExt(last));
      if init != [] {
        var p := Join(init) + "/";
        StripDtsExtAfterSlash(if full.Absolute? then "/" + p else p, last);
        assert Render(full) == (if full.Absolute? then "/" + p else p) + last;
      } else if full.Absolute? {
        StripDtsExtAfterSlash("/", last);
      }
    }
  }

  /** `shouldKeepDeclaration(filePath)` over the tracked state. */
  function KeepDeclaration(root: Option<AbsPath>, stems: set<string>, outBase: DirSpec,
                           preserveModulesRoot: DirSpec, file: AbsPath): (keep: bool)
    ensures root.None? || stems == {} ==> keep
  {
    if root.None? || |stems| == 0 then true
    else
      var outDir := ResolveOutDir(root.value, outBase);
      var rel := NormalizePath(RelativePath(outDir, file));
      if StartsWith(rel, "..") then true
      else
        RelativeDotDot(outDir, file);
        DeclarationStem(preserveModulesRoot, file[|outDir|..]) in stems
  }

  /** The file lies in the out dir in the sense of the `..` test: below it, and
      its first segment there does not itself start with "..". */
  predicate OwnedByOutDir(outDir: AbsPath, file: AbsPath) {
    outDir <= file && (|outDir| < |file| ==> !StartsWith(file[|outDir|], ".."))
  }

  /** The three rules of the filter, with the string test on the relative path
      replaced by the path relation it decides. */
  lemma KeepDeclarationSpec(root: AbsPath, stems: set<string>, outBase: DirSpec,
                            preserveModulesRoot: DirSpec, file: AbsPath)
    ensures var outDir := ResolveOutDir(root, outBase);
      KeepDeclaration(Some(root), stems, outBase, preserveModulesRoot, file) <==>
        || stems == {}
        || !OwnedByOutDir(outDir, file)
        || DeclarationStem(preserveModulesRoot, file[|outDir|..]) in stems
  {
    var outDir := ResolveOutDir(root, outBase);
    RelativeDotDot(outDir, file);
    assert StartsWith(NormalizePath(RelativePath(outDir, file)), "..")
      <==> StartsWith(RelativePath(outDir, file), "..");
  }

  /** A file outside the out dir is never pruned. */
  lemma OutsideOutDirKept(root: AbsPath, stems: set<string>, outBase: DirSpec,
                          preserveModulesRoot: DirSpec, file: AbsPath)
    requires !(ResolveOutDir(root, outBase) <= file)
    ensures KeepDeclaration(Some(root), stems, outBase, preserveModulesRoot, file)
  {
    KeepDeclarationSpec(root, stems, outBase, preserveModulesRoot, file);
  }

  /** Once some stem is recorded, a declaration in the out dir whose stem was
      never emitted (a module only inlined into other chunks) is pruned. */
  lemma UnemittedDeclarationDropped(root: AbsPath, stems: set<string>, outBase: DirSpec,
                                    preserveModulesRoot: DirSpec, dir: seq<Segment>, name: Segment)
    requires stems != {}
    requires dir != [] ==> !StartsWith(dir[0], "..")
    requires dir == [] ==> !StartsWith(name, "..")
    requires DeclarationStem(preserveModulesRoot, dir + [name]) !in stems
    ensures !KeepDeclaration(Some(root), stems, outBase, preserveModulesRoot,
                             ResolveOutDir(root, outBase) + dir + [name])
  {
    var outDir := ResolveOutDir(root, outBase);
    var file := outDir + dir + [name];
    assert file[|outDir|..] == dir + [name];
    assert outDir <= file;
    KeepDeclarationSpec(root, stems, outBase, preserveModulesRoot, file);
  }

  /** A stem from a non-empty path ending in a non-empty name. */
  lemma {:induction false} JoinNonEmpty(segs: seq<string>, last: string)
    requires last != ""
    ensures Join(segs + [last]) != ""
  {
    JoinAppend(segs, last);
  }

  /** The stem recorded for `<root>/<front>/<name>.<ext>` is `<front>/<name>`. */
  lemma {:induction false} RecordedStemOf(root: AbsPath, front: seq<Segment>, name: string, ext: string)
    requires name != "" && IsSegment(name + "." + ext)
    requires ext != [] && forall j :: 0 <= j < |ext| ==> IsNameChar(ext[j])
    ensures ModuleStem(Some(root), root + (front + [name + "." + ext])) == Join(front + [name])
  {
    var source: Segment := name + "." + ext;
    RelativeBelow(root, front + [source]);
    JoinNonEmpty(front, source);
    JoinAppend(front, source);
    JoinAppend(front, name);
    if front == [] {
      StripExtOf(name, ext);
    } else {
      assert Join(front + [source]) == (Join(front) + "/" + name) + "." + ext;
      StripExtOf(Join(front) + "/" + name, ext);
    }
  }

  /** The stem of the declaration `<outDir>/<dir>/<name>.d.ts` is
      `<preserveModulesRoot>/<dir>/<name>`. */
  lemma DeclarationStemOf(preserveModulesRoot: seq<Segment>, dir: seq<Segment>, name: Segment)
    ensures DeclarationStem(Relative(preserveModulesRoot), dir + [name + ".d.ts"])
         == Join(preserveModulesRoot + dir + [name])
  {
    var front := preserveModulesRoot + dir;
    var decl: Segment := name + ".d.ts";
    var segs := Append(Relative(preserveModulesRoot), dir + [decl]).segs;
    assert segs == front + [decl];
    assert segs[..|segs| - 1] == front;
    StripDtsExtOf(name, ".d.ts");
    NormalizeLastSegment(false, front, name);
  }

  /**
   * Round trip between tracking and pruning: when the module
   * `<root>/<preserveModulesRoot>/<dir>/<name>.<ext>` was emitted as a facade
   * chunk, the declaration `<outDir>/<dir>/<name>.d.ts` is kept.
   */
  lemma EmittedDeclarationKept(root: AbsPath, stems: set<string>, outBase: DirSpec,
                               preserveModulesRoot: seq<Segment>, dir: seq<Segment>,
                               name: string, ext: string)
    requires IsSegment(name) && IsSegment(name + "." + ext) && IsSegment(name + ".d.ts")
    requires ext != [] && forall j :: 0 <= j < |ext| ==> IsNameChar(ext[j])
    requires ModuleStem(Some(root), root + (preserveModulesRoot + dir + [name + "." + ext])) in stems
    ensures KeepDeclaration(Some(root), stems, outBase, Relative(preserveModulesRoot),
                            ResolveOutDir(root, outBase) + (dir + [name + ".d.ts"]))
  {
    RecordedStemOf(root, preserveModulesRoot + dir, name, ext);
    DeclarationStemOf(preserveModulesRoot, dir, name);
    var outDir := ResolveOutDir(root, outBase);
    var tail: seq<Segment> := dir + [name + ".d.ts"];
    assert (outDir + tail)[|outDir|..] == tail;
    KeepDeclarationSpec(root, stems, outBase, Relative(preserveModulesRoot), outDir + tail);
  }

  /** The `..` test also keeps a file named `..x` directly inside the out dir. */
  lemma DotDotNamedFileKept(root: AbsPath, stems: set<string>, outBase: DirSpec,
                            preserveModulesRoot: DirSpec, name: Segment)
    requires StartsWith(name, "..")
    ensures KeepDeclaration(Some(root), stems, outBase, preserveModulesRoot,
                            ResolveOutDir(root, outBase) + [name])
  {
    var outDir := ResolveOutDir(root, outBase);
    assert (outDir + [name])[|outDir|] == name;
    KeepDeclarationSpec(root, stems, outBase, preserveModulesRoot, outDir + [name]);
  }

  /** A module file named `...ts` records the stem `<front>/..`: its name
      before the extension is `..`. */
  lemma DotDotNameRecorded(root: AbsPath, front: seq<Segment>)
    ensures ModuleStem(Some(root), root + (front + ["...ts"])) == Join(front + [".."])
  {
    var ext := "ts";
    assert IsNameChar(ext[0]) && IsNameChar(ext[1]);
    assert ".." + "." + ext == "...ts";
    RecordedStemOf(root, front, "..", ext);
  }

  /** Its declaration `<a>/...d.ts` stands for the stem with the segment `a`
      before the `..` removed. */
  lemma DotDotNameDeclared(front: seq<Segment>, a: Segment)
    ensures DeclarationStem(Relative(front), [a, "...d.ts"]) == Render(Relative(front))
  {
    var segs := Append(Relative(front), [a, "...d.ts"]).segs;
    assert segs[..|segs| - 1] == front + [a];
    assert ".." + ".d.ts" == "...d.ts";
    StripDtsExtOf("..", ".d.ts");
    NormalizeLastCollapses(false, front, a);
  }

  /** The two stems differ: the recorded one is longer. */
  lemma DotDotStemsDiffer(front: seq<Segment>, a: Segment)
    ensures Join(front + [a] + [".."]) != Render(Relative(front))
  {
    JoinAppend(front + [a], "..");
    JoinAppend(front, a);
  }

  /** As written, the declaration `<outDir>/<a>/...d.ts` of the module
      `<root>/<front>/<a>/...ts` is pruned when that module's stem (see
      `DotDotNameRecorded`) is the one recorded. */
  lemma DotDotNameDropped(root: AbsPath, outBase: DirSpec, front: seq<Segment>, a: Segment)
    requires !StartsWith(a, "..")
    ensures !KeepDeclaration(Some(root), {Join(front + [a] + [".."])}, outBase, Relative(front),
                             ResolveOutDir(root, outBase) + [a] + ["...d.ts"])
  {
    DotDotNameDeclared(front, a);
    DotDotStemsDiffer(front, a);
    assert [a] + ["...d.ts"] == [a, "...d.ts"];
    UnemittedDeclarationDropped(root, {Join(front + [a] + [".."])}, outBase, Relative(front), [a], "...d.ts");
  }

  /** Once the root is known, a recorded stem never starts with `/`. */
  lemma RecordedStemNotRooted(root: AbsPath, id: AbsPath)
    ensures !StartsWith(ModuleStem(Some(root), id), "/")
  {
    var segs := RelativeSegs(root, id);
    var rel := RelativePath(root, id);
    if segs != [] {
      JoinHead(segs);
      var k := CommonPrefixLen(root, id);
      if |root| - k == 0 {
        assert segs[0] == id[k];
      }
      assert segs[0][0] != '/';
      assert rel[0] == segs[0][0];
    }
    var n := NormalizePath(rel);
    assert n[0] != '/';
    var m := TrailingNameLen(n);
    if 0 < m < |n| && n[|n| - m - 1] == '.' && |n| - m - 1 > 0 {
      assert StripExt(n)[0] == n[0];
    }
  }

  /** With an absolute `preserveModulesRoot`, every declaration stem is an
      absolute path. */
  lemma AbsoluteDeclarationStemRooted(segs: seq<Segment>, tail: seq<Segment>)
    ensures StartsWith(DeclarationStem(Absolute(segs), tail), "/")
  {
  }

  /** As written, an absolute `preserveModulesRoot` prunes every declaration in
      the out dir as soon as any stem is recorded, since recorded stems are
      relative to the root. */
  lemma AbsoluteRootPrunes(root: AbsPath, stems: set<string>, outBase: DirSpec,
                           preserveModulesRoot: seq<Segment>, file: AbsPath)
    requires stems != {}
    requires forall s :: s in stems ==> !StartsWith(s, "/")
    requires OwnedByOutDir(ResolveOutDir(root, outBase), file)
    ensures !KeepDeclaration(Some(root), stems, outBase, Absolute(preserveModulesRoot), file)
  {
    var outDir := ResolveOutDir(root, outBase);
    KeepDeclarationSpec(root, stems, outBase, Absolute(preserveModulesRoot), file);
    AbsoluteDeclarationStemRooted(preserveModulesRoot, file[|outDir|..]);
  }
}
