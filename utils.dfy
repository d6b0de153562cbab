/**
 * `utils.ts`: the bareness heuristic for module ids and pattern-list matching.
 */
module Utils {
  import opened Wrappers
  import opened Paths

  /** A user-supplied `external`/`internal` pattern. A regular expression is kept
      opaque: `test` stands for `RegExp.prototype.test`, which searches the id and
      is not assumed to be anchored. */
  datatype Pattern = Exact(text: string) | Regex(test: string -> bool)

  predicate IsAsciiLetter(c: char) {
    'a' <= c <= 'z' || 'A' <= c <= 'Z'
  }

  /** Number of ASCII letters at the start of `s`. */
  function LeadingLetters(s: string): (n: nat)
    ensures n <= |s|
    ensures forall i :: 0 <= i < n ==> IsAsciiLetter(s[i])
    ensures n < |s| ==> !IsAsciiLetter(s[n])
  {
    if |s| == 0 || !IsAsciiLetter(s[0]) then 0
    else 1 + LeadingLetters(s[1..])
  }

  /** `/^[a-zA-Z]+:/.test(id)`: the letter run at the start is followed by `:`. */
  predicate HasScheme(id: string) {
    var n := LeadingLetters(id);
    0 < n < |id| && id[n] == ':'
  }

  /** `path.isAbsolute` on POSIX. */
  predicate IsAbsolute(id: string) {
    |id| > 0 && id[0] == '/'
  }

  /** An id is bare (names a package) unless it is relative, absolute, carries a
      scheme, is a NUL-prefixed host id or a `virtual:` id. */
  predicate IsBare(id: string) {
    && !StartsWith(id, ".")
    && !IsAbsolute(id)
    && !HasScheme(id)
    && !StartsWith(id, "\0")
    && !StartsWith(id, "virtual:")
  }

  /** The regular expression's meaning: one or more ASCII letters, then `:`. */
  ghost predicate SchemePrefix(id: string, k: nat) {
    0 < k < |id| && id[k] == ':' && forall i :: 0 <= i < k ==> IsAsciiLetter(id[i])
  }

  lemma HasSchemeSpec(id: string)
    ensures HasScheme(id) <==> exists k: nat :: SchemePrefix(id, k)
  {
    var n := LeadingLetters(id);
    if HasScheme(id) {
      assert SchemePrefix(id, n);
    }
    if k: nat :| SchemePrefix(id, k) {
      if k < n {
        assert IsAsciiLetter(id[k]);
      }
    }
  }

  /** The `virtual:` test is subsumed by the scheme test. */
  lemma VirtualHasScheme(id: string)
    requires StartsWith(id, "virtual:")
    ensures HasScheme(id)
  {
    assert id[..8] == "virtual:";
    assert SchemePrefix(id, 7);
    HasSchemeSpec(id);
  }

  /** Bareness stated as the negation of the four ways an id can be local. */
  lemma IsBareSpec(id: string)
    ensures IsBare(id) <==>
      && !(|id| > 0 && id[0] == '.')
      && !(|id| > 0 && id[0] == '/')
      && !(exists k: nat :: SchemePrefix(id, k))
      && !(|id| > 0 && id[0] == '\0')
  {
    HasSchemeSpec(id);
    if StartsWith(id, "virtual:") {
      VirtualHasScheme(id);
    }
    assert StartsWith(id, ".") <==> |id| > 0 && id[0] == '.';
    assert StartsWith(id, "\0") <==> |id| > 0 && id[0] == '\0';
  }

  /** An id without a colon carries no scheme. */
  lemma NoColonNoScheme(id: string)
    requires ':' !in id
    ensures !HasScheme(id)
  {
  }

  lemma BareExamples()
    ensures IsBare("lodash") && IsBare("@scope/pkg")
  {
    NoColonNoScheme("lodash");
    assert !IsAsciiLetter("@scope/pkg"[0]);
  }

  lemma LocalExamples()
    ensures !IsBare("./x") && !IsBare("../y") && !IsBare("/abs/x")
    ensures !IsBare("node:fs") && !IsBare("virtual:x") && !IsBare("\0plugin-helper")
  {
    assert StartsWith("./x", ".") && StartsWith("../y", ".");
    assert SchemePrefix("node:fs", 4);
    HasSchemeSpec("node:fs");
    VirtualHasScheme("virtual:x");
    assert StartsWith("\0plugin-helper", "\0");
  }

  function PatternMatches(p: Pattern, id: string): bool {
    match p
    case Exact(text) => id == text
    case Regex(test) => test(id)
  }

  /** `pats.some(...)`, scanning left to right. */
  function AnyMatch(id: string, pats: seq<Pattern>): bool {
    if pats == [] then false
    else PatternMatches(pats[0], id) || AnyMatch(id, pats[1..])
  }

  lemma {:induction false} AnyMatchSpec(id: string, pats: seq<Pattern>)
    ensures AnyMatch(id, pats) <==> exists i :: 0 <= i < |pats| && PatternMatches(pats[i], id)
  {
    if pats != [] {
      AnyMatchSpec(id, pats[1..]);
      if AnyMatch(id, pats[1..]) {
        var i :| 0 <= i < |pats[1..]| && PatternMatches(pats[1..][i], id);
        assert PatternMatches(pats[i + 1], id);
      }
      if i :| 0 < i < |pats| && PatternMatches(pats[i], id) {
        assert PatternMatches(pats[1..][i - 1], id);
      }
    }
  }

  /** `matches(id, pats)`: false for an absent or empty list, else whether some
      pattern matches. */
  function Matches(id: string, pats: Option<seq<Pattern>>): (r: bool)
    ensures r <==> pats.Some? && exists i :: 0 <= i < |pats.value| && PatternMatches(pats.value[i], id)
  {
    if pats.None? || |pats.value| == 0 then false
    else
      AnyMatchSpec(id, pats.value);
      AnyMatch(id, pats.value)
  }

  /** A string pattern matches by equality only. */
  lemma ExactOnly(id: string, text: string)
    ensures Matches(id, Some([Exact(text)])) <==> id == text
  {
    if id == text {
      assert PatternMatches([Exact(text)][0], id);
    }
  }

  lemma ReactExample()
    ensures Matches("react", Some([Exact("react")]))
    ensures !Matches("react-dom", Some([Exact("react")]))
  {
    ExactOnly("react", "react");
    ExactOnly("react-dom", "react");
  }

  /** Concatenating two lists matches exactly when either list does; hence the
      result does not depend on the order of the lists and only grows when
      patterns are added. */
  lemma MatchesConcat(id: string, a: seq<Pattern>, b: seq<Pattern>)
    ensures Matches(id, Some(a + b)) <==> Matches(id, Some(a)) || Matches(id, Some(b))
  {
    var ab := a + b;
    if Matches(id, Some(ab)) {
      var i :| 0 <= i < |ab| && PatternMatches(ab[i], id);
      if i < |a| {
        assert PatternMatches(a[i], id);
      } else {
        assert PatternMatches(b[i - |a|], id);
      }
    }
    if Matches(id, Some(a)) {
      var i :| 0 <= i < |a| && PatternMatches(a[i], id);
      assert PatternMatches(ab[i], id);
    }
    if Matches(id, Some(b)) {
      var i :| 0 <= i < |b| && PatternMatches(b[i], id);
      assert PatternMatches(ab[|a| + i], id);
    }
  }

  /** Every pattern of `b` also occurs in `a`. */
  ghost predicate Covers(a: seq<Pattern>, b: seq<Pattern>) {
    forall i :: 0 <= i < |b| ==> exists j :: 0 <= j < |a| && a[j] == b[i]
  }

  /** If every pattern of `b` occurs in `a`, a match in `b` is a match in `a`. */
  lemma {:induction false} MatchesCovered(id: string, a: seq<Pattern>, b: seq<Pattern>)
    requires Covers(a, b)
    ensures Matches(id, Some(b)) ==> Matches(id, Some(a))
  {
    if Matches(id, Some(b)) {
      var i :| 0 <= i < |b| && PatternMatches(b[i], id);
      var j :| 0 <= j < |a| && a[j] == b[i];
      assert PatternMatches(a[j], id);
    }
  }

  /** Matching depends only on which patterns are listed: a reordering (or
      de-duplication) of the list gives the same answer. */
  lemma MatchesOnlyOnPatternSet(id: string, a: seq<Pattern>, b: seq<Pattern>)
    requires Covers(a, b) && Covers(b, a)
    ensures Matches(id, Some(a)) == Matches(id, Some(b))
  {
    MatchesCovered(id, a, b);
    MatchesCovered(id, b, a);
  }
}
