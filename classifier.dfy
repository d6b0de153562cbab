/**
 * The `external` rule that every build environment hands to Rollup: should an
 * import stay external (left to the consumer's dependency lookup) or be bundled?
 */
module Classifier {
  import opened Wrappers
  import opened Utils

  /** The user's `internal` and `external` override lists, absent when not given. */
  datatype Overrides = Overrides(internal: Option<seq<Pattern>>, external: Option<seq<Pattern>>)

  /** An `internal` match forces bundling, then an `external` match forces
      externalisation, and otherwise a bare id is external. */
  function IsExternal(o: Overrides, id: string): bool {
    if Matches(id, o.internal) then false
    else if Matches(id, o.external) then true
    else IsBare(id)
  }

  /** Some listed pattern matches `id`. */
  ghost predicate Listed(pats: Option<seq<Pattern>>, id: string) {
    pats.Some? && exists i :: 0 <= i < |pats.value| && PatternMatches(pats.value[i], id)
  }

  /** An internal match wins over everything else. */
  lemma InternalWins(o: Overrides, id: string)
    requires Matches(id, o.internal)
    ensures !IsExternal(o, id)
  {
  }

  /** Without an internal match, an external match forces externalisation and
      otherwise bareness decides. */
  lemma ExternalThenBare(o: Overrides, id: string)
    requires !Matches(id, o.internal)
    ensures Matches(id, o.external) ==> IsExternal(o, id)
    ensures !Matches(id, o.external) ==> (IsExternal(o, id) <==> IsBare(id))
  {
  }

  /** The precedence as one formula: external exactly when no internal pattern
      matches and either an external pattern matches or the id is bare. */
  lemma IsExternalSpec(o: Overrides, id: string)
    ensures IsExternal(o, id) <==>
      !Listed(o.internal, id) && (Listed(o.external, id) || IsBare(id))
  {
  }

  /** Adding internal patterns can only move ids from external to bundled;
      adding external patterns can only move ids the other way. */
  lemma {:induction false} OverridesMonotone(internal: seq<Pattern>, external: seq<Pattern>, more: seq<Pattern>, id: string)
    ensures IsExternal(Overrides(Some(internal + more), Some(external)), id)
        ==> IsExternal(Overrides(Some(internal), Some(external)), id)
    ensures IsExternal(Overrides(Some(internal), Some(external)), id)
        ==> IsExternal(Overrides(Some(internal), Some(external + more)), id)
  {
    MatchesConcat(id, internal, more);
    MatchesConcat(id, external, more);
  }

  /** With no overrides the rule is exactly the bareness heuristic. */
  lemma NoOverrides(id: string)
    ensures IsExternal(Overrides(None, None), id) == IsBare(id)
    ensures IsExternal(Overrides(Some([]), Some([])), id) == IsBare(id)
  {
  }

  lemma ClassifierExamples()
    ensures !IsExternal(Overrides(Some([Exact("react")]), Some([Exact("react")])), "react")
    ensures IsExternal(Overrides(None, Some([Exact("./shim")])), "./shim")
    ensures IsExternal(Overrides(Some([Exact("react")]), None), "react-dom")
    ensures !IsExternal(Overrides(None, None), "./Button")
  {
    ExactOnly("react", "react");
    ExactOnly("./shim", "./shim");
    ExactOnly("react-dom", "react");
    ExactOnly("./Button", "react");
    assert LeadingLetters("react-dom") == 5 by {
      assert LeadingLetters("-dom") == 0;
    }
    assert IsBare("react-dom");
    assert !IsBare("./Button");
  }
}
