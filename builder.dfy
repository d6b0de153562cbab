/**
 * `buildApp`: build the environments of the enabled formats one after the
 * other, skipping names the builder has no environment for, and stop at the
 * first failing build. A successful build runs the environment's
 * `generateBundle` hook, which feeds the shared module tracker.
 */
module Builder {
  import opened Wrappers
  import opened Paths
  import opened Tracker
  import opened Environments

  /** What the host's `builder.build(env)` does for an environment: emit a
      bundle, or reject with an error. */
  datatype BuildResult = Built(bundle: seq<OutputEntry>) | Failed(error: string)

  /** How `buildApp` settles: it resolves, or rejects with the host's error. */
  datatype Outcome = Done | Rejected(error: string)

  /** The env names that are built when no build fails: those in `order` that
      the builder has an environment for, in order. */
  function Plan(order: seq<string>, available: set<string>): seq<string> {
    if order == [] then []
    else (if order[0] in available then [order[0]] else []) + Plan(order[1..], available)
  }

  lemma {:induction false} PlanConcat(a: seq<string>, b: seq<string>, available: set<string>)
    ensures Plan(a + b, available) == Plan(a, available) + Plan(b, available)
  {
    if a != [] {
      assert (a + b)[1..] == a[1..] + b;
      PlanConcat(a[1..], b, available);
    } else {
      assert a + b == b;
    }
  }

  /** The plan holds exactly the available names of the order, keeps their
      order and never holds an unlisted or missing name. */
  lemma {:induction false} PlanSpec(order: seq<string>, available: set<string>)
    ensures forall n :: n in Plan(order, available) <==> n in order && n in available
    ensures |Plan(order, available)| <= |order|
  {
    if order != [] {
      PlanSpec(order[1..], available);
      assert order == [order[0]] + order[1..];
    }
  }

  /** The env names on which `build` is called: the plan up to and including
      the first failure. */
  function Attempted(plan: seq<string>, host: string -> BuildResult): seq<string> {
    if plan == [] then []
    else if host(plan[0]).Failed? then [plan[0]]
    else [plan[0]] + Attempted(plan[1..], host)
  }

  predicate AllBuilt(names: seq<string>, host: string -> BuildResult) {
    forall i :: 0 <= i < |names| ==> host(names[i]).Built?
  }

  /** Every build before the last attempted one succeeded; either all of the
      plan was attempted, or the last attempt failed and nothing after it was
      attempted. */
  lemma {:induction false} AttemptedSpec(plan: seq<string>, host: string -> BuildResult)
    ensures var a := Attempted(plan, host);
      && a <= plan
      && (a != [] ==> AllBuilt(a[..|a| - 1], host))
      && ((a == plan && AllBuilt(a, host)) || (a != [] && host(a[|a| - 1]).Failed?))
  {
    var a := Attempted(plan, host);
    if plan != [] && host(plan[0]).Built? {
      var rest := Attempted(plan[1..], host);
      AttemptedSpec(plan[1..], host);
      assert a == [plan[0]] + rest;
      assert plan == [plan[0]] + plan[1..];
      if rest != [] {
        assert a[..|a| - 1] == [plan[0]] + rest[..|rest| - 1];
      }
    }
  }

  lemma {:induction false} AttemptedAllBuilt(plan: seq<string>, host: string -> BuildResult)
    requires AllBuilt(plan, host)
    ensures Attempted(plan, host) == plan
  {
    if plan != [] {
      AttemptedAllBuilt(plan[1..], host);
    }
  }

  lemma {:induction false} AttemptedStopsAtFailure(done: seq<string>, failed: string, rest: seq<string>,
                                                   host: string -> BuildResult)
    requires AllBuilt(done, host) && host(failed).Failed?
    ensures Attempted(done + [failed] + rest, host) == done + [failed]
  {
    if done != [] {
      assert (done + [failed] + rest)[1..] == done[1..] + [failed] + rest;
      AttemptedStopsAtFailure(done[1..], failed, rest, host);
    } else {
      assert done + [failed] + rest == [failed] + rest;
    }
  }

  /** Every name of the order has an environment: nothing is skipped. */
  lemma {:induction false} PlanAll(order: seq<string>, available: set<string>)
    requires forall i :: 0 <= i < |order| ==> order[i] in available
    ensures Plan(order, available) == order
  {
    if order != [] {
      PlanAll(order[1..], available);
      assert order == [order[0]] + order[1..];
    }
  }

  /** On the environments the plugin itself creates, `buildApp` skips no
      format: every listed format's environment is planned, in order. */
  lemma EveryListedFormatIsBuilt(s: Settings, envs: map<string, EnvDescriptor>)
    requires EnvironmentsFor(s, envs)
    ensures Plan(BuildOrder(s), envs.Keys) == BuildOrder(s)
  {
    var order := BuildOrder(s);
    forall i | 0 <= i < |order| ensures order[i] in envs.Keys {
      assert s.formats[i] in s.formats;
    }
    PlanAll(order, envs.Keys);
  }

  /** With both formats enabled and every build succeeding, both environments
      are built, `esm` first. */
  lemma BothFormatsBuilt(s: Settings, envs: map<string, EnvDescriptor>, host: string -> BuildResult)
    requires s.formats == [Esm, Cjs] && EnvironmentsFor(s, envs)
    requires host(s.esmName).Built? && host(s.cjsName).Built?
    ensures Attempted(Plan(BuildOrder(s), envs.Keys), host) == [s.esmName, s.cjsName]
  {
    EveryListedFormatIsBuilt(s, envs);
    var order := BuildOrder(s);
    assert order == [s.esmName, s.cjsName];
    AttemptedAllBuilt(order, host);
  }

  /** With both formats enabled and the first build failing, the second
      environment is never built. */
  lemma FirstFailureStopsSecond(s: Settings, envs: map<string, EnvDescriptor>, host: string -> BuildResult)
    requires s.formats == [Esm, Cjs] && EnvironmentsFor(s, envs)
    requires host(s.esmName).Failed?
    ensures Attempted(Plan(BuildOrder(s), envs.Keys), host) == [s.esmName]
  {
    EveryListedFormatIsBuilt(s, envs);
    var order := BuildOrder(s);
    assert order == [s.esmName, s.cjsName];
    assert order[1..] == [s.cjsName];
  }

  /** Stems that the successful builds among `names` add to the tracker. */
  function BuiltStems(root: Option<AbsPath>, names: seq<string>, host: string -> BuildResult): set<string> {
    if names == [] then {}
    else
      var last := names[|names| - 1];
      BuiltStems(root, names[..|names| - 1], host)
        + (match host(last) case Built(bundle) => BundleStems(root, bundle) case Failed(_) => {})
  }

  lemma PlanStep(order: seq<string>, i: nat, available: set<string>)
    requires i < |order|
    ensures Plan(order[..i + 1], available)
         == Plan(order[..i], available) + (if order[i] in available then [order[i]] else [])
  {
    PlanConcat(order[..i], [order[i]], available);
    assert order[..i + 1] == order[..i] + [order[i]];
    assert [order[i]][1..] == [];
  }

  lemma PlanFailure(order: seq<string>, i: nat, available: set<string>, host: string -> BuildResult)
    requires i < |order| && order[i] in available && host(order[i]).Failed?
    requires AllBuilt(Plan(order[..i], available), host)
    ensures Attempted(Plan(order, available), host) == Plan(order[..i], available) + [order[i]]
  {
    var done := Plan(order[..i], available);
    assert order == order[..i + 1] + order[i + 1..];
    PlanConcat(order[..i + 1], order[i + 1..], available);
    PlanStep(order, i, available);
    AttemptedStopsAtFailure(done, order[i], Plan(order[i + 1..], available), host);
  }

  /** `builder.buildApp`: for each name of `order` that names an environment of
      the builder, await its build; a rejected build rejects `buildApp`. */
  method BuildApp(lib: ComponentLib, order: seq<string>, available: set<string>, host: string -> BuildResult)
    returns (attempted: seq<string>, outcome: Outcome)
    modifies lib
    ensures attempted == Attempted(Plan(order, available), host)
    ensures outcome.Done? <==> AllBuilt(attempted, host)
    ensures outcome.Rejected? ==> attempted != [] && host(attempted[|attempted| - 1]) == Failed(outcome.error)
    ensures lib.resolvedRoot == old(lib.resolvedRoot)
    ensures lib.emittedModuleStems == old(lib.emittedModuleStems) + BuiltStems(lib.resolvedRoot, attempted, host)
  {
    attempted := [];
    outcome := Done;
    for i := 0 to |order|
      invariant attempted == Plan(order[..i], available)
      invariant AllBuilt(attempted, host)
      invariant lib.resolvedRoot == old(lib.resolvedRoot)
      invariant lib.emittedModuleStems == old(lib.emittedModuleStems) + BuiltStems(lib.resolvedRoot, attempted, host)
    {
      var name := order[i];
      PlanStep(order, i, available);
      if name in available {
        var prev := attempted;
        attempted := attempted + [name];
        assert attempted[..|attempted| - 1] == prev;
        match host(name)
        case Failed(error) =>
          outcome := Rejected(error);
          PlanFailure(order, i, available, host);
          assert !host(attempted[|attempted| - 1]).Built?;
          return;
        case Built(bundle) =>
          lib.GenerateBundle(bundle);
      }
    }
    assert order[..|order|] == order;
    AttemptedAllBuilt(attempted, host);
  }
}
