/**
 * The mutable state shared by the plugin's hooks: the project root captured by
 * `configResolved` and the grow-only set of emitted module stems filled by
 * `generateBundle`, read back by the declaration filter.
 */
module Tracker {
  import opened Wrappers
  import opened Paths
  import opened Declarations

  /** One entry of a Rollup output bundle; a chunk may be the facade of a source module. */
  datatype OutputEntry = Chunk(facadeModuleId: Option<AbsPath>) | Asset

  predicate IsFacade(e: OutputEntry) {
    e.Chunk? && e.facadeModuleId.Some?
  }

  /** The stems recorded for the facade chunks of a bundle, entry by entry,
      when `stem` maps a module id to its stem. */
  function StemsOf(stem: AbsPath -> string, bundle: seq<OutputEntry>): set<string> {
    if bundle == [] then {}
    else
      var last := bundle[|bundle| - 1];
      StemsOf(stem, bundle[..|bundle| - 1]) + (if IsFacade(last) then {stem(last.facadeModuleId.value)} else {})
  }

  /** The stems `generateBundle` records for a bundle. */
  function BundleStems(root: Option<AbsPath>, bundle: seq<OutputEntry>): set<string> {
    StemsOf(id => ModuleStem(root, id), bundle)
  }

  lemma {:induction false} StemsOfSpec(stem: AbsPath -> string, bundle: seq<OutputEntry>, s: string)
    ensures s in StemsOf(stem, bundle) <==>
      exists i :: 0 <= i < |bundle| && IsFacade(bundle[i]) && stem(bundle[i].facadeModuleId.value) == s
  {
    if bundle != [] {
      var init := bundle[..|bundle| - 1];
      StemsOfSpec(stem, init, s);
      if i :| 0 <= i < |init| && IsFacade(init[i]) && stem(init[i].facadeModuleId.value) == s {
        assert bundle[i] == init[i];
      }
      if i :| 0 <= i < |bundle| - 1 && IsFacade(bundle[i]) && stem(bundle[i].facadeModuleId.value) == s {
        assert init[i] == bundle[i];
      }
    }
  }

  /** A stem is recorded exactly when some facade chunk of the bundle yields it. */
  lemma BundleStemsSpec(root: Option<AbsPath>, bundle: seq<OutputEntry>, s: string)
    ensures s in BundleStems(root, bundle) <==>
      exists i :: 0 <= i < |bundle| && IsFacade(bundle[i]) && ModuleStem(root, bundle[i].facadeModuleId.value) == s
  {
    StemsOfSpec(id => ModuleStem(root, id), bundle, s);
  }

  /** An asset or a chunk that is not a module's facade, appended to a bundle,
      records nothing. */
  lemma NonFacadeAppended(root: Option<AbsPath>, bundle: seq<OutputEntry>, e: OutputEntry)
    requires !IsFacade(e)
    ensures BundleStems(root, bundle + [e]) == BundleStems(root, bundle)
  {
    assert (bundle + [e])[..|bundle|] == bundle;
  }

  lemma {:induction false} StemsOfPrepend(stem: AbsPath -> string, bundle: seq<OutputEntry>, e: OutputEntry)
    requires !IsFacade(e)
    ensures StemsOf(stem, [e] + bundle) == StemsOf(stem, bundle)
  {
    if bundle == [] {
      assert StemsOf(stem, [e]) == StemsOf(stem, []) + {};
    } else {
      var init := bundle[..|bundle| - 1];
      StemsOfPrepend(stem, init, e);
      assert ([e] + bundle)[..|bundle|] == [e] + init;
    }
  }

  /** The same for one placed in front of a bundle. */
  lemma NonFacadePrepended(root: Option<AbsPath>, bundle: seq<OutputEntry>, e: OutputEntry)
    requires !IsFacade(e)
    ensures BundleStems(root, [e] + bundle) == BundleStems(root, bundle)
  {
    StemsOfPrepend(id => ModuleStem(root, id), bundle, e);
  }

  /** The closure state of one `components()` call. */
  class ComponentLib {
    const outBase: DirSpec
    const preserveModulesRoot: DirSpec
    var emittedModuleStems: set<string>
    var resolvedRoot: Option<AbsPath>

    constructor (outBase: DirSpec, preserveModulesRoot: DirSpec)
      ensures this.outBase == outBase && this.preserveModulesRoot == preserveModulesRoot
      ensures emittedModuleStems == {} && resolvedRoot == None
    {
      this.outBase := outBase;
      this.preserveModulesRoot := preserveModulesRoot;
      emittedModuleStems := {};
      resolvedRoot := None;
    }

    /** `configResolved`: remember the project root. */
    method ConfigResolved(root: AbsPath)
      modifies this
      ensures resolvedRoot == Some(root)
      ensures emittedModuleStems == old(emittedModuleStems)
    {
      resolvedRoot := Some(root);
    }

    /** `recordModule(id)`: nothing for a missing id, else add its stem. */
    method RecordModule(id: Option<AbsPath>)
      modifies this
      ensures resolvedRoot == old(resolvedRoot)
      ensures emittedModuleStems ==
        old(emittedModuleStems) + (if id.Some? then {ModuleStem(resolvedRoot, id.value)} else {})
    {
      if id.None? {
        return;
      }
      emittedModuleStems := emittedModuleStems + {ModuleStem(resolvedRoot, id.value)};
    }

    /** `generateBundle`: record every facade chunk of the bundle. */
    method GenerateBundle(bundle: seq<OutputEntry>)
      modifies this
      ensures resolvedRoot == old(resolvedRoot)
      ensures emittedModuleStems == old(emittedModuleStems) + BundleStems(resolvedRoot, bundle)
    {
      for i := 0 to |bundle|
        invariant resolvedRoot == old(resolvedRoot)
        invariant emittedModuleStems == old(emittedModuleStems) + BundleStems(resolvedRoot, bundle[..i])
      {
        var entry := bundle[i];
        if entry.Chunk? && entry.facadeModuleId.Some? {
          RecordModule(entry.facadeModuleId);
        }
        assert bundle[..i + 1][..i] == bundle[..i];
      }
      assert bundle[..|bundle|] == bundle;
    }

    /** The `beforeWriteFile` hook installed into the declaration plugin:
        `false` drops the file, no answer lets it be written. */
    method BeforeWriteFile(file: AbsPath) returns (r: Option<bool>)
      ensures r == None || r == Some(false)
      ensures r == None <==> KeepDeclaration(resolvedRoot, emittedModuleStems, outBase, preserveModulesRoot, file)
      ensures resolvedRoot.None? || emittedModuleStems == {} ==> r == None
    {
      if !KeepDeclaration(resolvedRoot, emittedModuleStems, outBase, preserveModulesRoot, file) {
        return Some(false);
      }
      return None;
    }
  }

  /** Before any facade has been recorded every declaration is written; after a
      bundle with facades, pruning depends on the recorded stems. */
  method TrackingScenario(root: AbsPath, bundle: seq<OutputEntry>, file: AbsPath)
    returns (before: Option<bool>, after: Option<bool>)
    ensures before == None
    ensures (forall i :: 0 <= i < |bundle| ==> !IsFacade(bundle[i])) ==> after == None
  {
    var lib := new ComponentLib(Relative(["dist"]), Relative(["src"]));
    lib.ConfigResolved(root);
    before := lib.BeforeWriteFile(file);
    lib.GenerateBundle(bundle);
    if forall i :: 0 <= i < |bundle| ==> !IsFacade(bundle[i]) {
      forall stem: string ensures stem !in BundleStems(Some(root), bundle) {
        BundleStemsSpec(Some(root), bundle, stem);
      }
    }
    after := lib.BeforeWriteFile(file);
  }
}
