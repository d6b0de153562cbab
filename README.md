# vite-plugin-component-lib, modelled in Dafny

`components(options)` is a Vite plugin. It builds a component library
unbundled, in two formats (ESM and CommonJS), in one `vite build`. Each
source module is emitted as its own file under `<outDir>/esm` and
`<outDir>/cjs`. Imports are classified as external (left to the consumer)
or bundled. Type declarations come from a declaration plugin. Declarations
of modules that never became their own output file are pruned. That
pruning uses a set of module "stems" that the build records as it emits
chunks.

The model covers `packages/vite-plugin-component-lib/src/utils.ts` and the
logic of `packages/vite-plugin-component-lib/src/index.ts`:

- `paths.dfy` (`Paths`): the POSIX subset of Node's `path` that the plugin
  uses.
  - Normalized absolute paths are sequences of segments.
  - `path.relative` is a common prefix, then one `..` per remaining segment.
  - Vite's `normalizePath`.
- `utils.dfy` (`Utils`): `isBare` and `matches`.
  - A regular expression is an opaque `test` predicate.
- `classifier.dfy` (`Classifier`): the `external` rule that every
  environment hands to Rollup.
- `declarations.dfy` (`Declarations`):
  - `stripExt`;
  - the recorded stem of a module;
  - `resolveOutDir`;
  - `shouldKeepDeclaration`.
- `tracker.dfy` (`Tracker`): the plugin's mutable closure state as the
  class `ComponentLib`. Its fields are the stem set and the resolved root.
  Its methods are the hooks:
  - `configResolved`;
  - `recordModule`;
  - `generateBundle`;
  - `beforeWriteFile`.
- `environments.dfy` (`Environments`):
  - option defaults;
  - the per-format environment descriptors;
  - `baseConfig` with or without a builder;
  - the options passed to the declaration plugin;
  - the returned plugin list.
- `builder.dfy` (`Builder`): `buildApp`. It builds the environments in
  format order, skips names with no environment, stops at the first failure
  and feeds the shared tracker.
- `logs.dfy` (`Logs`): the logger wrapper. It drops declaration-tool
  messages on `info` and `warn`.

Points where the code decides something a reader might expect otherwise:

- There is one stem set per `components()` call
  (`packages/vite-plugin-component-lib/src/index.ts:47`). Both environments
  add to it and it is never cleared, so a stem recorded by the `esm` build
  still counts while the `cjs` declarations are filtered.
- A regular expression in `external`/`internal` is applied with `test`
  (`packages/vite-plugin-component-lib/src/utils.ts:15`). This searches the
  id, so the pattern need not match the whole id.
- The default entry is `"src/index.ts"` and the default environment names are
  `"esm"` and `"cjs"` (`packages/vite-plugin-component-lib/src/index.ts:33-36`).

Behaviour of the code kept as written:

- The `..` test on the path relative to the out dir also keeps a file whose
  name itself starts with `..` and that lies directly in the out dir
  (`DotDotNamedFileKept`).
- `normalizePath` runs after the declaration suffix is stripped. A
  declaration named `...d.ts` therefore stands for the stem of its parent's
  parent directory, while its module `...ts` records a stem ending in `/..`.
  Such a declaration is pruned even though its module was emitted
  (`DotDotNameDropped`).
- The declaration stem joins `preserveModulesRoot` and the path below the out
  dir, while recorded stems are relative to the project root. With an
  absolute `preserveModulesRoot` no declaration stem can equal a recorded
  one, so every declaration in the out dir is pruned as soon as one stem is
  recorded (`AbsoluteRootPrunes`).
- When both formats are given the same environment name, the `cjs`
  descriptor replaces the `esm` one. `buildApp` then builds that
  environment once per format.
- The user's `dts` object disables the built-in declaration filter as soon
  as it has its own `beforeWriteFile` key, whatever the key's value.
- The `virtual:` test in `isBare` is subsumed by the scheme test
  (`VirtualHasScheme`).

## Model

| member | source | states |
|---|---|---|
| Utils.LeadingLetters | packages/vite-plugin-component-lib/src/utils.ts:7 | the count is the length of the run of ASCII letters at the start of the id: every character before it is a letter and the one at it is not |
| Utils.HasSchemeSpec | packages/vite-plugin-component-lib/src/utils.ts:7 | the scheme test holds exactly when the id starts with one or more ASCII letters followed by `:` |
| Utils.VirtualHasScheme | packages/vite-plugin-component-lib/src/utils.ts:7-9 | every `virtual:` id already fails the scheme test, so the separate `virtual:` check never decides |
| Utils.NoColonNoScheme | packages/vite-plugin-component-lib/src/utils.ts:7 | an id without a `:` never has a scheme |
| Utils.IsBare | packages/vite-plugin-component-lib/src/utils.ts:3-11 | `isBare`: the five conditions in source order; characterised by `IsBareSpec` |
| Utils.IsBareSpec | packages/vite-plugin-component-lib/src/utils.ts:3-11 | an id is bare exactly when it does not start with `.`, `/` or NUL and has no letters-then-colon scheme |
| Utils.BareExamples | packages/vite-plugin-component-lib/src/utils.ts:3-11 | package names such as `lodash` and `@scope/pkg` are bare |
| Utils.LocalExamples | packages/vite-plugin-component-lib/src/utils.ts:3-11 | relative, absolute, `node:`, `virtual:` and NUL-prefixed ids are not bare |
| Utils.AnyMatch | packages/vite-plugin-component-lib/src/utils.ts:15 | `pats.some(...)` as a left-to-right scan; characterised by `AnyMatchSpec` |
| Utils.AnyMatchSpec | packages/vite-plugin-component-lib/src/utils.ts:15 | the left-to-right scan finds a match exactly when some pattern of the list matches |
| Utils.Matches | packages/vite-plugin-component-lib/src/utils.ts:13-16 | an absent or empty list never matches; otherwise the id matches exactly when some listed pattern matches it |
| Utils.ExactOnly | packages/vite-plugin-component-lib/src/utils.ts:15 | a string pattern matches by equality only, never by prefix |
| Utils.ReactExample | packages/vite-plugin-component-lib/src/utils.ts:15 | the pattern `"react"` matches `react` but not `react-dom` |
| Utils.MatchesConcat | packages/vite-plugin-component-lib/src/utils.ts:13-16 | a concatenated list matches exactly when one of the two parts does |
| Utils.MatchesCovered | packages/vite-plugin-component-lib/src/utils.ts:15 | if every pattern of one list also occurs in another, a match of the first implies a match of the second |
| Utils.MatchesOnlyOnPatternSet | packages/vite-plugin-component-lib/src/utils.ts:15 | matching depends only on which patterns are listed, not on their order or repetition |
| Classifier.IsExternal | packages/vite-plugin-component-lib/src/index.ts:120-126 | the `external` callback: internal match, then external match, then bareness; characterised by `IsExternalSpec` |
| Classifier.InternalWins | packages/vite-plugin-component-lib/src/index.ts:123 | an id that matches `internal` is always bundled, whatever `external` says |
| Classifier.ExternalThenBare | packages/vite-plugin-component-lib/src/index.ts:124-125 | without an internal match, an external match externalises the id, and otherwise bareness decides |
| Classifier.IsExternalSpec | packages/vite-plugin-component-lib/src/index.ts:120-126 | the whole precedence in one formula: external exactly when no internal pattern matches and either an external pattern matches or the id is bare |
| Classifier.OverridesMonotone | packages/vite-plugin-component-lib/src/index.ts:122-125 | adding internal patterns only ever bundles more ids; adding external patterns only ever externalises more |
| Classifier.NoOverrides | packages/vite-plugin-component-lib/src/index.ts:122-126 | with no override lists, absent or empty, the rule is exactly the bareness heuristic |
| Classifier.ClassifierExamples | packages/vite-plugin-component-lib/src/index.ts:122-126 | `internal` beats `external` for `react`; `external` can force even a relative id; `react-dom` is external by bareness; `./Button` is bundled |
| Paths.CommonPrefixLen | packages/vite-plugin-component-lib/src/index.ts:53 | the count is the length of the longest common prefix of two paths |
| Paths.RelativeBelow | packages/vite-plugin-component-lib/src/index.ts:53 | the relative path from a directory to a path below it is the rest of that path joined with `/` |
| Paths.RelativeDotDot | packages/vite-plugin-component-lib/src/index.ts:64-65 | the relative path starts with `..` exactly when the file is not below the directory, or its first segment below it itself starts with `..` |
| Paths.NormalizeLastSegment | packages/vite-plugin-component-lib/src/index.ts:66 | normalizing a path whose last segment is a normal segment changes nothing |
| Paths.NormalizeLastCollapses | packages/vite-plugin-component-lib/src/index.ts:66 | after the strip, a last segment `.` is dropped, a last `..` removes the segment before it, and an empty one leaves a trailing `/` |
| Declarations.TrailingNameLen | packages/vite-plugin-component-lib/src/index.ts:49 | the count is the length of the longest suffix that contains neither `.` nor `/` |
| Declarations.StripExt | packages/vite-plugin-component-lib/src/index.ts:49 | `stripExt`; characterised by `StripExtSpec` against the meaning of its regular expression |
| Declarations.StripExtSpec | packages/vite-plugin-component-lib/src/index.ts:49 | `stripExt` drops exactly a trailing `.ext` whose `ext` is non-empty and has no `.` or `/`, and changes nothing otherwise |
| Declarations.StripExtOf | packages/vite-plugin-component-lib/src/index.ts:49 | stripping `stem.ext` gives back `stem` when `ext` is non-empty and has no `.` or `/` |
| Declarations.StripExtExamples | packages/vite-plugin-component-lib/src/index.ts:49 | `src/Button.tsx` becomes `src/Button`; a dot in a directory name is kept; only the last extension of `x.d.ts` goes; `.hidden` becomes empty |
| Declarations.StripDtsExt | packages/vite-plugin-component-lib/src/index.ts:56 | the result is a prefix of the name, and a name that ends in none of `.d.ts`, `.d.mts` and `.d.cts` comes back unchanged |
| Declarations.StripDtsExtOf | packages/vite-plugin-component-lib/src/index.ts:56 | each of `.d.ts`, `.d.mts` and `.d.cts` is removed in full, giving back the stem |
| Declarations.ModuleStem | packages/vite-plugin-component-lib/src/index.ts:50-55 | the stem `recordModule` adds: the id relative to the root (or absolute before the root is known), normalized, extension stripped; see `RecordedStemOf` and `RecordedStemNotRooted` |
| Declarations.ResolveOutDir | packages/vite-plugin-component-lib/src/index.ts:57-60 | `resolveOutDir`: an absolute `outDir` as it is, a relative one below the root |
| Declarations.EndsWithAfterSlash | packages/vite-plugin-component-lib/src/index.ts:56 | a suffix without `/` ends a path after a `/` exactly when it ends the part after that `/` |
| Declarations.DeclarationStem | packages/vite-plugin-component-lib/src/index.ts:66 | the stem of a declaration: `preserveModulesRoot` joined with its path below the out dir, the declaration suffix stripped from the last segment, normalized again; see `DeclarationStemString` |
| Declarations.DeclarationStemString | packages/vite-plugin-component-lib/src/index.ts:66 | stripping the suffix from the whole joined path only shortens its last segment, so the string normalized at line 66 is exactly the path `DeclarationStem` normalizes |
| Declarations.KeepDeclaration | packages/vite-plugin-component-lib/src/index.ts:61-68 | before the root is known, or while no stem is recorded, every declaration is kept |
| Declarations.KeepDeclarationSpec | packages/vite-plugin-component-lib/src/index.ts:61-68 | once the root is known, a declaration is kept exactly when no stem is recorded, or it lies outside the out dir, or its re-rooted stem was recorded |
| Declarations.OutsideOutDirKept | packages/vite-plugin-component-lib/src/index.ts:63-65 | a file outside the out dir is never pruned |
| Declarations.UnemittedDeclarationDropped | packages/vite-plugin-component-lib/src/index.ts:66-67 | once some stem is recorded, a declaration inside the out dir whose stem was never emitted is pruned |
| Declarations.RecordedStemOf | packages/vite-plugin-component-lib/src/index.ts:50-55 | the stem recorded for `<root>/<dirs>/<name>.<ext>` is `<dirs>/<name>` |
| Declarations.DeclarationStemOf | packages/vite-plugin-component-lib/src/index.ts:64-66 | the stem of `<outDir>/<dirs>/<name>.d.ts` is `<preserveModulesRoot>/<dirs>/<name>` when `preserveModulesRoot` is relative and `name` is a normal segment |
| Declarations.EmittedDeclarationKept | packages/vite-plugin-component-lib/src/index.ts:50-67 | round trip for a relative `preserveModulesRoot`: once a module under it has been recorded, its declaration at the mirrored place in the out dir is kept |
| Declarations.DotDotNamedFileKept | packages/vite-plugin-component-lib/src/index.ts:65 | a file whose name starts with `..` directly inside the out dir is kept, even though it lies inside |
| Declarations.DotDotNameRecorded | packages/vite-plugin-component-lib/src/index.ts:49-54 | the module file `...ts` records a stem whose last segment is `..` |
| Declarations.DotDotNameDeclared | packages/vite-plugin-component-lib/src/index.ts:66 | its declaration `<a>/...d.ts` stands for the stem with `<a>/..` collapsed away |
| Declarations.DotDotStemsDiffer | packages/vite-plugin-component-lib/src/index.ts:66-67 | those two stems differ |
| Declarations.DotDotNameDropped | packages/vite-plugin-component-lib/src/index.ts:61-67 | so the declaration of an emitted module `...ts` is pruned when that module's stem is the one recorded |
| Declarations.RecordedStemNotRooted | packages/vite-plugin-component-lib/src/index.ts:50-55 | once the root is known, no recorded stem starts with `/` |
| Declarations.AbsoluteDeclarationStemRooted | packages/vite-plugin-component-lib/src/index.ts:66 | with an absolute `preserveModulesRoot` every declaration stem starts with `/` |
| Declarations.AbsoluteRootPrunes | packages/vite-plugin-component-lib/src/index.ts:61-67 | with an absolute `preserveModulesRoot`, every declaration in the out dir is pruned as soon as any root-relative stem is recorded |
| Tracker.StemsOfSpec | packages/vite-plugin-component-lib/src/index.ts:72-76 | a stem is collected exactly when some facade chunk of the bundle maps to it |
| Tracker.BundleStemsSpec | packages/vite-plugin-component-lib/src/index.ts:72-76 | `generateBundle` records a stem exactly when some chunk of the bundle has a facade module whose stem it is |
| Tracker.NonFacadeAppended | packages/vite-plugin-component-lib/src/index.ts:73 | an asset or a chunk without a facade module, appended to a bundle, adds no stem |
| Tracker.StemsOfPrepend | packages/vite-plugin-component-lib/src/index.ts:72-73 | an entry without a facade module in front of a bundle adds nothing, whatever the stem function |
| Tracker.NonFacadePrepended | packages/vite-plugin-component-lib/src/index.ts:73 | an asset or a chunk without a facade module in front of a bundle adds no stem |
| Tracker.ComponentLib.constructor | packages/vite-plugin-component-lib/src/index.ts:47-48 | a fresh plugin instance has no recorded stems and no root |
| Tracker.ComponentLib.ConfigResolved | packages/vite-plugin-component-lib/src/index.ts:202-204 | the hook stores the root and leaves the stems unchanged |
| Tracker.ComponentLib.RecordModule | packages/vite-plugin-component-lib/src/index.ts:50-55 | a missing id changes nothing; otherwise exactly its stem is added and nothing is removed |
| Tracker.ComponentLib.GenerateBundle | packages/vite-plugin-component-lib/src/index.ts:71-77 | after the hook, the stems are the old stems plus the stems of the bundle's facade chunks; the set only grows |
| Tracker.ComponentLib.BeforeWriteFile | packages/vite-plugin-component-lib/src/index.ts:113-115 | the hook answers only "drop" or nothing; it drops exactly the declarations the filter rejects, and never drops before a root and a stem exist |
| Tracker.TrackingScenario | packages/vite-plugin-component-lib/src/index.ts:61-77 | right after `configResolved` no declaration is dropped; a bundle without facade chunks keeps it that way |
| Environments.Resolve | packages/vite-plugin-component-lib/src/index.ts:33-41 | the `??` defaults and the `envNames` spread; characterised by `Defaults` and `ExplicitWins` |
| Environments.Defaults | packages/vite-plugin-component-lib/src/index.ts:33-41 | with no options: entry `src/index.ts`, out dir `dist`, preserve-modules root `src`, names `esm`/`cjs`, both formats, suffixes `.js`/`.cjs`, no overrides |
| Environments.ExplicitWins | packages/vite-plugin-component-lib/src/index.ts:33-41 | every option given explicitly survives resolution unchanged, including the `internal`/`external` lists |
| Environments.Descriptor | packages/vite-plugin-component-lib/src/index.ts:130-181 | the environment object for one format; characterised by `DescriptorLayout` |
| Environments.DescriptorLayout | packages/vite-plugin-component-lib/src/index.ts:130-181 | each environment writes `<outBase>/<format>/<name><suffix>`, preserves modules under the configured root, uses the format's suffix for entries and chunks, and classifies imports with the shared rule |
| Environments.DefaultLayoutExample | packages/vite-plugin-component-lib/src/index.ts:130-181 | with default options, module `Button` lands in `dist/esm/Button.js` and `dist/cjs/Button.cjs` |
| Environments.BuildEnvironments | packages/vite-plugin-component-lib/src/index.ts:128-181 | exactly the enabled formats' names are keys; on a shared name the `cjs` descriptor is kept; with distinct names each name is present exactly when its format is enabled |
| Environments.BuildOrder | packages/vite-plugin-component-lib/src/index.ts:189 | the visit order has one env name per listed format, in the same order, duplicates included |
| Environments.MakeBaseConfig | packages/vite-plugin-component-lib/src/index.ts:183-195 | the config holds the environments of the resolved options and a builder exactly when `disableBuilder` is off; that builder visits the formats' names in order |
| Environments.DtsPluginOptions | packages/vite-plugin-component-lib/src/index.ts:102-118 | the object passed to `dts(...)`: defaults, then the filter hook unless the user brings `beforeWriteFile`, then the user's options; characterised by `DtsPluginOptionsSpec` |
| Environments.DtsPluginOptionsSpec | packages/vite-plugin-component-lib/src/index.ts:102-118 | the user's declaration options override every default; the built-in filter is installed exactly when the user brings no `beforeWriteFile` key; `outDirs` and `entryRoot` default to the plugin's directories |
| Environments.Plugins | packages/vite-plugin-component-lib/src/index.ts:207-210 | `[componentLib]` when `dts` is `false`, otherwise exactly `[componentLib, silencer, dts(...)]` in that order; the log silencer and the declaration plugin are present exactly when `dts` is not `false`, and the declaration plugin receives the merged options |
| Builder.Plan | packages/vite-plugin-component-lib/src/index.ts:189-191 | the env names whose environment exists, in visit order; characterised by `PlanSpec` |
| Builder.PlanConcat | packages/vite-plugin-component-lib/src/index.ts:189-191 | skipping names without an environment distributes over concatenation of the visit order |
| Builder.PlanSpec | packages/vite-plugin-component-lib/src/index.ts:189-191 | the names built are exactly the visited names that have an environment, and there are never more of them than names visited |
| Builder.Attempted | packages/vite-plugin-component-lib/src/index.ts:189-192 | the env names on which `build` is awaited, up to and including the first failure; characterised by `AttemptedSpec` |
| Builder.AttemptedSpec | packages/vite-plugin-component-lib/src/index.ts:189-192 | builds are attempted in plan order; every attempt but the last succeeded; either the whole plan succeeded or the last attempt failed |
| Builder.AttemptedAllBuilt | packages/vite-plugin-component-lib/src/index.ts:191 | when every build succeeds, every planned environment is built |
| Builder.AttemptedStopsAtFailure | packages/vite-plugin-component-lib/src/index.ts:191 | a failing build is the last one attempted; nothing after it is built |
| Builder.PlanAll | packages/vite-plugin-component-lib/src/index.ts:190-191 | when every visited name has an environment, nothing is skipped |
| Builder.EveryListedFormatIsBuilt | packages/vite-plugin-component-lib/src/index.ts:128-191 | on the environments the plugin itself creates, the plan is the whole visit order: no listed format is skipped |
| Builder.BothFormatsBuilt | packages/vite-plugin-component-lib/src/index.ts:189-192 | with both formats enabled and both builds succeeding, the `esm` and then the `cjs` environment are built |
| Builder.FirstFailureStopsSecond | packages/vite-plugin-component-lib/src/index.ts:189-192 | with both formats enabled and the `esm` build failing, the `cjs` environment is never built |
| Builder.BuildApp | packages/vite-plugin-component-lib/src/index.ts:188-192 | `buildApp` attempts exactly the planned builds up to the first failure; it resolves exactly when all attempts succeed and otherwise rejects with the failing build's error; the tracker gains the stems of the successful builds |
| Logs.IsNoise | packages/vite-plugin-component-lib/src/index.ts:88-93 | a message carrying one of the three declaration-tool markers |
| Logs.Passes | packages/vite-plugin-component-lib/src/index.ts:96-99 | an `error` call always passes; an `info` or `warn` call passes unless it is noise |
| Logs.Forwarded | packages/vite-plugin-component-lib/src/index.ts:87-97 | the wrapped logger forwards no more calls than it receives, and only calls that were made and that pass the filter |
| Logs.ForwardedConcat | packages/vite-plugin-component-lib/src/index.ts:87-99 | forwarding distributes over concatenation, so calls are neither reordered nor held back |
| Logs.PassingCallsForwarded | packages/vite-plugin-component-lib/src/index.ts:96 | every `error` call, and every `info`/`warn` call without a declaration-tool marker, reaches the original logger |
| Logs.ForwardedIdempotent | packages/vite-plugin-component-lib/src/index.ts:88-96 | wrapping an already filtered stream changes nothing |
| Logs.NoNoiseUnchanged | packages/vite-plugin-component-lib/src/index.ts:96 | when no call is declaration-tool noise, the wrapped logger behaves as the unwrapped one |
| Logs.NoiseExamples | packages/vite-plugin-component-lib/src/index.ts:88-93 | each of the three markers, anywhere in a message, silences `info`/`warn`; an `error` call with a marker is still forwarded |

## Left out

- Vite, Rollup and the declaration plugin are not part of this model. Their
  hooks are called by the host; here they are explicit method calls.
  `builder.build(env)` is a parameter from env name to built bundle or
  error.
- Regular expressions are opaque predicates. No regex engine is modelled.
- Only POSIX paths are modelled. Windows drive letters and backslashes are
  not.
- Paths are taken as already normalized: no segment is empty, `.` or `..`.
  The model assumes this of the root and of the ids the host passes, and
  requires it of `outDir` and `preserveModulesRoot`, which the user gives
  and the code uses as written. A configured directory with a `..` segment,
  such as `outDir: "../lib"`, is not modelled. How `path.normalize` treats
  such spellings is not modelled either.
- A configured directory is written in its normalized spelling, for example
  `dist` rather than `dist/` or `./dist`. This applies to the environment
  `outDir` strings and the `outDirs`/`entryRoot` values.
- Facade module ids are absolute paths. An id that is not a path (a
  NUL-prefixed virtual id) has no stem here.
- `normalizePath` is modelled on the strings the plugin passes it. For the
  relative paths at lines 53 and 64 it only turns `""` into `"."`. For the
  stripped declaration path at line 66, only the last segment can be
  abnormal, and `Paths.NormalizeLast` treats that segment. Backslash
  conversion is out, since Windows is out.
- Declarations.EmittedDeclarationKept: stated for a relative
  `preserveModulesRoot` and a module name that is a normal segment. The
  source keeps no such promise otherwise: with an absolute root every
  declaration is pruned (`AbsoluteRootPrunes`), and a module named `...ts`
  loses its declaration (`DotDotNameDropped`).
- `async`/`await` is left out: builds are sequential steps. So is the
  logger's `bind` and its `options` argument, which is forwarded unchanged.
  So is the `typeof msg === "string"` guard, since every message is a
  string here.
- `Environments.Plugins` takes the declaration plugin as one entry. When
  `dts()` returns an array of plugins, they are spread in its place.
- `envNames` entries that are present but explicitly `undefined` replace
  the default name with `undefined` in the source. Here an absent entry and
  an `undefined` one both mean the default.
- A `null` `dts` option is not modelled; the option's declared type does
  not allow it.
- `Builder.BuildApp` adds no stems for a failing build. In the host, a
  build may fail after its `generateBundle` already ran.
- `assetFileNames`, `exports` and the `lib.entry` value are carried through
  unchanged. No property is proved about them beyond that.
