/**
 * What `components(options)` builds before any hook runs: option defaults, one
 * build-environment descriptor per enabled format, the base config with or
 * without a builder, and the returned plugin list with the options handed to
 * the declaration plugin.
 */
module Environments {
  import opened Wrappers
  import opened Paths
  import opened Utils
  import opened Classifier

  datatype Format = Esm | Cjs

  /** A library entry: one path, a list of paths, or a name-to-path map. */
  datatype Entry = EntryPath(path: string) | EntryList(paths: seq<string>) | EntryMap(named: map<string, string>)

  /** A `{ esm?, cjs? }` object such as `fileSuffix` or `envNames`. */
  datatype PerFormat = PerFormat(esm: Option<string>, cjs: Option<string>)

  /** A value of the user's declaration-plugin options that the model does not look into. */
  datatype UserValue = UserValue(tag: string)

  /** `options.dts`: absent, a boolean, or an options object given by its own keys. */
  datatype DtsSetting = DtsUnset | DtsFlag(enabled: bool) | DtsObject(fields: map<string, UserValue>)

  /** `PluginComponentLibOptions`; an absent `disableBuilder` is `false`. */
  datatype PluginOptions = PluginOptions(
    entry: Option<Entry>,
    outDir: Option<DirSpec>,
    preserveModulesRoot: Option<DirSpec>,
    fileSuffix: Option<PerFormat>,
    external: Option<seq<Pattern>>,
    internal: Option<seq<Pattern>>,
    envNames: Option<PerFormat>,
    formats: Option<seq<Format>>,
    disableBuilder: bool,
    dts: DtsSetting)

  /** The options after defaults are filled in. */
  datatype Settings = Settings(
    entry: Entry,
    outBase: DirSpec,
    preserveModulesRoot: DirSpec,
    esmName: string,
    cjsName: string,
    formats: seq<Format>,
    esmSuffix: string,
    cjsSuffix: string,
    overrides: Overrides)

  /** `o?.esm ?? default` (or `.cjs`). */
  function PickFor(o: Option<PerFormat>, f: Format, default: string): string {
    match o
    case None => default
    case Some(p) => (if f == Esm then p.esm else p.cjs).GetOr(default)
  }

  function Resolve(o: PluginOptions): Settings {
    Settings(
      o.entry.GetOr(EntryPath("src/index.ts")),
      o.outDir.GetOr(Relative(["dist"])),
      o.preserveModulesRoot.GetOr(Relative(["src"])),
      PickFor(o.envNames, Esm, "esm"),
      PickFor(o.envNames, Cjs, "cjs"),
      o.formats.GetOr([Esm, Cjs]),
      PickFor(o.fileSuffix, Esm, ".js"),
      PickFor(o.fileSuffix, Cjs, ".cjs"),
      Overrides(o.internal, o.external))
  }

  const NoOptions := PluginOptions(None, None, None, None, None, None, None, None, false, DtsUnset)

  /** Options that spell out every setting. */
  function Explicit(s: Settings, dts: DtsSetting): PluginOptions {
    PluginOptions(Some(s.entry), Some(s.outBase), Some(s.preserveModulesRoot),
                  Some(PerFormat(Some(s.esmSuffix), Some(s.cjsSuffix))),
                  s.overrides.external, s.overrides.internal,
                  Some(PerFormat(Some(s.esmName), Some(s.cjsName))),
                  Some(s.formats), false, dts)
  }

  /** With no options every default applies. */
  lemma Defaults()
    ensures var s := Resolve(NoOptions);
      && s.entry == EntryPath("src/index.ts")
      && s.outBase == Relative(["dist"]) && Render(s.outBase) == "dist"
      && s.preserveModulesRoot == Relative(["src"])
      && s.esmName == "esm" && s.cjsName == "cjs"
      && s.formats == [Esm, Cjs]
      && s.esmSuffix == ".js" && s.cjsSuffix == ".cjs"
      && s.overrides.internal.None? && s.overrides.external.None?
  {
  }

  /** A value given explicitly is never replaced by a default. */
  lemma ExplicitWins(s: Settings, dts: DtsSetting)
    ensures var r := Resolve(Explicit(s, dts));
      && r.entry == s.entry && r.outBase == s.outBase && r.preserveModulesRoot == s.preserveModulesRoot
      && r.esmName == s.esmName && r.cjsName == s.cjsName && r.formats == s.formats
      && r.esmSuffix == s.esmSuffix && r.cjsSuffix == s.cjsSuffix
      && r.overrides == s.overrides
  {
  }

  function Name(s: Settings, f: Format): string {
    if f == Esm then s.esmName else s.cjsName
  }

  function Suffix(s: Settings, f: Format): string {
    if f == Esm then s.esmSuffix else s.cjsSuffix
  }

  function FormatDir(f: Format): string {
    if f == Esm then "esm" else "cjs"
  }

  /** Rollup output options of one environment (`assetFileNames` passed through). */
  datatype OutputOptions = OutputOptions(
    format: Format,
    exports: Option<string>,
    preserveModules: bool,
    preserveModulesRoot: string,
    entryFileNames: string,
    chunkFileNames: string,
    assetFileNames: string)

  /** One build environment: its out dir, `lib` entry and file suffix, the
      `external` rule, and its output options. Every environment also carries the
      module tracker plugin, whose state is the single shared `Tracker.ComponentLib`. */
  datatype EnvDescriptor = EnvDescriptor(
    outDir: string,
    entry: Entry,
    fileSuffix: string,
    external: Overrides,
    output: OutputOptions)

  /** The environment object written for format `f`. */
  function Descriptor(s: Settings, f: Format): EnvDescriptor {
    var suffix := Suffix(s, f);
    EnvDescriptor(
      Render(s.outBase) + "/" + FormatDir(f),
      s.entry,
      suffix,
      s.overrides,
      OutputOptions(f, if f == Cjs then Some("auto") else None, true, Render(s.preserveModulesRoot),
                    "[name]" + suffix, "[name]" + suffix, "[name][ext]"))
  }

  /** `lib.fileName(format, n)` */
  function LibFileName(e: EnvDescriptor, n: string): string {
    n + e.fileSuffix
  }

  /** Where the entry module named `n` lands. */
  function EmittedPath(e: EnvDescriptor, n: string): string {
    e.outDir + "/" + LibFileName(e, n)
  }

  /** Each environment writes one file per preserved module under
      `<outBase>/<format>/`, named with the format's suffix, and classifies
      imports with the shared `external` rule. */
  lemma DescriptorLayout(s: Settings, f: Format, n: string, id: string)
    ensures var e := Descriptor(s, f);
      && EmittedPath(e, n) == Render(s.outBase) + "/" + FormatDir(f) + "/" + n + Suffix(s, f)
      && e.output.format == f && e.output.preserveModules
      && e.output.entryFileNames == e.output.chunkFileNames == "[name]" + Suffix(s, f)
      && e.output.preserveModulesRoot == Render(s.preserveModulesRoot)
      && IsExternal(e.external, id) == IsExternal(s.overrides, id)
  {
  }

  /** With default options the module `Button` is emitted as `dist/esm/Button.js`
      and `dist/cjs/Button.cjs`. */
  lemma DefaultLayoutExample()
    ensures EmittedPath(Descriptor(Resolve(NoOptions), Esm), "Button") == "dist/esm/Button.js"
    ensures EmittedPath(Descriptor(Resolve(NoOptions), Cjs), "Button") == "dist/cjs/Button.cjs"
  {
    var s := Resolve(NoOptions);
    assert Render(s.outBase) == "dist";
    assert Descriptor(s, Esm).outDir == "dist" + "/" + "esm";
    assert Descriptor(s, Cjs).outDir == "dist" + "/" + "cjs";
    assert ("dist" + "/" + "esm") + "/" + ("Button" + ".js") == "dist/esm/Button.js";
    assert ("dist" + "/" + "cjs") + "/" + ("Button" + ".cjs") == "dist/cjs/Button.cjs";
  }

  /** The environment map for the enabled formats. When both formats share a
      name, the `cjs` descriptor (assigned second) is the one kept. */
  ghost predicate EnvironmentsFor(s: Settings, envs: map<string, EnvDescriptor>) {
    && envs.Keys == (if Esm in s.formats then {s.esmName} else {}) + (if Cjs in s.formats then {s.cjsName} else {})
    && (Cjs in s.formats ==> envs[s.cjsName] == Descriptor(s, Cjs))
    && (Esm in s.formats && !(Cjs in s.formats && s.cjsName == s.esmName) ==> envs[s.esmName] == Descriptor(s, Esm))
  }

  /** Fill the `environments` object, one assignment per enabled format. */
  method BuildEnvironments(s: Settings) returns (envs: map<string, EnvDescriptor>)
    ensures EnvironmentsFor(s, envs)
    ensures s.esmName != s.cjsName ==>
      (s.esmName in envs <==> Esm in s.formats) && (s.cjsName in envs <==> Cjs in s.formats)
    ensures |envs| <= 2
  {
    envs := map[];
    if Esm in s.formats {
      envs := envs[s.esmName := Descriptor(s, Esm)];
    }
    if Cjs in s.formats {
      envs := envs[s.cjsName := Descriptor(s, Cjs)];
    }
  }

  /** `formats.map(f => envNames[f])`: the env names `buildApp` visits, in order. */
  function BuildOrder(s: Settings): (order: seq<string>)
    ensures |order| == |s.formats|
    ensures forall i :: 0 <= i < |order| ==> order[i] == Name(s, s.formats[i])
  {
    seq(|s.formats|, i requires 0 <= i < |s.formats| => Name(s, s.formats[i]))
  }

  /** The `buildApp` builder: it visits env names in this order. */
  datatype AppBuilder = AppBuilder(order: seq<string>)

  datatype BaseConfig = BaseConfig(environments: map<string, EnvDescriptor>, builder: Option<AppBuilder>)

  /** `baseConfig`: the environments, plus a builder unless `disableBuilder`. */
  method MakeBaseConfig(o: PluginOptions) returns (c: BaseConfig)
    ensures EnvironmentsFor(Resolve(o), c.environments)
    ensures c.builder.None? <==> o.disableBuilder
    ensures c.builder.Some? ==> c.builder.value.order == BuildOrder(Resolve(o))
  {
    var s := Resolve(o);
    var envs := BuildEnvironments(s);
    if o.disableBuilder {
      c := BaseConfig(envs, None);
    } else {
      c := BaseConfig(envs, Some(AppBuilder(BuildOrder(s))));
    }
  }

  /** A value in the options handed to the declaration plugin. */
  datatype DtsValue = Text(text: string) | Flag(flag: bool) | KeepDeclarationHook | User(value: UserValue)

  datatype PluginEntry = ComponentLibPlugin | SilenceDtsLogs | DtsPlugin(options: map<string, DtsValue>)

  /** `hasCustomBeforeWrite`: the options object has its own `beforeWriteFile`
      key, whatever its value. */
  predicate HasCustomBeforeWrite(dts: DtsSetting) {
    dts.DtsObject? && "beforeWriteFile" in dts.fields
  }

  function UserDtsOptions(dts: DtsSetting): map<string, DtsValue> {
    if dts.DtsObject? then map k | k in dts.fields :: User(dts.fields[k]) else map[]
  }

  /** The object passed to `dts(...)`: fixed defaults, then the declaration
      filter unless the user brings a `beforeWriteFile`, then the user's own
      options, later entries overriding earlier ones. */
  function DtsPluginOptions(s: Settings, dts: DtsSetting): map<string, DtsValue> {
    map["outDirs" := Text(Render(s.outBase)),
        "entryRoot" := Text(Render(s.preserveModulesRoot)),
        "insertTypesEntry" := Flag(true),
        "strictOutput" := Flag(true)]
    + (if HasCustomBeforeWrite(dts) then map[] else map["beforeWriteFile" := KeepDeclarationHook])
    + UserDtsOptions(dts)
  }

  /** The user's options override every default, and the declaration filter is
      installed exactly when the user supplied no `beforeWriteFile` of their own. */
  lemma DtsPluginOptionsSpec(s: Settings, dts: DtsSetting)
    ensures var m := DtsPluginOptions(s, dts);
      && (dts.DtsObject? ==> forall k :: k in dts.fields ==> k in m && m[k] == User(dts.fields[k]))
      && "beforeWriteFile" in m
      && (m["beforeWriteFile"] == KeepDeclarationHook <==> !HasCustomBeforeWrite(dts))
      && (!(dts.DtsObject? && "outDirs" in dts.fields) ==> m["outDirs"] == Text(Render(s.outBase)))
      && (!(dts.DtsObject? && "entryRoot" in dts.fields) ==> m["entryRoot"] == Text(Render(s.preserveModulesRoot)))
  {
    var m := DtsPluginOptions(s, dts);
    if HasCustomBeforeWrite(dts) {
      assert m["beforeWriteFile"] == User(dts.fields["beforeWriteFile"]);
    }
  }

  /** The value `components()` returns: the component plugin alone when `dts`
      is `false`, otherwise followed by the log silencer and the declaration plugin. */
  function Plugins(o: PluginOptions): (ps: seq<PluginEntry>)
    ensures |ps| >= 1 && ps[0] == ComponentLibPlugin
    ensures SilenceDtsLogs in ps <==> o.dts != DtsFlag(false)
    ensures forall i :: 0 <= i < |ps| && ps[i].DtsPlugin? ==> ps[i].options == DtsPluginOptions(Resolve(o), o.dts)
    ensures (exists i :: 0 <= i < |ps| && ps[i].DtsPlugin?) <==> o.dts != DtsFlag(false)
    ensures o.dts == DtsFlag(false) ==> |ps| == 1
    ensures o.dts != DtsFlag(false) ==> |ps| == 3 && ps[1] == SilenceDtsLogs && ps[2].DtsPlugin?
  {
    if o.dts == DtsFlag(false) then [ComponentLibPlugin]
    else
      var ps := [ComponentLibPlugin, SilenceDtsLogs, DtsPlugin(DtsPluginOptions(Resolve(o), o.dts))];
      assert ps[2].DtsPlugin?;
      ps
  }
}
