/** Settings resolution (`getSettings`, index.js:25-67): the action inputs and
    the host environment are merged into one settings record. */
module ActionSettings {
  import opened Base
  import opened Strings

  /** The action inputs, as the host framework returns them: `""` when unset. */
  datatype Inputs = Inputs(
    hostArch: string,
    arch: string,
    toolsetVersion: string,
    winsdk: string,
    vswhere: string,
    components: string,
    verbose: string)

  /** The resolved settings; `None` stands for the source's `null`. */
  datatype Settings = Settings(
    hostArch: string,
    arch: string,
    toolsetVersion: Option<string>,
    winsdk: Option<string>,
    vswhere: Option<string>,
    components: seq<string>,
    verbose: bool)

  /** A snapshot of the process environment. */
  type Env = map<string, string>

  const ProcessorArchitecture: string := "PROCESSOR_ARCHITECTURE"

  const ComponentArm64: string := "Microsoft.VisualStudio.Component.VC.Tools.ARM64"
  const ComponentArm64ec: string := "Microsoft.VisualStudio.Component.VC.Tools.ARM64EC"
  const ComponentArm: string := "Microsoft.VisualStudio.Component.VC.Tools.ARM"
  const ComponentX86X64: string := "Microsoft.VisualStudio.Component.VC.Tools.x86.x64"

  /** `input || null`: an empty input is no value at all. */
  function OrNull(input: string): (r: Option<string>)
    ensures r.Some? <==> input != ""
    ensures r.Some? ==> r.value == input
  {
    if input == "" then None else Some(input)
  }

  /** `input.split(';').filter(s => s.length != 0)`. */
  function ComponentList(input: string): (components: seq<string>) {
    Filter(Split(input, ';'), NonEmpty)
  }

  /** The component list holds exactly the non-empty segments of the input:
      each entry is non-empty and `;`-free, and every non-empty segment is kept. */
  lemma ComponentListEntries(input: string)
    ensures forall i :: 0 <= i < |ComponentList(input)| ==>
              ComponentList(input)[i] != "" && ';' !in ComponentList(input)[i]
    ensures forall i :: 0 <= i < |Split(input, ';')| && Split(input, ';')[i] != "" ==>
              Split(input, ';')[i] in ComponentList(input)
  {
    var parts := Split(input, ';');
    FilterMembers(parts, NonEmpty);
    forall i | 0 <= i < |ComponentList(input)|
      ensures ComponentList(input)[i] != "" && ';' !in ComponentList(input)[i]
    {
      var x := ComponentList(input)[i];
      assert x in parts;
    }
  }

  /** Separator list order is kept: the components of `a;b` are those of `a`
      followed by those of `b`. */
  lemma ComponentListConcat(a: string, b: string)
    requires ';' !in a
    ensures ComponentList(a + [';'] + b) == ComponentList(a) + ComponentList(b)
  {
    SplitAfterPrefix(a, b, ';');
    SplitWithoutSeparator(a, ';');
    FilterAppend([a], Split(b, ';'), NonEmpty);
  }

  /** The default compiler component for a target architecture. The match is
      exact and case-sensitive; every other value selects the x86/x64 tools. */
  function DefaultComponent(arch: string): (c: string)
    ensures arch == "arm64" ==> c == ComponentArm64
    ensures arch == "arm64ec" ==> c == ComponentArm64ec
    ensures arch == "arm" ==> c == ComponentArm
    ensures arch !in {"arm64", "arm64ec", "arm"} ==> c == ComponentX86X64
  {
    match arch
    case "arm64" => ComponentArm64
    case "arm64ec" => ComponentArm64ec
    case "arm" => ComponentArm
    case _ => ComponentX86X64
  }

  /** The match is case-sensitive: upper-case spellings get the x86/x64 tools. */
  lemma DefaultComponentIsCaseSensitive()
    ensures DefaultComponent("ARM64") == ComponentX86X64
    ensures DefaultComponent("Arm") == ComponentX86X64
    ensures DefaultComponent("amd64") == ComponentX86X64
  {
  }

  /** The settings resolved from these inputs and this environment, field by
      field: an input wins over its default, an empty optional input is
      `null`, and the default compiler component is appended only when no
      toolset version is given. */
  predicate Resolved(inputs: Inputs, env: Env, s: Settings) {
    && (inputs.hostArch != "" || ProcessorArchitecture in env)
    && s.hostArch == (if inputs.hostArch != "" then inputs.hostArch else Lower(env[ProcessorArchitecture]))
    && s.arch == (if inputs.arch != "" then inputs.arch else s.hostArch)
    && s.toolsetVersion == OrNull(inputs.toolsetVersion)
    && s.winsdk == OrNull(inputs.winsdk)
    && s.vswhere == OrNull(inputs.vswhere)
    && s.components == ComponentList(inputs.components)
                       + (if inputs.toolsetVersion == "" then [DefaultComponent(s.arch)] else [])
    && (s.verbose <==> inputs.verbose == "true")
  }

  /** `getSettings`. The only way it fails is a missing `host_arch` input on a
      host without `PROCESSOR_ARCHITECTURE`, where `toLowerCase` is applied to
      `undefined`; a variable that is present but empty yields an empty host
      architecture. */
  method GetSettings(inputs: Inputs, env: Env) returns (r: Result<Settings, Error>)
    ensures r.Failure? <==> inputs.hostArch == "" && ProcessorArchitecture !in env
    ensures r.Failure? ==> r.error == MissingHostArchitecture
    ensures r.Success? ==> Resolved(inputs, env, r.value)
  {
    var hostArch: string;
    if inputs.hostArch != "" {
      hostArch := inputs.hostArch;
    } else if ProcessorArchitecture in env {
      hostArch := Lower(env[ProcessorArchitecture]);
    } else {
      return Failure(MissingHostArchitecture);
    }
    var arch := if inputs.arch != "" then inputs.arch else hostArch;
    var toolsetVersion := OrNull(inputs.toolsetVersion);

    var components := ComponentList(inputs.components);
    if toolsetVersion.None? {
      components := components + [DefaultComponent(arch)];
    }

    r := Success(Settings(
      hostArch, arch, toolsetVersion, OrNull(inputs.winsdk), OrNull(inputs.vswhere),
      components, inputs.verbose == "true"));
  }

  /** Exactly one component is appended, and only when no toolset version is
      given; the requested components stay in front, in input order. */
  lemma AppendedComponent(inputs: Inputs, s: Settings)
    requires s.components == ComponentList(inputs.components)
                             + (if inputs.toolsetVersion == "" then [DefaultComponent(s.arch)] else [])
    ensures |s.components| == |ComponentList(inputs.components)| + (if inputs.toolsetVersion == "" then 1 else 0)
    ensures s.components[..|ComponentList(inputs.components)|] == ComponentList(inputs.components)
    ensures inputs.toolsetVersion == "" ==> s.components[|s.components| - 1] == DefaultComponent(s.arch)
  {
  }

  /** Empty segments vanish wherever they are: an input shaped like
      `"A;;B;"` yields `["A", "B"]`. */
  lemma ComponentListDropsEmptySegments(a: string, b: string)
    requires a != "" && b != "" && ';' !in a && ';' !in b
    ensures ComponentList(a + ";;" + b + ";") == [a, b]
  {
    var tail := b + [';'] + "";
    assert ComponentList(tail) == [b] by {
      ComponentListSingle(b);
      ComponentListSingle("");
      ComponentListConcat(b, "");
    }
    var mid := "" + [';'] + tail;
    assert ComponentList(mid) == [b] by {
      ComponentListSingle("");
      ComponentListConcat("", tail);
    }
    assert ComponentList(a + [';'] + mid) == [a, b] by {
      ComponentListSingle(a);
      ComponentListConcat(a, mid);
    }
    assert a + [';'] + mid == a + ";;" + b + ";";
  }

  /** A `;`-free input is one component, or none when empty. */
  lemma ComponentListSingle(input: string)
    requires ';' !in input
    ensures ComponentList(input) == if input == "" then [] else [input]
  {
    SplitWithoutSeparator(input, ';');
  }
}
