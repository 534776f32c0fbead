/** The action's main flow (`main`, index.js:127-180) against a host that
    records what the action reports: its outputs, the variables it exports
    and the failure message, if any. */
module Action {
  import opened Base
  import opened Strings
  import opened ActionSettings
  import opened Locator
  import opened DevCmd
  import opened EnvDiff

  const InstallPathOutput: string := "install_path"
  const Shell: string := "cmd"

  /** One `core.setOutput` call: an output name and its value. */
  datatype Output = Output(name: string, value: string)

  /** One child-process start: the program and its arguments. */
  datatype Invocation = Invocation(program: string, args: seq<string>)

  /** The host framework, reduced to the three calls the action makes on it. */
  class ActionHost {
    var outputs: seq<Output>
    var exported: seq<EnvPair>
    var failure: Option<string>

    constructor ()
      ensures outputs == [] && exported == [] && failure == None
    {
      outputs, exported, failure := [], [], None;
    }

    /** `core.setOutput`. */
    method SetOutput(name: string, value: string)
      modifies this
      ensures outputs == old(outputs) + [Output(name, value)]
      ensures exported == old(exported) && failure == old(failure)
    {
      outputs := outputs + [Output(name, value)];
    }

    /** `core.exportVariable`. */
    method ExportVariable(name: string, value: string)
      modifies this
      ensures exported == old(exported) + [EnvPair(name, value)]
      ensures outputs == old(outputs) && failure == old(failure)
    {
      exported := exported + [EnvPair(name, value)];
    }

    /** `core.setFailed`. */
    method SetFailed(message: string)
      modifies this
      ensures failure == Some(message)
      ensures outputs == old(outputs) && exported == old(exported)
    {
      failure := Some(message);
    }
  }

  /** The export loop (index.js:171-174): each new variable in turn, then
      `Path` once. */
  method ExportAll(host: ActionHost, newEnvVars: seq<EnvPair>, newPath: string)
    modifies host
    ensures host.exported == old(host.exported) + newEnvVars + [EnvPair(PathKey, newPath)]
    ensures host.outputs == old(host.outputs) && host.failure == old(host.failure)
  {
    for i := 0 to |newEnvVars|
      invariant host.exported == old(host.exported) + newEnvVars[..i]
      invariant host.outputs == old(host.outputs) && host.failure == old(host.failure)
    {
      host.ExportVariable(newEnvVars[i].key, newEnvVars[i].value);
      assert newEnvVars[..i + 1] == newEnvVars[..i] + [newEnvVars[i]];
    }
    assert newEnvVars[..|newEnvVars|] == newEnvVars;
    host.ExportVariable(PathKey, newPath);
  }

  /** The start of `cmd` on the developer command script `script`
      (index.js:148-152): `/q /k <script>`, the host and target flags,
      `-vcvars_ver=` only for a truthy toolset version, `-winsdk=` only for a
      truthy SDK version, then `&& set`. */
  predicate IsShellCall(call: Invocation, s: Settings, script: string) {
    var n := 7 + (if Truthy(s.toolsetVersion) then 1 else 0) + (if Truthy(s.winsdk) then 1 else 0);
    && call.program == Shell
    && |call.args| == n
    && call.args[..3] == ["/q", "/k", script]
    && call.args[3] == "-host_arch=" + s.hostArch
    && call.args[4] == "-arch=" + s.arch
    && (Truthy(s.toolsetVersion) ==> call.args[5] == "-vcvars_ver=" + s.toolsetVersion.value)
    && (Truthy(s.winsdk) ==> call.args[n - 3] == "-winsdk=" + s.winsdk.value)
    && call.args[n - 2..] == ["&&", "set"]
  }

  /** The shell run (index.js:147-174) once an installation is known: the
      shell is started, then either its spawn error is the failure or every
      new variable and `Path` are exported. */
  method StartShell(host: ActionHost, s: Settings, env: Env, installPath: string,
                    shellRun: SpawnResult, scriptPath: string -> string)
    returns (shell: Invocation)
    modifies host
    ensures IsShellCall(shell, s, scriptPath(installPath))
    ensures host.outputs == old(host.outputs)
    ensures shellRun.SpawnError? ==>
      host.failure == Some(shellRun.message) && host.exported == old(host.exported)
    ensures shellRun.Spawned? ==>
      && host.failure == old(host.failure)
      && host.exported == old(host.exported) + ExportPlan(EnvPairs(OutputLines(shellRun.output)), env)
  {
    var vsDevCmdArgs := GetVSDevCmdArgs(s);
    var cmdArgs := CmdArgs(scriptPath(installPath), vsDevCmdArgs);
    assert cmdArgs[3..|cmdArgs| - 2] == vsDevCmdArgs;
    assert cmdArgs[3] == vsDevCmdArgs[0] && cmdArgs[4] == vsDevCmdArgs[1];
    assert Truthy(s.toolsetVersion) ==> cmdArgs[5] == vsDevCmdArgs[2];
    assert cmdArgs[|cmdArgs| - 3] == vsDevCmdArgs[|vsDevCmdArgs| - 1];
    shell := Invocation(Shell, cmdArgs);

    if shellRun.SpawnError? {
      host.SetFailed(Message(SpawnFailed(shellRun.message)));
      return;
    }
    var completeEnv := EnvPairs(OutputLines(shellRun.output));
    ExportAll(host, NewEnvVars(completeEnv, env), NewPath(completeEnv));
  }

  /** `main` after the settings are known (index.js:137-174): the locator is
      started; in verbose mode, once it started, the diagnostic query too; the
      installation found is reported as the `install_path` output and the
      shell is started on its script. */
  method Provision(host: ActionHost, s: Settings, env: Env, locatorRun: SpawnResult,
                   shellRun: SpawnResult, scriptPath: string -> string)
    returns (locator: Invocation, diagnostic: Option<Invocation>, shell: Option<Invocation>)
    modifies host
    ensures locator == Invocation(VSWhereName(s), LocatorArgs(s))
    ensures diagnostic == if s.verbose && locatorRun.Spawned?
                          then Some(Invocation(VSWhereName(s), DiagnosticArgs(s))) else None
    ensures FindInstallPath(locatorRun).Failure? ==>
      && host.failure == Some(Message(FindInstallPath(locatorRun).error))
      && host.outputs == old(host.outputs) && host.exported == old(host.exported)
      && shell == None
    ensures FindInstallPath(locatorRun).Success? ==>
      var path := FindInstallPath(locatorRun).value;
      && host.outputs == old(host.outputs) + [Output(InstallPathOutput, path)]
      && shell.Some? && IsShellCall(shell.value, s, scriptPath(path))
      && (shellRun.SpawnError? ==>
            host.failure == Some(shellRun.message) && host.exported == old(host.exported))
      && (shellRun.Spawned? ==>
            && host.failure == old(host.failure)
            && host.exported == old(host.exported) + ExportPlan(EnvPairs(OutputLines(shellRun.output)), env))
  {
    locator := Invocation(VSWhereName(s), LocatorArgs(s));
    diagnostic := None;
    if locatorRun.Spawned? && s.verbose {
      diagnostic := Some(Invocation(VSWhereName(s), DiagnosticArgs(s)));
    }
    var found := FindInstallPath(locatorRun);
    if found.Failure? {
      host.SetFailed(Message(found.error));
      return locator, diagnostic, None;
    }
    host.SetOutput(InstallPathOutput, found.value);
    var call := StartShell(host, s, env, found.value, shellRun, scriptPath);
    shell := Some(call);
  }

  /** `main` after the platform check. The child processes are given by what
      they returned (`locatorRun`, `shellRun`), and the location of the
      developer command script inside an installation by `scriptPath`.
      Returns the settings it resolved and the processes it started (`None`
      for one the run did not reach). Every error ends in one `setFailed`
      call; exports happen only once everything else succeeded. */
  method Run(host: ActionHost, inputs: Inputs, env: Env, locatorRun: SpawnResult,
             shellRun: SpawnResult, scriptPath: string -> string)
    returns (settings: Result<Settings, Error>, locator: Option<Invocation>,
             diagnostic: Option<Invocation>, shell: Option<Invocation>)
    requires host.failure == None
    modifies host
    ensures settings.Failure? <==> inputs.hostArch == "" && ProcessorArchitecture !in env
    // Settings could not be resolved: nothing is started and only the failure is reported.
    ensures settings.Failure? ==>
      && host.failure == Some(Message(MissingHostArchitecture))
      && host.outputs == old(host.outputs) && host.exported == old(host.exported)
      && locator == None && diagnostic == None && shell == None
    // Settings resolved: the locator is asked for the settings' components.
    ensures settings.Success? ==>
      var s := settings.value;
      && Resolved(inputs, env, s)
      && locator == Some(Invocation(VSWhereName(s), LocatorArgs(s)))
      && diagnostic == (if s.verbose && locatorRun.Spawned?
                        then Some(Invocation(VSWhereName(s), DiagnosticArgs(s))) else None)
    // No installation found, or the locator did not start.
    ensures settings.Success? && FindInstallPath(locatorRun).Failure? ==>
      && host.failure == Some(Message(FindInstallPath(locatorRun).error))
      && host.outputs == old(host.outputs) && host.exported == old(host.exported)
      && shell == None
    // An installation was found: it is reported, and the shell is started on its script.
    ensures settings.Success? && FindInstallPath(locatorRun).Success? ==>
      var path := FindInstallPath(locatorRun).value;
      && host.outputs == old(host.outputs) + [Output(InstallPathOutput, path)]
      && shell.Some? && IsShellCall(shell.value, settings.value, scriptPath(path))
      && (shellRun.SpawnError? ==>
            host.failure == Some(shellRun.message) && host.exported == old(host.exported))
      && (shellRun.Spawned? ==>
            && host.failure == None
            && host.exported == old(host.exported) + ExportPlan(EnvPairs(OutputLines(shellRun.output)), env))
  {
    settings := GetSettings(inputs, env);
    if settings.Failure? {
      host.SetFailed(Message(settings.error));
      return settings, None, None, None;
    }
    var call;
    call, diagnostic, shell := Provision(host, settings.value, env, locatorRun, shellRun, scriptPath);
    locator := Some(call);
  }
}
