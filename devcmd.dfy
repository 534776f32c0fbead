/** The developer command prompt invocation (`getVSDevCmdArgs`,
    index.js:119-125, and the shell arguments at index.js:149). */
module DevCmd {
  import opened Base
  import opened ActionSettings

  /** `getVSDevCmdArgs`: the host and target architectures always come first;
      `-vcvars_ver=` follows only for a toolset version, then `-winsdk=` only
      for an SDK version. */
  method GetVSDevCmdArgs(settings: Settings) returns (args: seq<string>)
    ensures |args| == 2 + (if Truthy(settings.toolsetVersion) then 1 else 0)
                        + (if Truthy(settings.winsdk) then 1 else 0)
    ensures args[0] == "-host_arch=" + settings.hostArch
    ensures args[1] == "-arch=" + settings.arch
    ensures Truthy(settings.toolsetVersion) ==> args[2] == "-vcvars_ver=" + settings.toolsetVersion.value
    ensures Truthy(settings.winsdk) ==> args[|args| - 1] == "-winsdk=" + settings.winsdk.value
  {
    args := ["-host_arch=" + settings.hostArch, "-arch=" + settings.arch];
    if Truthy(settings.toolsetVersion) {
      args := args + ["-vcvars_ver=" + settings.toolsetVersion.value];
    }
    if Truthy(settings.winsdk) {
      args := args + ["-winsdk=" + settings.winsdk.value];
    }
  }

  /** The shell arguments (index.js:149): run the script quietly, keep the
      shell, then list the environment with `set`. */
  function CmdArgs(vsDevCmdPath: string, devArgs: seq<string>): (r: seq<string>)
    ensures |r| == |devArgs| + 5
    ensures r[..3] == ["/q", "/k", vsDevCmdPath]
    ensures r[3..|r| - 2] == devArgs
    ensures r[|r| - 2..] == ["&&", "set"]
  {
    ["/q", "/k", vsDevCmdPath] + devArgs + ["&&", "set"]
  }
}
