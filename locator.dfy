/** The installation locator (`findVSWhere`/`findVSInstallDir`,
    index.js:69-117): the arguments passed to `vswhere`, and the selection of
    the installation path from what the process printed. */
module Locator {
  import opened Base
  import opened Strings
  import opened ActionSettings

  /** What a synchronous child-process run gives back: an error when the
      process could not be started, or else the output slots
      (`[null, stdout, stderr]` for a piped run). */
  datatype SpawnResult = SpawnError(message: string) | Spawned(output: seq<Option<string>>)

  const LocatorPrefix: seq<string> := ["-nologo", "-latest", "-products", "*", "-property", "installationPath"]
  const DiagnosticPrefix: seq<string> := ["-nologo", "-latest", "-products", "*"]
  const DefaultVSWhere: string := "vswhere.exe"

  /** `settings.vswhere || 'vswhere.exe'`: the locator executable name, before
      it is resolved against the installer directory. */
  function VSWhereName(settings: Settings): (name: string)
    ensures Truthy(settings.vswhere) ==> name == settings.vswhere.value
    ensures !Truthy(settings.vswhere) ==> name == DefaultVSWhere
  {
    if Truthy(settings.vswhere) then settings.vswhere.value else DefaultVSWhere
  }

  /** `components.map(c => ['-requires', c]).reduce(concat, [])`: one
      `-requires` flag before each component, in component order. */
  function RequiresArgs(components: seq<string>): (r: seq<string>)
    ensures |r| == 2 * |components|
    ensures forall i :: 0 <= i < |components| ==> r[2 * i] == "-requires" && r[2 * i + 1] == components[i]
  {
    if components == [] then []
    else
      var rest := RequiresArgs(components[1..]);
      var r := ["-requires", components[0]] + rest;
      assert forall i :: 1 <= i < |components| ==>
        r[2 * i] == "-requires" && r[2 * i + 1] == components[i] by {
        forall i | 1 <= i < |components|
          ensures r[2 * i] == "-requires" && r[2 * i + 1] == components[i]
        {
          var k := i - 1;
          assert rest[2 * k] == "-requires" && rest[2 * k + 1] == components[1..][k];
          assert r[2 * i] == rest[2 * k] && r[2 * i + 1] == rest[2 * k + 1];
        }
      }
      r
  }

  /** Reads back the components from a run of `-requires <component>` pairs;
      `None` when the arguments are not such a run. */
  function ParseRequires(args: seq<string>): (components: Option<seq<string>>) {
    if args == [] then Some([])
    else if |args| >= 2 && args[0] == "-requires" then
      match ParseRequires(args[2..])
      case Some(rest) => Some([args[1]] + rest)
      case None => None
    else None
  }

  /** The `-requires` arguments name exactly the components, in order. */
  lemma {:induction false} ParseRequiresArgs(components: seq<string>)
    ensures ParseRequires(RequiresArgs(components)) == Some(components)
  {
    if components != [] {
      var r := RequiresArgs(components);
      assert r[2..] == RequiresArgs(components[1..]);
      ParseRequiresArgs(components[1..]);
      assert [components[0]] + components[1..] == components;
    }
  }

  /** The arguments of the path query (index.js:88-95): the fixed prefix, then
      the `-requires` pairs. */
  function LocatorArgs(settings: Settings): (r: seq<string>)
    ensures |r| == |LocatorPrefix| + 2 * |settings.components|
    ensures r[..|LocatorPrefix|] == LocatorPrefix
    ensures ParseRequires(r[|LocatorPrefix|..]) == Some(settings.components)
  {
    var r := LocatorPrefix + RequiresArgs(settings.components);
    assert r[|LocatorPrefix|..] == RequiresArgs(settings.components);
    ParseRequiresArgs(settings.components);
    r
  }

  /** The arguments of the verbose diagnostic query (index.js:103): the same
      components without the property restriction. */
  function DiagnosticArgs(settings: Settings): (r: seq<string>)
    ensures |r| == |DiagnosticPrefix| + 2 * |settings.components|
    ensures r[..|DiagnosticPrefix|] == DiagnosticPrefix
    ensures ParseRequires(r[|DiagnosticPrefix|..]) == Some(settings.components)
  {
    var r := DiagnosticPrefix + RequiresArgs(settings.components);
    assert r[|DiagnosticPrefix|..] == RequiresArgs(settings.components);
    ParseRequiresArgs(settings.components);
    r
  }

  /** The output slots that survive `filter(s => !!s)` and `map(s => s.trim())`. */
  function InstallPathList(output: seq<Option<string>>): (paths: seq<string>) {
    Map(Filter(output, Truthy), TrimSlot)
  }

  function TrimSlot(slot: Option<string>): (text: string) {
    Trim(slot.GetOr(""))
  }

  /** Install-path selection (index.js:108-116). The whole slot is trimmed, not
      split into lines: it fails exactly when every slot is `null` or `""`,
      and otherwise gives the trimmed text of the last slot that is neither.
      A whitespace-only slot passes the filter and trims to `""`. */
  function SelectInstallPath(output: seq<Option<string>>): (r: Result<string, Error>)
    ensures r.Failure? <==> forall i :: 0 <= i < |output| ==> !Truthy(output[i])
    ensures r.Failure? ==> r.error == NoCompatibleInstallation
    ensures r.Success? ==>
      exists i :: 0 <= i < |output| && Truthy(output[i]) && r.value == Trim(output[i].value)
                  && forall j :: i < j < |output| ==> !Truthy(output[j])
  {
    var candidates := Filter(output, Truthy);
    var list := InstallPathList(output);
    FilterMembers(output, Truthy);
    if |list| == 0 then
      assert forall i :: 0 <= i < |output| ==> !Truthy(output[i]) by {
        forall i | 0 <= i < |output| && Truthy(output[i]) ensures output[i] in candidates { }
      }
      Failure(NoCompatibleInstallation)
    else
      FilterLast(output, Truthy);
      Success(list[|list| - 1])
  }

  /** `findVSInstallDir` after the locator ran: a process that could not be
      started rethrows its error; otherwise the path is selected from its output. */
  function FindInstallPath(run: SpawnResult): (r: Result<string, Error>)
    ensures run.SpawnError? ==> r == Failure(SpawnFailed(run.message))
    ensures run.Spawned? ==> r == SelectInstallPath(run.output)
  {
    match run
    case SpawnError(msg) => Failure(SpawnFailed(msg))
    case Spawned(output) => SelectInstallPath(output)
  }

  /** Empty slots are skipped and the last real one wins, trimmed; with no
      real slot the selection fails. */
  lemma SelectSkipsEmptySlots(path: string)
    requires path != ""
    ensures SelectInstallPath([None, Some(path), Some("")]) == Success(Trim(path))
    ensures SelectInstallPath([None, Some(""), None]) == Failure(NoCompatibleInstallation)
  {
    var output: seq<Option<string>> := [None, Some(path), Some("")];
    assert !Truthy(output[2]);
    SelectLastTruthy(output, 1);
  }

  /** A whitespace-only last slot (for instance a blank line on stderr) is
      selected, and the installation path is then empty. */
  lemma WhitespaceSlotGivesEmptyPath(path: string, blank: string)
    requires blank != ""
    requires forall i :: 0 <= i < |blank| ==> IsWhitespace(blank[i])
    ensures SelectInstallPath([None, Some(path), Some(blank)]) == Success("")
  {
    TrimOfBlank(blank);
    var output: seq<Option<string>> := [None, Some(path), Some(blank)];
    SelectLastTruthy(output, 2);
  }

  /** Trimming a trimmed non-empty line followed by CR LF gives the line back. */
  lemma TrimCrLf(t: string)
    requires t != "" && IsTrimmed(t)
    ensures Trim(t + "\r\n") == t
  {
    TrimTrailingWhitespace(t, "\r\n");
  }

  /** Two paths printed on stdout are not separated: the slot is one string,
      and only its outer whitespace goes, so the result spans both lines. */
  lemma MultiLineSlotIsKeptWhole(a: string, b: string)
    requires a != "" && b != "" && IsTrimmed(a) && IsTrimmed(b)
    ensures SelectInstallPath([None, Some(a + "\r\n" + b + "\r\n"), None]) == Success(a + "\r\n" + b)
  {
    var t := a + "\r\n" + b;
    assert t[0] == a[0] && t[|t| - 1] == b[|b| - 1];
    TrimCrLf(t);
    SelectOnlySlot(t + "\r\n");
  }

  /** The slot selected is the last one that is neither `null` nor `""`. */
  lemma SelectLastTruthy(output: seq<Option<string>>, k: nat)
    requires k < |output| && Truthy(output[k])
    requires forall j :: k < j < |output| ==> !Truthy(output[j])
    ensures SelectInstallPath(output) == Success(Trim(output[k].value))
  {
    var r := SelectInstallPath(output);
    var i :| 0 <= i < |output| && Truthy(output[i]) && r.value == Trim(output[i].value)
             && forall j :: i < j < |output| ==> !Truthy(output[j]);
    assert i == k;
  }

  /** With stdout the only non-empty slot, its trimmed text is selected. */
  lemma SelectOnlySlot(s: string)
    requires s != ""
    ensures SelectInstallPath([None, Some(s), None]) == Success(Trim(s))
  {
    var output: seq<Option<string>> := [None, Some(s), None];
    assert !Truthy(output[2]);
    SelectLastTruthy(output, 1);
  }
}
