# setup-vsdevenv, modelled in Dafny

This project models a GitHub Action that sets up a Visual Studio developer
environment on a Windows runner. When it runs, the action:

1. resolves its settings from the action inputs and the host environment
   (host and target architecture, toolset and SDK versions, the locator
   executable, the required components, verbosity);
2. asks the installation locator, `vswhere`, for the newest installation
   that has every required component;
3. reports that path as the `install_path` output;
4. starts `cmd` on the installation's `vsdevcmd.bat` with the matching
   `-host_arch=`, `-arch=`, `-vcvars_ver=` and `-winsdk=` flags, followed by
   `&& set`;
5. parses the environment dump that `set` prints;
6. exports every variable the runner does not already have, then `Path`.

The project has seven files:

- `base.dfy`: Option, Result, the error kinds and their messages, and
  JavaScript truthiness of an optional string.
- `strings.dfy`: the JavaScript library behaviour the action relies on,
  on strings of Unicode scalar values, and exact except that lower-casing
  covers ASCII letters only. This covers `split` (with and without a limit), `join`,
  `filter`, `map`, flattening by `reduce(concat)`, `trim` over the
  ECMAScript white-space and line-terminator characters, and lower-casing.
- `settings.dfy`: `getSettings`, as an imperative method.
- `locator.dfy`: the locator arguments and the install-path selection.
- `devcmd.dfy`: `getVSDevCmdArgs` and the shell arguments.
- `envdiff.dfy`: the parse of the dump and the diff against the current
  environment.
- `action.dfy`: the host framework as a class that records outputs,
  exported variables and the failure. It also holds the export loop and
  the whole run.

Three behaviours of the code are easy to misread:

- **The locator output is not split into lines.** Every slot of the
  child-process output is trimmed as a whole. That includes the stderr slot.
  A whitespace-only slot passes the `!!s` filter and trims to `""`
  (`Locator.WhitespaceSlotGivesEmptyPath`). Two paths printed on stdout
  come back as one string spanning both lines
  (`Locator.MultiLineSlotIsKeptWhole`).
- **`split('=', 2)` truncates.** A value that holds `=` keeps only the text
  before its first `=` (`EnvDiff.ValueIsTruncated`).
- **Only `Path` counts toward the merged `Path`.** The key must be exactly
  `Path`, and the merged value is exported even when no line has that key.
  A dump that spells the key `PATH` is exported as a new variable `PATH`
  when the environment has no variable of that name, and `Path` is then
  exported as `""` (`EnvDiff.ExportExample`). The environment here is an
  exact-key map. On Windows, `process.env['PATH']` also finds a variable
  spelled `Path`, so there the key is not exported (see the last lines of
  "## Left out").

## Model

| member | source | states |
|---|---|---|
| `Base.Truthy` | index.js:109 | `!!s` on an output slot: present and not `""` (also index.js:121, 123 and 156) |
| `Base.Message` | index.js:178 | `error.message` for each error kind: the engine's `TypeError` text for a missing `PROCESSOR_ARCHITECTURE`, the spawn error's own message, and "Could not find compatible VS installation" |
| `ActionSettings.OrNull` | index.js:32 | `input \|\| null`: absent exactly when the input is empty, else the input itself |
| `ActionSettings.ComponentList` | index.js:34-37 | `split(';')` then `filter(s => s.length != 0)`; fixed by `ComponentListSingle` and `ComponentListConcat`, and characterised by `ComponentListEntries` |
| `ActionSettings.ComponentListEntries` | index.js:34-37 | every component is a non-empty, `;`-free segment of the input, and every non-empty segment is kept |
| `ActionSettings.ComponentListConcat` | index.js:34-37 | the components of `a;b` are those of `a` followed by those of `b`, so input order is kept |
| `ActionSettings.ComponentListDropsEmptySegments` | index.js:34-37 | empty segments vanish wherever they are: `a;;b;` gives `[a, b]` |
| `ActionSettings.ComponentListSingle` | index.js:34-37 | a `;`-free input is one component, or none when empty |
| `ActionSettings.DefaultComponent` | index.js:41-54 | `arm64`, `arm64ec` and `arm` get their own compiler component; every other value gets the x86/x64 one |
| `ActionSettings.DefaultComponentIsCaseSensitive` | index.js:41-54 | the match is exact: `ARM64`, `Arm` and `amd64` get the x86/x64 component |
| `ActionSettings.Resolved` | index.js:28-65 | the field equations of the settings object: each input or its default, `null` for empty optional inputs, the default component appended only without a toolset version, `verbose` only for `true`; `GetSettings` and `Action.Run` ensure it |
| `ActionSettings.GetSettings` | index.js:25-67 | fails exactly when `host_arch` is empty and `PROCESSOR_ARCHITECTURE` is absent. Otherwise the settings are `Resolved`, which gives every field: the input, or else the lower-cased variable, and then the host architecture for `arch`; `null` for empty optional inputs; the filtered component list, plus the default component only when no toolset version is given; `verbose` only for the exact string `true` |
| `ActionSettings.AppendedComponent` | index.js:39-55 | at most one component is appended, at the end, and only when no toolset version is given; the requested components stay in front |
| `Locator.VSWhereName` | index.js:70 | the configured locator name when it is set, else `vswhere.exe` |
| `Locator.RequiresArgs` | index.js:84-86 | one `-requires` flag before each component, in component order, and nothing else |
| `Locator.ParseRequiresArgs` | index.js:84-86 | reading the `-requires` pairs back gives exactly the component list |
| `Locator.LocatorArgs` | index.js:88-95 | the fixed six-argument query prefix, then `-requires` pairs that read back as the settings' components |
| `Locator.DiagnosticArgs` | index.js:103 | the fixed four-argument diagnostic prefix, then `-requires` pairs that read back as the settings' components |
| `Locator.TrimSlot` | index.js:110 | `s => s.trim()` on a slot that passed the filter; its text is `Strings.Trim` of the slot |
| `Locator.InstallPathList` | index.js:108-110 | the truthy slots, each trimmed, in slot order (`Strings.Filter` then `Strings.Map`); `SelectInstallPath` states its last element |
| `Locator.SelectInstallPath` | index.js:108-114 | fails with "Could not find compatible VS installation" exactly when every output slot is `null` or `""`. Otherwise it gives the trimmed text of the last slot that is neither |
| `Locator.FindInstallPath` | index.js:99-116 | a locator that could not be started gives its error; otherwise the path is selected from its output slots |
| `Locator.SelectSkipsEmptySlots` | index.js:108-112 | empty slots are skipped, so the last real slot wins; a run with no real slot fails |
| `Locator.WhitespaceSlotGivesEmptyPath` | index.js:108-114 | a whitespace-only last slot is selected and yields an empty install path |
| `Locator.TrimCrLf` | index.js:110 | trimming a trimmed non-empty line followed by CR LF gives the line back |
| `Locator.MultiLineSlotIsKeptWhole` | index.js:108-114 | two lines on stdout are not separated: the selected path is both lines, with only the outer whitespace removed |
| `Locator.SelectLastTruthy` | index.js:108-114 | the slot selected is the last one that is neither `null` nor `""` |
| `Locator.SelectOnlySlot` | index.js:108-114 | with stdout the only real slot, its trimmed text is the path |
| `DevCmd.GetVSDevCmdArgs` | index.js:119-125 | the host and target flags come first; `-vcvars_ver=` is added only for a truthy toolset version and `-winsdk=` only for a truthy SDK, in that order |
| `DevCmd.CmdArgs` | index.js:149 | `/q /k <script>`, then the developer-prompt arguments unchanged, then `&& set` |
| `EnvDiff.SlotLines` | index.js:157 | `s.split('\n')` of one slot; its pieces are fixed by `Strings.Split`, `JoinSplit` and `SplitJoin` |
| `EnvDiff.OutputLines` | index.js:155-160 | every line of the dump is free of line feeds and already trimmed |
| `EnvDiff.PiecesHaveNoNewline` | index.js:157-158 | splitting on `'\n'` and flattening leaves no line feed in any piece |
| `EnvDiff.OutputLinesAppend` | index.js:155-160 | lines come slot by slot, in slot order |
| `EnvDiff.OutputLinesOfEmptySlot` | index.js:156 | a `null` or `""` slot contributes no line |
| `EnvDiff.OutputLinesOfSlot` | index.js:155-160 | a slot's lines are its non-empty `\n`-separated pieces, each trimmed, in order; with `OutputLinesAppend` and `Strings.JoinSplit` this fixes the lines of every output |
| `EnvDiff.DumpLines` | index.js:155-160 | `[null, "a\r\nb\r\n", null]` gives the lines `a` and `b` |
| `EnvDiff.CrLfSlotLines` | index.js:157-160 | one slot of two CR LF-terminated lines gives the two lines |
| `EnvDiff.CrLfPieces` | index.js:157-159 | two CR LF-terminated lines split on `\n` into two non-empty pieces and an empty one |
| `EnvDiff.ParseLine` | index.js:164 | for a line holding `=`: the key is the text before the first `=`, and the value is the `=`-free text up to the end or to the second `=` |
| `EnvDiff.ParseLineOf` | index.js:164 | a line built as `key=value`, optionally followed by `=` and more, parses back to that key and value |
| `EnvDiff.ValueIsTruncated` | index.js:164 | `A=b=c` parses to key `A` and value `b` |
| `EnvDiff.EnvPairs` | index.js:162-164 | the pairs of the lines holding `=`; fixed by `EnvPairsSingle` and `EnvPairsAppend`, and characterised by `EnvPairsFromLines` |
| `EnvDiff.EnvPairsFromLines` | index.js:162-164 | each pair comes from a line holding `=`, and every such line gives its pair |
| `EnvDiff.EnvPairsSingle` | index.js:162-164 | one line gives its pair exactly when it holds `=`, and nothing otherwise |
| `EnvDiff.EnvPairsAppend` | index.js:162-164 | pairs come line by line, in dump order; with `EnvPairsSingle` this fixes the pair list, with no duplicates |
| `EnvDiff.IsUnset` | index.js:165 | `!process.env[key]`: the key is absent, or its value is `""` |
| `EnvDiff.NewEnvVars` | index.js:165 | the new variables are exactly the dump pairs whose key is absent or empty in the current environment |
| `EnvDiff.NewEnvVarsAppend` | index.js:165 | the new variables keep dump order |
| `EnvDiff.NewEnvVarsSingle` | index.js:165 | one pair is new exactly when its key is unset; with `NewEnvVarsAppend` this fixes the list: each unset pair once, in dump order, and nothing else |
| `EnvDiff.PathValues` | index.js:166-168 | the values of the pairs keyed exactly `Path`, in dump order; fixed by `PathValuesSingle` and `PathValuesAppend`, and characterised by `PathValuesAreExactlyPathPairs` |
| `EnvDiff.NewPath` | index.js:166-169 | the `Path` values joined with `;`; stated by `NewPathWithoutPathPair`, `NewPathOfOnePathPair` and `NewPathSplitsBack` |
| `EnvDiff.PathValuesAppend` | index.js:166-168 | `Path` values are collected in dump order |
| `EnvDiff.PathValuesAreExactlyPathPairs` | index.js:166-168 | the values collected are exactly those of the pairs keyed exactly `Path` |
| `EnvDiff.PathValuesSingle` | index.js:166-168 | one pair contributes its value exactly when its key is `Path` |
| `EnvDiff.NewPathWithoutPathPair` | index.js:166-169 | without a pair keyed `Path` the merged `Path` is `""` |
| `EnvDiff.NewPathOfOnePathPair` | index.js:166-169 | with exactly one pair keyed `Path`, wherever it is, the merged `Path` is its value, with no separator |
| `EnvDiff.NewPathSplitsBack` | index.js:166-169 | the merged `Path` splits on `;` back into the individual values when none holds `;` |
| `EnvDiff.ExportPlan` | index.js:171-174 | the exports before the last are exactly the new variables, each an unset dump pair, with every unset pair among them; the last export is `Path` with the merged value |
| `EnvDiff.SetVariablesAreNotExported` | index.js:165-174 | a variable already set in the environment is exported only as the final `Path` |
| `EnvDiff.ExportExample` | index.js:162-174 | the dump `FOO=1`, `PATH=C:\a`, `BAR=2` with `BAR` set exports `FOO`, `PATH` and then `Path` as `""` |
| `EnvDiff.ExamplePairs` | index.js:162-164 | three `=`-free `key=value` lines give their pairs in order |
| `EnvDiff.ExamplePlan` | index.js:165-174 | two unset non-`Path` pairs and one set pair export the two, then `Path` as `""` |
| `Action.ActionHost.SetOutput` | index.js:138 | appends one output, as a name and a value, and changes nothing else |
| `Action.ActionHost.ExportVariable` | index.js:172 | appends one exported variable and changes nothing else |
| `Action.ActionHost.SetFailed` | index.js:178 | records the failure message and changes nothing else |
| `Action.ExportAll` | index.js:171-174 | the exports are the new variables in order, then `Path`; nothing else changes |
| `Action.IsShellCall` | index.js:148-152 | the shell start: program `cmd` and every argument, `/q /k <script>`, the host and target flags, `-vcvars_ver=` and `-winsdk=` only when truthy, then `&& set` |
| `Action.StartShell` | index.js:147-174 | the shell is `cmd` with exactly the arguments of `IsShellCall`: `/q /k <script>`, the host and target flags, `-vcvars_ver=` and `-winsdk=` only when truthy, then `&& set`. A spawn error becomes the failure with nothing exported; otherwise the whole export plan of the dump is exported |
| `Action.Provision` | index.js:137-174 | the locator is started with the settings' locator name and arguments. In verbose mode, once the locator started, the diagnostic query follows. A failed lookup becomes the failure with no output. Otherwise `install_path` is reported and the shell is started on the script of that installation |
| `Action.Run` | index.js:127-180 | fails on missing settings with nothing started or reported. Otherwise the settings are `Resolved` from the inputs and the environment, and the locator is started with `LocatorArgs` of them. A failed lookup becomes the failure without output or exports. Otherwise it reports `install_path` and starts the shell as `IsShellCall` states. It then either fails with the shell's spawn error or exports exactly the export plan of the dump, with no failure |
| `Strings.FlattenMembers` | index.js:158 | the flattened list holds exactly the elements of the inner lists |
| `Strings.Flatten` | index.js:158 | `reduce((arr, sub) => arr.concat(sub), [])`, also at index.js:86; stated by `FlattenMembers` and `FlattenAppend` |
| `Strings.Map` | index.js:110 | `xs.map(f)`: the same length, with `f` applied at every index (also index.js:157, 160, 164 and 168) |
| `Strings.Split` | index.js:36 | at least one segment; no segment holds the separator; a single segment exactly when the separator is absent |
| `Strings.SplitLimit` | index.js:164 | a prefix of the unlimited split, of at most the limit |
| `Strings.Join` | index.js:169 | `xs.join(sep)`, with `[]` giving `""`; stated by `JoinSplit`, `SplitJoin` and `EnvDiff.NewPathWithoutPathPair` |
| `Strings.JoinSplit` | index.js:169 | joining the segments of a split gives back the string |
| `Strings.SplitJoin` | index.js:169 | splitting a join of separator-free strings gives back the list |
| `Strings.Filter` | index.js:37 | keeps only elements satisfying the predicate, and no more of them than the input; fixed by `FilterAppend`, `FilterAll` and `FilterNone` |
| `Strings.FilterMembers` | index.js:37 | every kept element is from the input, and every input element satisfying the predicate is kept |
| `Strings.FilterLast` | index.js:114 | the last kept element is the last input element satisfying the predicate |
| `Strings.Trim` | index.js:110 | the result is trimmed and is a contiguous infix of the input |
| `Strings.TrimRemovesWhitespace` | index.js:110 | everything removed on either side is white space |
| `Strings.TrimTrailingWhitespace` | index.js:160 | whitespace after a trimmed non-empty string is all that trimming removes |
| `Strings.TrimOfBlank` | index.js:110 | a white-space-only string trims to `""` |
| `Strings.Lower` | index.js:30 | same length; each ASCII upper-case letter is mapped to lower case, and every other character is kept |

## Left out

- The subscription check (index.js:7-22) is a network call. Its only effects are an exit or a log line.
- The platform check (index.js:131-133) is not modelled: the model starts where the action runs on Windows.
- The child processes are not run. `Action.Run` takes what each of them returned (`SpawnResult`) as a parameter.
- The locator's full path is not modelled. That is the `path.win32.join`/`resolve` against `ProgramFiles(x86)` (index.js:71-76). The locator is modelled by its name (`Locator.VSWhereName`) and its arguments. When `ProgramFiles(x86)` is absent, that join throws a `TypeError` and the run fails before the locator starts. The model does not capture this failure: `Action.Run` reports the locator start for every environment.
- The script path inside the installation (index.js:140-145) is a parameter of `Action.Run`, because it is a Windows path join.
- The verbose diagnostic run (index.js:102-106) is modelled only as the process it starts (`Action.Provision`). Its output only goes to the log. If that run could not start, `details.output.join` would throw, and the model does not capture this.
- A started process is named by the locator's name or `cmd`, not by a resolved path.
- Logging, the `console.log` lines, is left out.
- `core.getInput` is taken as already applied. An input is a string, `""` when unset. The framework's own whitespace trimming of inputs is not modelled.
- Strings are sequences of Unicode scalar values, not UTF-16 code units.
- `Strings.Lower`: only ASCII letters are lower-cased. JavaScript's `toLowerCase` also maps the rest of Unicode. The architecture names involved are ASCII.
- The environment is an exact-key map. The case-insensitive variable lookup of Windows (`process.env['path']` finding `Path`) is not modelled.
- `ActionSettings.GetSettings`: models the missing `PROCESSOR_ARCHITECTURE` case as the `TypeError` it raises, with JavaScript's message. The exact message text depends on the engine.
