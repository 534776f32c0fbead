/** The environment dump parse and diff (`main`, index.js:155-174): the text
    printed by `set` after the developer command prompt ran is cut into
    `key=value` pairs, and the variables to export are chosen from them. */
module EnvDiff {
  import opened Base
  import opened Strings
  import opened ActionSettings

  /** One `key=value` line of the dump. */
  datatype EnvPair = EnvPair(key: string, value: string)

  const PathKey: string := "Path"

  // ---------------------------------------------------------------------------
  // Lines of the dump (index.js:155-160)
  // ---------------------------------------------------------------------------

  /** `s.split('\n')` of one output slot. */
  function SlotLines(slot: Option<string>): (pieces: seq<string>) {
    Split(slot.GetOr(""), '\n')
  }

  /** The `null`/`""` slots dropped, every slot split on `'\n'` and
      flattened, the empty pieces dropped, and each piece trimmed. */
  function OutputLines(output: seq<Option<string>>): (lines: seq<string>)
    ensures forall i :: 0 <= i < |lines| ==> '\n' !in lines[i] && IsTrimmed(lines[i])
  {
    var pieces := Flatten(Map(Filter(output, Truthy), SlotLines));
    var lines := Map(Filter(pieces, NonEmpty), Trim);
    assert forall i :: 0 <= i < |lines| ==> '\n' !in lines[i] by {
      PiecesHaveNoNewline(Filter(output, Truthy));
      FilterMembers(pieces, NonEmpty);
      forall i | 0 <= i < |lines| ensures '\n' !in lines[i] {
        var piece := Filter(pieces, NonEmpty)[i];
        assert piece in pieces;
        TrimKeepsAbsence(piece, '\n');
      }
    }
    lines
  }

  /** No piece of the split output holds a line feed. */
  lemma {:induction false} PiecesHaveNoNewline(slots: seq<Option<string>>)
    ensures forall x :: x in Flatten(Map(slots, SlotLines)) ==> '\n' !in x
  {
    if slots != [] {
      var m := Map(slots, SlotLines);
      assert m[1..] == Map(slots[1..], SlotLines);
      PiecesHaveNoNewline(slots[1..]);
      assert Flatten(m) == SlotLines(slots[0]) + Flatten(m[1..]);
      forall x | x in SlotLines(slots[0]) ensures '\n' !in x {
        var k :| 0 <= k < |SlotLines(slots[0])| && SlotLines(slots[0])[k] == x;
      }
    }
  }

  /** The lines come slot by slot, in slot order. */
  lemma OutputLinesAppend(a: seq<Option<string>>, b: seq<Option<string>>)
    ensures OutputLines(a + b) == OutputLines(a) + OutputLines(b)
  {
    FilterAppend(a, b, Truthy);
    MapAppend(Filter(a, Truthy), Filter(b, Truthy), SlotLines);
    FlattenAppend(Map(Filter(a, Truthy), SlotLines), Map(Filter(b, Truthy), SlotLines));
    var pa := Flatten(Map(Filter(a, Truthy), SlotLines));
    var pb := Flatten(Map(Filter(b, Truthy), SlotLines));
    FilterAppend(pa, pb, NonEmpty);
    MapAppend(Filter(pa, NonEmpty), Filter(pb, NonEmpty), Trim);
  }

  /** A slot that is `null` or `""` contributes no line. */
  lemma OutputLinesOfEmptySlot(slot: Option<string>)
    requires !Truthy(slot)
    ensures OutputLines([slot]) == []
  {
    assert Filter([slot], Truthy) == [];
  }

  /** A slot's lines are its non-empty `\n`-separated pieces, each trimmed,
      in order. With `OutputLinesAppend` and `JoinSplit` this fixes the lines
      of every output. */
  lemma OutputLinesOfSlot(pieces: seq<string>)
    requires forall i :: 0 <= i < |pieces| ==> '\n' !in pieces[i]
    requires Join(pieces, '\n') != ""
    ensures OutputLines([Some(Join(pieces, '\n'))]) == Map(Filter(pieces, NonEmpty), Trim)
  {
    var slot := Some(Join(pieces, '\n'));
    assert pieces != [];
    SplitJoin(pieces, '\n');
    assert Filter([slot], Truthy) == [slot];
    assert Map([slot], SlotLines) == [pieces];
    assert Flatten([pieces]) == pieces;
  }

  /** A dump printed on stdout with CR LF line ends gives its lines without
      the line ends, and the empty `null` slots give nothing. */
  lemma DumpLines(a: string, b: string)
    requires a != "" && b != "" && IsTrimmed(a) && IsTrimmed(b) && '\n' !in a && '\n' !in b
    ensures OutputLines([None, Some(a + "\r\n" + b + "\r\n"), None]) == [a, b]
  {
    var slot := Some(a + "\r\n" + b + "\r\n");
    CrLfSlotLines(a, b);
    OutputLinesOfEmptySlot(None);
    OutputLinesAppend([None], [slot]);
    OutputLinesAppend([None, slot], [None]);
    assert [None] + [slot] == [None, slot];
    assert [None, slot] + [None] == [None, slot, None];
  }

  /** The lines of one slot holding two CR LF-terminated lines. */
  lemma CrLfSlotLines(a: string, b: string)
    requires a != "" && b != "" && IsTrimmed(a) && IsTrimmed(b) && '\n' !in a && '\n' !in b
    ensures OutputLines([Some(a + "\r\n" + b + "\r\n")]) == [a, b]
  {
    var pieces := CrLfPieces(a, b);
    OutputLinesOfSlot(pieces);
    TrimTrailingWhitespace(a, "\r");
    TrimTrailingWhitespace(b, "\r");
    assert Map([a + "\r", b + "\r"], Trim) == [a, b];
  }

  /** The `\n`-pieces of two CR LF-terminated lines. */
  lemma CrLfPieces(a: string, b: string) returns (pieces: seq<string>)
    requires a != "" && b != "" && '\n' !in a && '\n' !in b
    ensures forall i :: 0 <= i < |pieces| ==> '\n' !in pieces[i]
    ensures Join(pieces, '\n') == a + "\r\n" + b + "\r\n"
    ensures Filter(pieces, NonEmpty) == [a + "\r", b + "\r"]
  {
    pieces := [a + "\r", b + "\r", ""];
    assert Join(pieces[2..], '\n') == "";
    assert Join(pieces[1..], '\n') == b + "\r" + "\n";
    assert pieces == [a + "\r", b + "\r"] + [""];
    FilterAppend([a + "\r", b + "\r"], [""], NonEmpty);
    FilterAll([a + "\r", b + "\r"], NonEmpty);
  }

  // ---------------------------------------------------------------------------
  // Pairs (index.js:162-164)
  // ---------------------------------------------------------------------------

  predicate HasEquals(line: string) {
    '=' in line
  }

  /** `line.split('=', 2)` read as `[key, value]`: the key is the text before
      the first `=`, the value the text between the first and the second `=`;
      whatever follows a second `=` is lost. (Lines without `=` never reach
      this; for them the value would be `undefined`, written here as `""`.) */
  function ParseLine(line: string): (p: EnvPair)
    ensures HasEquals(line) ==>
      && '=' !in p.key && '=' !in p.value
      && |p.key| + 1 + |p.value| <= |line|
      && line[..|p.key|] == p.key
      && line[|p.key|] == '='
      && line[|p.key| + 1..|p.key| + 1 + |p.value|] == p.value
      && (|p.key| + 1 + |p.value| == |line| || line[|p.key| + 1 + |p.value|] == '=')
  {
    var parts := SplitLimit(line, '=', 2);
    if |parts| < 2 then EnvPair(parts[0], "")
    else
      SplitShape(line, '=');
      EnvPair(parts[0], parts[1])
  }

  /** The inverse direction: a line built as `key=value`, optionally followed
      by `=` and more text, parses to that key and value. */
  lemma ParseLineOf(key: string, value: string, tail: string)
    requires '=' !in key && '=' !in value
    requires tail == "" || tail[0] == '='
    ensures ParseLine(key + "=" + value + tail) == EnvPair(key, value)
  {
    var line := key + "=" + value + tail;
    assert line == key + ['='] + (value + tail);
    SplitAfterPrefix(key, value + tail, '=');
    if tail == "" {
      assert value + tail == value;
      SplitWithoutSeparator(value, '=');
    } else {
      assert value + tail == value + ['='] + tail[1..];
      SplitAfterPrefix(value, tail[1..], '=');
    }
    assert Split(line, '=')[..2] == [key, value];
  }

  /** Everything after a second `=` is dropped from the value. */
  lemma ValueIsTruncated()
    ensures ParseLine("A=b=c") == EnvPair("A", "b")
  {
    ParseLineOf("A", "b", "=c");
    assert "A" + "=" + "b" + "=c" == "A=b=c";
  }

  /** `lines.filter(s => s.indexOf('=') != -1).map(s => s.split('=', 2))`. */
  function EnvPairs(lines: seq<string>): (pairs: seq<EnvPair>) {
    Map(Filter(lines, HasEquals), ParseLine)
  }

  /** One line gives its pair when it holds `=`, and nothing otherwise. */
  lemma EnvPairsSingle(line: string)
    ensures EnvPairs([line]) == if HasEquals(line) then [ParseLine(line)] else []
  {
    assert [line][1..] == [];
  }

  /** Pairs come line by line, in dump order. */
  lemma EnvPairsAppend(a: seq<string>, b: seq<string>)
    ensures EnvPairs(a + b) == EnvPairs(a) + EnvPairs(b)
  {
    FilterAppend(a, b, HasEquals);
    MapAppend(Filter(a, HasEquals), Filter(b, HasEquals), ParseLine);
  }

  /** Each pair comes from a line holding `=`, and every such line gives one. */
  lemma EnvPairsFromLines(lines: seq<string>)
    ensures forall i :: 0 <= i < |EnvPairs(lines)| ==>
              exists j :: 0 <= j < |lines| && HasEquals(lines[j]) && EnvPairs(lines)[i] == ParseLine(lines[j])
    ensures forall j :: 0 <= j < |lines| && HasEquals(lines[j]) ==> ParseLine(lines[j]) in EnvPairs(lines)
  {
    var kept := Filter(lines, HasEquals);
    FilterMembers(lines, HasEquals);
    forall i | 0 <= i < |EnvPairs(lines)|
      ensures exists j :: 0 <= j < |lines| && HasEquals(lines[j]) && EnvPairs(lines)[i] == ParseLine(lines[j])
    {
      assert kept[i] in lines;
      var j :| 0 <= j < |lines| && lines[j] == kept[i];
    }
    forall j | 0 <= j < |lines| && HasEquals(lines[j]) ensures ParseLine(lines[j]) in EnvPairs(lines) {
      assert lines[j] in kept;
      var i :| 0 <= i < |kept| && kept[i] == lines[j];
      assert EnvPairs(lines)[i] == ParseLine(lines[j]);
    }
  }

  // ---------------------------------------------------------------------------
  // The diff (index.js:165-174)
  // ---------------------------------------------------------------------------

  /** `!process.env[key]`: the variable is absent or empty. */
  predicate IsUnset(env: Env, key: string) {
    key !in env || env[key] == ""
  }

  function UnsetIn(env: Env): (unset: EnvPair -> bool) {
    (p: EnvPair) => IsUnset(env, p.key)
  }

  /** The pairs whose key is unset in the current environment, in dump order. */
  function NewEnvVars(pairs: seq<EnvPair>, env: Env): (r: seq<EnvPair>)
    ensures forall i :: 0 <= i < |r| ==> r[i] in pairs && IsUnset(env, r[i].key)
    ensures forall i :: 0 <= i < |pairs| && IsUnset(env, pairs[i].key) ==> pairs[i] in r
  {
    var r := Filter(pairs, UnsetIn(env));
    FilterMembers(pairs, UnsetIn(env));
    assert forall i :: 0 <= i < |r| ==> UnsetIn(env)(r[i]);
    assert forall i :: 0 <= i < |pairs| && IsUnset(env, pairs[i].key) ==> UnsetIn(env)(pairs[i]);
    r
  }

  /** New variables keep the dump order. */
  lemma NewEnvVarsAppend(a: seq<EnvPair>, b: seq<EnvPair>, env: Env)
    ensures NewEnvVars(a + b, env) == NewEnvVars(a, env) + NewEnvVars(b, env)
  {
    FilterAppend(a, b, UnsetIn(env));
  }

  /** One pair is new exactly when its key is unset. */
  lemma NewEnvVarsSingle(p: EnvPair, env: Env)
    ensures NewEnvVars([p], env) == if IsUnset(env, p.key) then [p] else []
  {
    assert [p][1..] == [];
  }

  predicate IsPathPair(p: EnvPair) {
    p.key == PathKey
  }

  function PairValue(p: EnvPair): (value: string) {
    p.value
  }

  /** The values of the pairs keyed exactly `Path`, in dump order. */
  function PathValues(pairs: seq<EnvPair>): (values: seq<string>) {
    Map(Filter(pairs, IsPathPair), PairValue)
  }

  /** The merged `Path`: every `Path` value joined with `;`. */
  function NewPath(pairs: seq<EnvPair>): (path: string) {
    Join(PathValues(pairs), ';')
  }

  /** `Path` values are collected in dump order. */
  lemma PathValuesAppend(a: seq<EnvPair>, b: seq<EnvPair>)
    ensures PathValues(a + b) == PathValues(a) + PathValues(b)
  {
    FilterAppend(a, b, IsPathPair);
    MapAppend(Filter(a, IsPathPair), Filter(b, IsPathPair), PairValue);
  }

  /** The key match is exact: only `Path` contributes, and each value does. */
  lemma PathValuesAreExactlyPathPairs(pairs: seq<EnvPair>)
    ensures forall i :: 0 <= i < |PathValues(pairs)| ==>
              exists j :: 0 <= j < |pairs| && pairs[j].key == PathKey && pairs[j].value == PathValues(pairs)[i]
    ensures forall j :: 0 <= j < |pairs| && pairs[j].key == PathKey ==> pairs[j].value in PathValues(pairs)
  {
    var kept := Filter(pairs, IsPathPair);
    FilterMembers(pairs, IsPathPair);
    forall i | 0 <= i < |PathValues(pairs)|
      ensures exists j :: 0 <= j < |pairs| && pairs[j].key == PathKey && pairs[j].value == PathValues(pairs)[i]
    {
      assert kept[i] in pairs;
      var j :| 0 <= j < |pairs| && pairs[j] == kept[i];
    }
    forall j | 0 <= j < |pairs| && pairs[j].key == PathKey ensures pairs[j].value in PathValues(pairs) {
      assert pairs[j] in kept;
      var i :| 0 <= i < |kept| && kept[i] == pairs[j];
      assert PathValues(pairs)[i] == pairs[j].value;
    }
  }

  /** One pair contributes its value exactly when its key is `Path`. */
  lemma PathValuesSingle(p: EnvPair)
    ensures PathValues([p]) == if p.key == PathKey then [p.value] else []
  {
    assert [p][1..] == [];
  }

  /** Without a `Path` pair the merged `Path` is `""`. */
  lemma NewPathWithoutPathPair(pairs: seq<EnvPair>)
    requires forall j :: 0 <= j < |pairs| ==> pairs[j].key != PathKey
    ensures NewPath(pairs) == ""
  {
    FilterNone(pairs, IsPathPair);
  }

  /** With exactly one `Path` pair the merged `Path` is its value, with no separator. */
  lemma NewPathOfOnePathPair(before: seq<EnvPair>, p: EnvPair, after: seq<EnvPair>)
    requires p.key == PathKey
    requires forall j :: 0 <= j < |before| ==> before[j].key != PathKey
    requires forall j :: 0 <= j < |after| ==> after[j].key != PathKey
    ensures NewPath(before + [p] + after) == p.value
  {
    FilterNone(before, IsPathPair);
    FilterNone(after, IsPathPair);
    PathValuesAppend(before + [p], after);
    PathValuesAppend(before, [p]);
    PathValuesSingle(p);
  }

  /** Several `Path` lines are joined with `;` in dump order: the merged value
      splits back into the individual values when none of them holds `;`. */
  lemma NewPathSplitsBack(pairs: seq<EnvPair>)
    requires PathValues(pairs) != []
    requires forall i :: 0 <= i < |PathValues(pairs)| ==> ';' !in PathValues(pairs)[i]
    ensures Split(NewPath(pairs), ';') == PathValues(pairs)
  {
    SplitJoin(PathValues(pairs), ';');
  }

  /** The export list: every new variable in dump order, then `Path` once
      with the merged value. */
  function ExportPlan(pairs: seq<EnvPair>, env: Env): (plan: seq<EnvPair>)
    ensures |plan| >= 1 && plan[|plan| - 1] == EnvPair(PathKey, NewPath(pairs))
    ensures plan[..|plan| - 1] == NewEnvVars(pairs, env)
    ensures forall i :: 0 <= i < |plan| - 1 ==> plan[i] in pairs && IsUnset(env, plan[i].key)
    ensures forall i :: 0 <= i < |pairs| && IsUnset(env, pairs[i].key) ==> pairs[i] in plan[..|plan| - 1]
  {
    var plan := NewEnvVars(pairs, env) + [EnvPair(PathKey, NewPath(pairs))];
    assert plan[..|plan| - 1] == NewEnvVars(pairs, env);
    plan
  }

  /** A variable already set in the environment is exported only as `Path`. */
  lemma SetVariablesAreNotExported(pairs: seq<EnvPair>, env: Env, key: string)
    requires key in env && env[key] != ""
    ensures forall i :: 0 <= i < |ExportPlan(pairs, env)| && ExportPlan(pairs, env)[i].key == key ==>
              i == |ExportPlan(pairs, env)| - 1 && key == PathKey
  {
  }

  /** The dump `FOO=1`, `PATH=C:\a`, `BAR=2` with only `BAR=2` set exports
      `FOO` and `PATH` as new variables; as no key is exactly `Path`, the
      merged `Path` is the empty string. */
  lemma ExportExample()
    ensures ExportPlan(EnvPairs(["FOO=1", "PATH=C:\\a", "BAR=2"]), map["BAR" := "2"])
            == [EnvPair("FOO", "1"), EnvPair("PATH", "C:\\a"), EnvPair(PathKey, "")]
  {
    ExamplePairs("FOO", "1", "PATH", "C:\\a", "BAR", "2");
    assert "FOO" + "=" + "1" == "FOO=1";
    assert "PATH" + "=" + "C:\\a" == "PATH=C:\\a";
    assert "BAR" + "=" + "2" == "BAR=2";
    ExamplePlan(EnvPair("FOO", "1"), EnvPair("PATH", "C:\\a"), EnvPair("BAR", "2"), map["BAR" := "2"]);
  }

  /** Three `key=value` lines with `=`-free keys and values give their pairs. */
  lemma ExamplePairs(k1: string, v1: string, k2: string, v2: string, k3: string, v3: string)
    requires '=' !in k1 && '=' !in v1 && '=' !in k2 && '=' !in v2 && '=' !in k3 && '=' !in v3
    ensures EnvPairs([k1 + "=" + v1, k2 + "=" + v2, k3 + "=" + v3])
            == [EnvPair(k1, v1), EnvPair(k2, v2), EnvPair(k3, v3)]
  {
    var lines := [k1 + "=" + v1, k2 + "=" + v2, k3 + "=" + v3];
    ParseLineOf(k1, v1, "");
    ParseLineOf(k2, v2, "");
    ParseLineOf(k3, v3, "");
    assert k1 + "=" + v1 + "" == lines[0];
    assert k2 + "=" + v2 + "" == lines[1];
    assert k3 + "=" + v3 + "" == lines[2];
    assert lines[0][|k1|] == '=' && lines[1][|k2|] == '=' && lines[2][|k3|] == '=';
    FilterAll(lines, HasEquals);
  }

  /** Two new variables and one already set, none of them keyed `Path`. */
  lemma ExamplePlan(p1: EnvPair, p2: EnvPair, p3: EnvPair, env: Env)
    requires p1.key != PathKey && p2.key != PathKey && p3.key != PathKey
    requires IsUnset(env, p1.key) && IsUnset(env, p2.key) && !IsUnset(env, p3.key)
    ensures ExportPlan([p1, p2, p3], env) == [p1, p2, EnvPair(PathKey, "")]
  {
    var pairs := [p1, p2, p3];
    FilterNone(pairs, IsPathPair);
    assert pairs == [p1, p2] + [p3];
    FilterAppend([p1, p2], [p3], UnsetIn(env));
    FilterAll([p1, p2], UnsetIn(env));
    FilterNone([p3], UnsetIn(env));
  }
}
