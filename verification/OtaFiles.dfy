/**
  The text files of the update scripts: `KEY=value` records (read_env_value, set_env_kv) and the kernel
  command line with its root argument (set_next_root_device, current_root_device).
 */
module OtaFiles {
  import opened Wrappers
  import opened Text

  // ------------------------------------------------------------ env records

  predicate PlainName(key: string) {
    '=' !in key && LfFree(key)
  }

  /** Does a line assign this key (sed's and grep's `^KEY=`)? */
  predicate Assigns(line: string, key: string) {
    StartsWith(line, key + "=")
  }

  /** `read_env_value`: the value of the last line that assigns the key; "" if none does. */
  function ReadEnv(lines: seq<string>, key: string): string {
    if lines == [] then ""
    else
      var n := |lines| - 1;
      if Assigns(lines[n], key) then lines[n][|key| + 1..] else ReadEnv(lines[..n], key)
  }

  function Without(lines: seq<string>, key: string): seq<string> {
    if lines == [] then []
    else
      var n := |lines| - 1;
      Without(lines[..n], key) + (if Assigns(lines[n], key) then [] else [lines[n]])
  }

  lemma AssignmentAssigns(key: string, value: string, other: string)
    requires PlainName(key) && PlainName(other)
    ensures Assigns(key + "=" + value, other) <==> key == other
    ensures key == other ==> (key + "=" + value)[|other| + 1..] == value
  {
    var line := key + "=" + value;
    if Assigns(line, other) {
      var p := other + "=";
      assert line[..|p|] == p;
      assert p[|other|] == '=' && line[|key|] == '=';
      assert forall i | 0 <= i < |p| :: line[i] == p[i];
      if |other| < |key| {
        assert false;
      }
      if |key| < |other| {
        assert false;
      }
      assert line[..|key|] == key && p[..|key|] == other;
    }
    if key == other {
      assert line[..|key| + 1] == key + "=";
    }
  }

  lemma OneLineAssignsOneKey(line: string, a: string, b: string)
    requires PlainName(a) && PlainName(b) && Assigns(line, a) && Assigns(line, b)
    ensures a == b
  {
    assert line == a + "=" + line[|a| + 1..];
    AssignmentAssigns(a, line[|a| + 1..], b);
  }

  lemma ReadEnvSnoc(lines: seq<string>, line: string, key: string)
    ensures ReadEnv(lines + [line], key) == if Assigns(line, key) then line[|key| + 1..] else ReadEnv(lines, key)
  {
    assert (lines + [line])[..|lines|] == lines;
  }

  lemma {:induction false} ReadWithout(lines: seq<string>, key: string, other: string)
    requires PlainName(key) && PlainName(other) && key != other
    ensures ReadEnv(Without(lines, key), other) == ReadEnv(lines, other)
  {
    if lines != [] {
      var n := |lines| - 1;
      ReadWithout(lines[..n], key, other);
      if Assigns(lines[n], key) {
        if Assigns(lines[n], other) {
          OneLineAssignsOneKey(lines[n], key, other);
        }
        assert Without(lines, key) == Without(lines[..n], key);
      } else {
        ReadEnvSnoc(Without(lines[..n], key), lines[n], other);
      }
    }
  }

  // ------------------------------------------------------- records in a file

  /** `read_env_value`, on the content of the file. */
  function ReadKey(content: string, key: string): string {
    ReadEnv(Lines(content), key)
  }

  /** One assignment as the scripts write it; a value with line feeds becomes several lines. */
  function Assignment(key: string, value: string): string {
    key + "=" + value + "\n"
  }

  /** `set_env_kv`: every old assignment is dropped and the new one comes last. */
  function SetKey(content: string, key: string, value: string): string {
    Terminated(Without(Lines(content), key)) + Assignment(key, value)
  }

  method ReadEnvValue(content: string, key: string) returns (value: string)
    ensures value == ReadKey(content, key)
  {
    value := "";
    var lines := ReadAllLines(content);
    for i := 0 to |lines|
      invariant value == ReadEnv(lines[..i], key)
    {
      assert lines[..i + 1][..i] == lines[..i];
      if StartsWith(lines[i], key + "=") {
        value := lines[i][|key| + 1..];
      }
    }
    assert lines[..|lines|] == lines;
  }

  method SetEnvKv(content: string, key: string, value: string) returns (result: string)
    ensures result == SetKey(content, key, value)
  {
    var lines := ReadAllLines(content);
    result := "";
    for i := 0 to |lines|
      invariant result == Terminated(Without(lines[..i], key))
    {
      assert lines[..i + 1][..i] == lines[..i];
      TerminatedAppend(Without(lines[..i], key), [lines[i]]);
      TerminatedOne(lines[i]);
      assert Without(lines[..i], key) + [] == Without(lines[..i], key);
      if !StartsWith(lines[i], key + "=") {
        result := result + (lines[i] + "\n");
      }
    }
    assert lines[..|lines|] == lines;
    result := result + (key + "=" + value + "\n");
  }

  lemma TerminatedOne(line: string)
    ensures Terminated([line]) == line + "\n"
  {
    assert [line][..0] == [];
    assert "" + line == line;
  }

  /** The lines that a value takes. */
  function ValueLines(value: string): (lines: seq<string>)
    ensures lines != []
  {
    NotNoLines(value);
    Lines(value + "\n")
  }

  lemma NotNoLines(value: string)
    ensures Lines(value + "\n") != []
  {
  }

  /** Those after its first, which are lines of the record on their own. */
  function ExtraLines(value: string): seq<string> {
    ValueLines(value)[1..]
  }

  lemma OneLineValue(value: string)
    ensures LfFree(value) <==> ExtraLines(value) == [] && ValueLines(value)[0] == value
    ensures LfFree(ValueLines(value)[0])
  {
    assert LfFree(Lines(value + "\n")[0]);
    if LfFree(value) {
      var content := value + "\n";
      IndexOfIs(content, '\n', |value|);
      assert content[..|value|] == value && content[|value| + 1..] == "";
    }
  }

  lemma AssignmentLines(key: string, value: string)
    requires PlainName(key)
    ensures Lines(Assignment(key, value)) == [key + "=" + ValueLines(value)[0]] + ExtraLines(value)
  {
    hide Lines;
    var line, rest := CutFirstLine(value + "\n");
    FirstLine(line, rest);
    FirstLine(key + "=" + line, rest);
    assert key + "=" + value + "\n" == key + "=" + (value + "\n");
    assert key + "=" + line + "\n" + rest == key + "=" + (line + "\n" + rest);
  }

  lemma {:induction false} KeptIsLfFree(lines: seq<string>, key: string)
    requires LinesLfFree(lines)
    ensures LinesLfFree(Without(lines, key))
  {
    if lines != [] {
      KeptIsLfFree(lines[..|lines| - 1], key);
    }
  }

  predicate AssignsAny(lines: seq<string>, key: string) {
    lines != [] && (Assigns(lines[|lines| - 1], key) || AssignsAny(lines[..|lines| - 1], key))
  }

  lemma {:induction false} ReadEnvAppend(a: seq<string>, b: seq<string>, key: string)
    ensures ReadEnv(a + b, key) == if AssignsAny(b, key) then ReadEnv(b, key) else ReadEnv(a, key)
    decreases |b|
  {
    if b == [] {
      assert a + b == a;
    } else {
      var n := |b| - 1;
      assert (a + b)[..|a + b| - 1] == a + b[..n];
      ReadEnvAppend(a, b[..n], key);
    }
  }

  lemma {:induction false} ReadIsLfFree(lines: seq<string>, key: string)
    requires LinesLfFree(lines)
    ensures LfFree(ReadEnv(lines, key))
  {
    if lines != [] {
      var n := |lines| - 1;
      assert LfFree(lines[n]);
      ReadIsLfFree(lines[..n], key);
    }
  }

  /** The lines that a value adds leave the reading of this key at `expected`. */
  predicate Harmless(value: string, key: string, expected: string) {
    AssignsAny(ExtraLines(value), key) ==> ReadEnv(ExtraLines(value), key) == expected
  }

  lemma LfFreeIsHarmless(value: string, key: string, expected: string)
    requires LfFree(value)
    ensures Harmless(value, key, expected)
  {
    OneLineValue(value);
  }

  /** What is read after an assignment was written to the end of a file. */
  lemma ReadAfterAssignment(content: string, key: string, value: string, other: string)
    requires WholeLines(content) && PlainName(key) && PlainName(other)
    ensures ReadKey(content + Assignment(key, value), other) ==
            if AssignsAny(ExtraLines(value), other) then ReadEnv(ExtraLines(value), other)
            else if other == key then ValueLines(value)[0]
            else ReadKey(content, other)
  {
    hide Lines, ValueLines, ExtraLines, ReadEnv, Assignment;
    LinesAppend(content, Assignment(key, value));
    AssignmentLines(key, value);
    var lines, first, extra := Lines(content), key + "=" + ValueLines(value)[0], ExtraLines(value);
    Regroup(lines, [first], extra);
    ReadEnvAppend(lines + [first], extra, other);
    ReadEnvSnoc(lines, first, other);
    AssignmentAssigns(key, ValueLines(value)[0], other);
  }

  lemma ReadAfterOneLine(content: string, key: string, value: string, other: string)
    requires WholeLines(content) && PlainName(key) && PlainName(other) && LfFree(value)
    ensures ReadKey(content + Assignment(key, value), other) == if other == key then value else ReadKey(content, other)
    ensures WholeLines(content + Assignment(key, value))
  {
    hide ReadKey, ExtraLines, ValueLines;
    ReadAfterAssignment(content, key, value, other);
    OneLineValue(value);
    NothingAssigned(other);
  }

  lemma ReadAfterSet(content: string, key: string, value: string, other: string)
    requires PlainName(key) && PlainName(other)
    ensures ReadKey(SetKey(content, key, value), other) ==
            if AssignsAny(ExtraLines(value), other) then ReadEnv(ExtraLines(value), other)
            else if other == key then ValueLines(value)[0]
            else ReadKey(content, other)
  {
    hide Lines, ValueLines, ExtraLines, ReadEnv, Without, Assignment;
    var kept := Without(Lines(content), key);
    KeptIsLfFree(Lines(content), key);
    LinesOfTerminated(kept);
    TerminatedEnds(kept);
    ReadAfterAssignment(Terminated(kept), key, value, other);
    if other != key {
      ReadWithout(Lines(content), key, other);
    }
  }

  /**
    On the files the two act as update and lookup of a map exactly as far as the value stays one line: the key
    is read back if and only if the value has no line feed, and another key is untouched if and only if the
    lines that the value adds do not assign it anew.
   */
  lemma EnvIsAMap(content: string, key: string, value: string, other: string)
    requires PlainName(key) && PlainName(other)
    ensures ReadKey(SetKey(content, key, value), key) == value <==> LfFree(value)
    ensures other != key ==>
              (ReadKey(SetKey(content, key, value), other) == ReadKey(content, other)
               <==> Harmless(value, other, ReadKey(content, other)))
  {
    hide Lines, ValueLines, ExtraLines, ReadEnv, SetKey;
    ReadAfterSet(content, key, value, key);
    ReadAfterSet(content, key, value, other);
    OneLineValue(value);
    NothingAssigned(key);
    ReadIsLfFree(Lines(SetKey(content, key, value)), key);
  }

  lemma NothingAssigned(key: string)
    ensures !AssignsAny([], key)
  {
  }

  lemma ReadKeyIsLfFree(content: string, key: string)
    ensures LfFree(ReadKey(content, key))
  {
    ReadIsLfFree(Lines(content), key);
  }

  // ----------------------------------------------------------- command line

  /**
    The command line as its arguments, separated by single spaces.  sed's pattern ` root=[^ ]*` is an
    argument other than the first one that starts with `root=`.
   */
  predicate IsRoot(arguments: seq<string>, i: nat) {
    1 <= i < |arguments| && StartsWith(arguments[i], "root=")
  }

  /** The first root argument from `from` on, which sed replaces; the length if there is none. */
  function FirstRoot(arguments: seq<string>, from: nat): (i: nat)
    requires from <= |arguments|
    ensures from <= i <= |arguments| && (i < |arguments| ==> IsRoot(arguments, i))
    ensures forall j | from <= j < i :: !IsRoot(arguments, j)
    decreases |arguments| - from
  {
    if from == |arguments| || IsRoot(arguments, from) then from else FirstRoot(arguments, from + 1)
  }

  /** The last root argument before `to`, which sed's greedy match reads; None if there is none. */
  function LastRoot(arguments: seq<string>, to: nat): (r: Option<nat>)
    ensures r.Some? ==>
              r.value < to && IsRoot(arguments, r.value) && forall j | r.value < j < to :: !IsRoot(arguments, j)
    ensures r.None? ==> forall j | 0 <= j < to :: !IsRoot(arguments, j)
  {
    if to == 0 then None else if IsRoot(arguments, to - 1) then Some(to - 1) else LastRoot(arguments, to - 1)
  }

  /** `set_next_root_device`: replace the first root argument, or append one. */
  function SetRoot(arguments: seq<string>, device: string): seq<string> {
    var i := FirstRoot(arguments, 0);
    if i == |arguments| then arguments + ["root=" + device] else arguments[i := "root=" + device]
  }

  /** `current_root_device`: the value of the last root argument. */
  function RootOf(arguments: seq<string>): Option<string> {
    match LastRoot(arguments, |arguments|)
    case None => None
    case Some(i) => Some(arguments[i][5..])
  }

  ghost predicate AtMostOneRoot(arguments: seq<string>) {
    forall i, j | 0 <= i < j < |arguments| && IsRoot(arguments, i) :: !IsRoot(arguments, j)
  }

  lemma LastRootIs(arguments: seq<string>, i: nat)
    requires IsRoot(arguments, i) && forall j | i < j < |arguments| :: !IsRoot(arguments, j)
    ensures LastRoot(arguments, |arguments|) == Some(i)
  {
    var r := LastRoot(arguments, |arguments|);
    if r.None? || r.value < i {
      assert false;
    }
  }

  /**
    After set_next_root_device the kernel boots from the given device, unless the line has a second root
    argument: the first one is replaced, but the last one is read.  All other arguments stay in place.
   */
  lemma NextRootIsSet(arguments: seq<string>, device: string)
    requires arguments != []
    ensures AtMostOneRoot(arguments) ==>
              RootOf(SetRoot(arguments, device)) == Some(device) && AtMostOneRoot(SetRoot(arguments, device))
    ensures !AtMostOneRoot(arguments) ==> RootOf(SetRoot(arguments, device)) == RootOf(arguments)
    ensures var after := SetRoot(arguments, device);
            if exists i :: IsRoot(arguments, i) then
              && |after| == |arguments|
              && forall i | 0 <= i < |arguments| && !IsRoot(arguments, i) :: after[i] == arguments[i]
            else
              after == arguments + ["root=" + device]
  {
    var root := "root=" + device;
    var i := FirstRoot(arguments, 0);
    var after := SetRoot(arguments, device);
    assert root[..5] == "root=" && root[5..] == device;
    assert IsRoot(after, i);
    assert forall j | 0 <= j < |arguments| && j != i :: IsRoot(after, j) <==> IsRoot(arguments, j);
    if AtMostOneRoot(arguments) {
      LastRootIs(after, i);
    } else {
      var last := LastRoot(arguments, |arguments|).value;
      var k, l :| 0 <= k < l < |arguments| && IsRoot(arguments, k) && IsRoot(arguments, l);
      assert i <= k < l <= last;
      LastRootIs(after, last);
    }
  }
}
