/**
  Files of `key=value` lines: the daemon's way of reading a line, webd's way of extracting a value,
  and webd's rewriting of managed keys in place.  Everything here is about the lines of a file and
  an arbitrary list of managed keys; `ChimeFile` fixes the keys of `/etc/chime.conf`.
 */
module KeyFile {
  import opened Wrappers
  import opened Text

  /** Keys as the programs use them: no blank at either end, no '=' inside, not a comment. */
  predicate PlainKey(k: string) {
    k != "" && Trimmed(k) && '=' !in k && k[0] != '#'
  }

  // ---------------------------------------------------------- reading a line

  /** How `load` and `SaveChimeConfig` take a line apart; None for blanks, comments and no '='. */
  function ParseLine(line: string): Option<(string, string)> {
    var t := Trim(line);
    if t == "" || t[0] == '#' then None
    else
      var i := IndexOf(t, '=');
      if i == |t| then None else Some((Trim(t[..i]), Trim(t[i + 1..])))
  }

  predicate HasKey(line: string, k: string) {
    var p := ParseLine(line);
    p.Some? && p.value.0 == k
  }

  /** What `ExtractConfigValue` looks for: the trimmed line begins with the key and '=', no blank between. */
  predicate Canonical(line: string, k: string) {
    var t := Trim(line);
    t != "" && t[0] != '#' && StartsWith(t, k + "=")
  }

  function CanonicalValue(line: string, k: string): string
    requires Canonical(line, k)
  {
    Trim(Trim(line)[|k| + 1..])
  }

  lemma TrimRightKeepsFront(a: string, v: string)
    requires a != "" && !IsBlank(a[|a| - 1])
    ensures TrimRight(a + v) == a + TrimRight(v)
  {
    if v == "" {
      assert a + v == a;
    } else {
      assert (a + v)[..|a + v| - 1] == a + v[..|v| - 1];
      TrimRightKeepsFront(a, v[..|v| - 1]);
    }
  }

  lemma TrimOfTrimRight(v: string)
    ensures Trim(TrimRight(v)) == Trim(v)
  {
    var r := TrimRightSplit(v);
    assert "" + TrimRight(v) + r == v;
    TrimAround("", TrimRight(v), r);
  }

  lemma TrimOfAssignment(k: string, v: string)
    requires PlainKey(k)
    ensures Trim(k + "=" + v) == k + "=" + TrimRight(v)
  {
    assert k + "=" + v == (k + "=") + v;
    TrimRightKeepsFront(k + "=", v);
  }

  /** A line that webd writes is read back by both readers as the trimmed value. */
  lemma WrittenLine(k: string, v: string)
    requires PlainKey(k)
    ensures ParseLine(k + "=" + v) == Some((k, Trim(v)))
    ensures Canonical(k + "=" + v, k) && CanonicalValue(k + "=" + v, k) == Trim(v)
  {
    TrimOfAssignment(k, v);
    var t := Trim(k + "=" + v);
    IndexOfIs(t, '=', |k|);
    assert t[..|k|] == k && t[..|k| + 1] == k + "=" && t[|k| + 1..] == TrimRight(v);
    TrimFixed(k);
    TrimOfTrimRight(v);
  }

  /** Every line that webd's reader takes for a key is taken for it by the daemon, with the same value. */
  lemma CanonicalIsParsed(line: string, k: string)
    requires PlainKey(k) && Canonical(line, k)
    ensures ParseLine(line) == Some((k, CanonicalValue(line, k)))
  {
    var t := Trim(line);
    assert t[..|k| + 1] == k + "=";
    assert t[|k|] == (k + "=")[|k|];
    forall i | 0 <= i < |k| ensures t[i] != '=' {
      assert t[i] == (k + "=")[i];
    }
    IndexOfIs(t, '=', |k|);
    assert t[..|k|] == k by {
      assert (k + "=")[..|k|] == k;
      assert t[..|k|] == t[..|k| + 1][..|k|];
    }
    TrimFixed(k);
  }

  /**
    The lines that assign a key, with blanks wherever they are allowed: to the daemon all of them, to webd those without
    one before '='.
   */
  lemma AssignmentIsRead(a: string, k: string, b: string, c: string, v: string, d: string)
    requires AllBlank(a) && AllBlank(b) && AllBlank(c) && AllBlank(d) && PlainKey(k) && Trimmed(v) && v != ""
    ensures var line := a + k + b + "=" + c + v + d;
            && ParseLine(line) == Some((k, v))
            && (Canonical(line, k) <==> b == "")
            && (b == "" ==> CanonicalValue(line, k) == v)
  {
    hide Trim;
    var line := a + k + b + "=" + c + v + d;
    TrimmedEntry(a, k, b, c, v, d);
    var t := Trim(line);
    assert t[..|k + b|] + "=" == t[..|k + b| + 1];
    if b == "" {
      assert k + b == k;
      EntryStarts(a, k, c, v, d);
    } else {
      EntryDoesNotStart(a, k, b, c, v, d);
    }
  }

  lemma EntryStarts(a: string, k: string, c: string, v: string, d: string)
    requires AllBlank(a) && AllBlank(c) && AllBlank(d) && PlainKey(k) && Trimmed(v) && v != ""
    ensures StartsWith(Trim(a + k + "" + "=" + c + v + d), k + "=")
  {
    hide Trim;
    var t := k + "=" + c + v;
    assert a + k + "" + "=" + c + v + d == a + t + d;
    assert t[0] == k[0] && t[|t| - 1] == v[|v| - 1];
    TrimUnique(a, t, d);
    assert t[..|k| + 1] == k + "=";
  }

  lemma EntryDoesNotStart(a: string, k: string, b: string, c: string, v: string, d: string)
    requires AllBlank(a) && AllBlank(b) && AllBlank(c) && AllBlank(d) && PlainKey(k) && Trimmed(v) && v != "" && b != ""
    ensures !StartsWith(Trim(a + k + b + "=" + c + v + d), k + "=")
  {
    hide Trim;
    var t := k + b + "=" + c + v;
    assert a + k + b + "=" + c + v + d == a + t + d;
    assert t[0] == k[0] && t[|t| - 1] == v[|v| - 1];
    TrimUnique(a, t, d);
    assert t[|k|] == b[0] && IsBlank(b[0]);
    assert t[..|k| + 1][|k|] == t[|k|] && (k + "=")[|k|] == '=';
  }

  /** Comments, and lines without an equals sign, assign nothing. */
  lemma OtherLinesAssignNothing(a: string, rest: string, k: string)
    requires AllBlank(a) && PlainKey(k)
    ensures ParseLine(a + "#" + rest) == None && !Canonical(a + "#" + rest, k)
    ensures '=' !in rest ==> ParseLine(rest) == None && !Canonical(rest, k)
  {
    hide Trim;
    var line := a + "#" + rest;
    var l, r := TrimSplit("#" + rest);
    assert Trim(line) == Trim("#" + rest) by {
      assert line == a + ("#" + rest) + "";
      TrimAround(a, "#" + rest, "");
    }
    CommentStaysComment(rest);
    if '=' !in rest {
      if '=' in Trim(rest) {
        TrimKeepsChars(rest, '=');
      }
      var t := Trim(rest);
      assert IndexOf(t, '=') == |t|;
      assert |k + "="| <= |t| ==> t[..|k + "="|][|k|] == t[|k|] && (k + "=")[|k|] == '=';
    }
  }

  lemma CommentStaysComment(rest: string)
    ensures Trim("#" + rest) != "" && Trim("#" + rest)[0] == '#'
  {
    var s := "#" + rest;
    assert !IsBlank(s[0]);
    assert TrimLeft(s) == s;
    var r := TrimRightSplit(s);
    assert TrimRight(s) == "" ==> r == s;
  }

  // ---------------------------------------------------------- reading a file

  /** The values that the daemon's loop meets for a key, in file order. */
  function Values(lines: seq<string>, k: string): seq<string> {
    if lines == [] then []
    else
      var n := |lines| - 1;
      Values(lines[..n], k) + (if HasKey(lines[n], k) then [ParseLine(lines[n]).value.1] else [])
  }

  /** webd's reader: the last line that begins with the key and '=' wins; "" without any. */
  function Extracted(lines: seq<string>, k: string): string {
    if lines == [] then ""
    else
      var n := |lines| - 1;
      if Canonical(lines[n], k) then CanonicalValue(lines[n], k) else Extracted(lines[..n], k)
  }

  method ExtractConfigValue(lines: seq<string>, key: string) returns (output: string)
    ensures output == Extracted(lines, key)
  {
    output := "";
    var prefix := key + "=";
    for i := 0 to |lines|
      invariant output == Extracted(lines[..i], key)
    {
      assert lines[..i + 1][..i] == lines[..i];
      var trimmed := Trim(lines[i]);
      if trimmed == "" || trimmed[0] == '#' {
        continue;
      }
      if StartsWith(trimmed, prefix) {
        output := Trim(trimmed[|prefix|..]);
      }
    }
    assert lines[..|lines|] == lines;
  }

  lemma ValuesAppend(a: seq<string>, b: seq<string>, k: string)
    ensures Values(a + b, k) == Values(a, k) + Values(b, k)
  {
    if b == [] {
      assert a + b == a;
    } else {
      var n := |b| - 1;
      assert (a + b)[..|a + b| - 1] == a + b[..n];
      ValuesAppend(a, b[..n], k);
    }
  }

  /** A line is read after all lines before it: it gives its key the last value, and other keys keep theirs. */
  lemma LastLineCounts(lines: seq<string>, a: string, k: string, c: string, v: string, d: string, other: string)
    requires AllBlank(a) && AllBlank(c) && AllBlank(d) && PlainKey(k) && Trimmed(v) && v != ""
    requires PlainKey(other) && other != k
    ensures var more := lines + [a + k + "" + "=" + c + v + d];
            && Extracted(more, k) == v && Values(more, k) == Values(lines, k) + [v]
            && Extracted(more, other) == Extracted(lines, other) && Values(more, other) == Values(lines, other)
  {
    hide ParseLine, Canonical, CanonicalValue;
    var line := a + k + "" + "=" + c + v + d;
    AssignmentIsRead(a, k, "", c, v, d);
    assert (lines + [line])[..|lines|] == lines;
    if Canonical(line, other) {
      CanonicalIsParsed(line, other);
    }
  }

  function LastOr(values: seq<string>, default: string): string {
    if values == [] then default else values[|values| - 1]
  }

  /** The last line that assigns the key, as the daemon sees it; None if there is none. */
  function LastAssigning(lines: seq<string>, k: string): (i: Option<nat>)
    ensures i.Some? ==> i.value < |lines| && HasKey(lines[i.value], k)
  {
    if lines == [] then None
    else if HasKey(lines[|lines| - 1], k) then Some(|lines| - 1)
    else LastAssigning(lines[..|lines| - 1], k)
  }

  /** Only the last assigning line matters: it has no blank before '=', or repeats what webd has read until then. */
  predicate LastIsShared(lines: seq<string>, k: string) {
    match LastAssigning(lines, k)
    case None => true
    case Some(i) => Canonical(lines[i], k) || ParseLine(lines[i]).value.1 == Extracted(lines[..i], k)
  }

  /** Exactly when the two readers agree on a file: webd sees the last of the values that the daemon meets. */
  lemma {:induction false} ReadersAgree(lines: seq<string>, k: string)
    requires PlainKey(k)
    ensures Extracted(lines, k) == LastOr(Values(lines, k), "") <==> LastIsShared(lines, k)
  {
    hide ParseLine, Canonical, CanonicalValue;
    if lines != [] {
      var n := |lines| - 1;
      if Canonical(lines[n], k) {
        CanonicalIsParsed(lines[n], k);
      }
      if !HasKey(lines[n], k) {
        ReadersAgree(lines[..n], k);
        var last := LastAssigning(lines[..n], k);
        if last.Some? {
          assert lines[..n][..last.value] == lines[..last.value];
        }
      }
    }
  }

  /** No line assigns the key with blanks before the '='. */
  ghost predicate AllCanonical(lines: seq<string>, k: string) {
    forall i | 0 <= i < |lines| && HasKey(lines[i], k) :: Canonical(lines[i], k)
  }

  lemma BlankHidesLine(k: string, v: string)
    requires PlainKey(k) && Trimmed(v) && v != ""
    ensures var line := k + " =" + v; ParseLine(line) == Some((k, v)) && !Canonical(line, k)
  {
    hide Trim;
    var line := k + " =" + v;
    assert Trim(line) == line by { TrimFixed(line); }
    IndexOfIs(line, '=', |k| + 1);
    assert line[..|k| + 1] == "" + k + " ";
    TrimFixed(k);
    TrimUnique("", k, " ");
    assert line[|k| + 2..] == v;
    TrimFixed(v);
    assert line[|k|] == ' ' && (k + "=")[|k|] == '=';
    assert |k + "="| <= |line| ==> line[..|k + "="|][|k|] == line[|k|];
  }

  /** They need not: one blank before '=' hides the line from webd. */
  lemma ReadersCanDisagree()
    ensures Values(["mqtt_host =x"], "mqtt_host") == ["x"] && Extracted(["mqtt_host =x"], "mqtt_host") == ""
  {
    hide ParseLine, Canonical;
    var line := "mqtt_host" + " =" + "x";
    assert line == "mqtt_host =x";
    BlankHidesLine("mqtt_host", "x");
    assert [line][..0] == [];
  }

  // -------------------------------------------------------------- rewriting

  function Assignment(k: string, v: string): string {
    k + "=" + v
  }

  predicate Managed(line: string, m: map<string, string>) {
    var p := ParseLine(line);
    p.Some? && p.value.0 in m
  }

  function RewriteLine(line: string, m: map<string, string>): string {
    if Managed(line, m) then
      var k := ParseLine(line).value.0;
      Assignment(k, m[k])
    else line
  }

  function Rewrite(lines: seq<string>, m: map<string, string>): (r: seq<string>)
    ensures |r| == |lines|
    ensures forall i | 0 <= i < |r| :: r[i] == RewriteLine(lines[i], m)
  {
    seq(|lines|, i requires 0 <= i < |lines| => RewriteLine(lines[i], m))
  }

  /** The keys that are assigned somewhere in the file. */
  ghost function Seen(lines: seq<string>, m: map<string, string>): set<string> {
    set k | k in m && Values(lines, k) != []
  }

  function Appended(keys: seq<string>, seen: set<string>, m: map<string, string>): seq<string>
    requires forall k | k in keys :: k in m
  {
    if keys == [] then []
    else
      var n := |keys| - 1;
      Appended(keys[..n], seen, m) + (if keys[n] in seen then [] else [Assignment(keys[n], m[keys[n]])])
  }

  ghost predicate Distinct(keys: seq<string>) {
    forall i, j | 0 <= i < j < |keys| :: keys[i] != keys[j]
  }

  /** The keys in the order of `std::map`, each with its value. */
  ghost predicate Table(keys: seq<string>, m: map<string, string>) {
    && Distinct(keys)
    && SameKeys(keys, m)
    && PlainKeys(m)
  }

  ghost predicate SameKeys(keys: seq<string>, m: map<string, string>) {
    forall k :: k in keys <==> k in m
  }

  ghost predicate PlainKeys(m: map<string, string>) {
    forall k | k in m :: PlainKey(k)
  }

  ghost function Saved(lines: seq<string>, keys: seq<string>, m: map<string, string>): seq<string>
    requires Table(keys, m)
  {
    Rewrite(lines, m) + Appended(keys, Seen(lines, m), m)
  }

  lemma ValuesStep(lines: seq<string>, i: nat, k: string)
    requires i < |lines|
    ensures Values(lines[..i + 1], k)
         == Values(lines[..i], k) + (if HasKey(lines[i], k) then [ParseLine(lines[i]).value.1] else [])
  {
    assert lines[..i + 1][..i] == lines[..i];
  }

  lemma SeenStep(lines: seq<string>, i: nat, m: map<string, string>)
    requires i < |lines|
    ensures Seen(lines[..i + 1], m)
         == Seen(lines[..i], m) + (if Managed(lines[i], m) then {ParseLine(lines[i]).value.0} else {})
  {
    forall k | k in m ensures Values(lines[..i + 1], k)
        == Values(lines[..i], k) + (if HasKey(lines[i], k) then [ParseLine(lines[i]).value.1] else []) {
      ValuesStep(lines, i, k);
    }
  }

  /** The first loop of `SaveChimeConfig`: managed lines are replaced where they stand. */
  method RewriteInPlace(old_: seq<string>, m: map<string, string>) returns (lines: seq<string>, seen: set<string>)
    ensures lines == Rewrite(old_, m) && seen == Seen(old_, m)
  {
    lines := old_;
    seen := {};
    for i := 0 to |lines|
      invariant |lines| == |old_|
      invariant forall j | 0 <= j < i :: lines[j] == RewriteLine(old_[j], m)
      invariant forall j | i <= j < |old_| :: lines[j] == old_[j]
      invariant seen == Seen(old_[..i], m)
    {
      SeenStep(old_, i, m);
      var trimmed := Trim(lines[i]);
      if trimmed == "" || trimmed[0] == '#' {
        continue;
      }
      var separator := IndexOf(trimmed, '=');
      if separator == |trimmed| {
        continue;
      }
      var key := Trim(trimmed[..separator]);
      if key !in m {
        continue;
      }
      lines := lines[i := key + "=" + m[key]];
      seen := seen + {key};
    }
    assert old_[..|old_|] == old_;
  }

  /** The second loop: keys that no line assigns are appended in the order of the table. */
  method AppendMissing(old_: seq<string>, keys: seq<string>, seen: set<string>, m: map<string, string>)
    returns (lines: seq<string>)
    requires forall k | k in keys :: k in m
    ensures lines == old_ + Appended(keys, seen, m)
  {
    lines := old_;
    for i := 0 to |keys|
      invariant lines == old_ + Appended(keys[..i], seen, m)
    {
      assert keys[..i + 1][..i] == keys[..i];
      if keys[i] !in seen {
        lines := lines + [keys[i] + "=" + m[keys[i]]];
      }
    }
    assert keys[..|keys|] == keys;
  }

  // -------------------------------------------------- what a save achieves

  lemma RewrittenLine(line: string, m: map<string, string>)
    requires PlainKeys(m)
    requires Managed(line, m)
    ensures var k := ParseLine(line).value.0;
            ParseLine(RewriteLine(line, m)) == Some((k, Trim(m[k]))) && Canonical(RewriteLine(line, m), k)
  {
    var k := ParseLine(line).value.0;
    WrittenLine(k, m[k]);
  }

  lemma RewriteSnoc(lines: seq<string>, m: map<string, string>)
    requires lines != []
    ensures var n := |lines| - 1; Rewrite(lines, m)[..n] == Rewrite(lines[..n], m)
  {
  }

  function Repeat(n: nat, v: string): (r: seq<string>)
    ensures |r| == n && forall i | 0 <= i < n :: r[i] == v
  {
    seq(n, _ => v)
  }

  lemma {:induction false} ValuesOfRewrite(lines: seq<string>, m: map<string, string>, k: string)
    requires PlainKeys(m)
    ensures k in m ==> Values(Rewrite(lines, m), k) == Repeat(|Values(lines, k)|, Trim(m[k]))
    ensures k !in m ==> Values(Rewrite(lines, m), k) == Values(lines, k)
  {
    if lines != [] {
      var n := |lines| - 1;
      RewriteSnoc(lines, m);
      ValuesOfRewrite(lines[..n], m, k);
      if Managed(lines[n], m) {
        RewrittenLine(lines[n], m);
      }
    }
  }

  lemma ValuesOfOne(line: string, k: string)
    ensures Values([line], k) == if HasKey(line, k) then [ParseLine(line).value.1] else []
  {
    assert [line][..0] == [];
  }

  lemma {:induction false} ValuesOfAppended(keys: seq<string>, seen: set<string>, m: map<string, string>, k: string)
    requires Distinct(keys) && (forall k | k in keys :: k in m) && PlainKeys(m)
    ensures Values(Appended(keys, seen, m), k) == if k in keys && k !in seen then [Trim(m[k])] else []
  {
    if keys != [] {
      var n := |keys| - 1;
      var init := keys[..n];
      ValuesOfAppended(init, seen, m, k);
      assert k in keys <==> k in init || k == keys[n];
      assert keys[n] !in init;
      if keys[n] !in seen {
        var line := Assignment(keys[n], m[keys[n]]);
        WrittenLine(keys[n], m[keys[n]]);
        ValuesAppend(Appended(init, seen, m), [line], k);
        ValuesOfOne(line, k);
        assert Values(Appended(keys, seen, m), k)
            == Values(Appended(init, seen, m), k) + (if keys[n] == k then [Trim(m[k])] else []);
      } else {
        assert Appended(keys, seen, m) == Appended(init, seen, m);
      }
    }
  }

  /**
    After a save the daemon's loop meets, for a managed key, only the trimmed new value - once for
    every old occurrence, and once if there was none - and for every other key exactly the old values.
   */
  lemma ValuesAfterSave(lines: seq<string>, keys: seq<string>, m: map<string, string>, k: string)
    requires Table(keys, m)
    ensures k in m ==>
              var n := |Values(lines, k)|;
              Values(Saved(lines, keys, m), k) == Repeat(if n == 0 then 1 else n, Trim(m[k]))
    ensures k !in m ==> Values(Saved(lines, keys, m), k) == Values(lines, k)
  {
    var n := |Values(lines, k)|;
    var added := Appended(keys, Seen(lines, m), m);
    ValuesAppend(Rewrite(lines, m), added, k);
    ValuesOfRewrite(lines, m, k);
    ValuesOfAppended(keys, Seen(lines, m), m, k);
    if k in m && n == 0 {
      assert Values(added, k) == [Trim(m[k])];
      assert Repeat(0, Trim(m[k])) + [Trim(m[k])] == Repeat(1, Trim(m[k]));
    } else {
      assert Values(added, k) == [];
    }
  }

  lemma AppendedLines(keys: seq<string>, seen: set<string>, m: map<string, string>, i: nat)
    requires forall k | k in keys :: k in m
    requires i < |Appended(keys, seen, m)|
    ensures exists k | k in keys :: k !in seen && Appended(keys, seen, m)[i] == Assignment(k, m[k])
  {
    var n := |keys| - 1;
    if i < |Appended(keys[..n], seen, m)| {
      AppendedLines(keys[..n], seen, m, i);
      var k :| k in keys[..n] && k !in seen && Appended(keys[..n], seen, m)[i] == Assignment(k, m[k]);
      assert k in keys;
    }
  }

  /** A line of the saved file either assigns no managed key or is exactly what a save writes. */
  lemma SavedLine(lines: seq<string>, keys: seq<string>, m: map<string, string>, i: nat)
    requires Table(keys, m) && i < |Saved(lines, keys, m)|
    ensures WrittenOrForeign(Saved(lines, keys, m)[i], m)
  {
    var line := Saved(lines, keys, m)[i];
    if i < |lines| && !Managed(lines[i], m) {
      assert line == lines[i];
    } else if i < |lines| {
      assert line == RewriteLine(lines[i], m);
      AssignmentIsWritten(ParseLine(lines[i]).value.0, m);
    } else {
      var added := Appended(keys, Seen(lines, m), m);
      AppendedLines(keys, Seen(lines, m), m, i - |lines|);
      var k :| k in keys && added[i - |lines|] == Assignment(k, m[k]);
      AssignmentIsWritten(k, m);
    }
  }

  lemma AssignmentIsWritten(k: string, m: map<string, string>)
    requires PlainKeys(m) && k in m
    ensures WrittenOrForeign(Assignment(k, m[k]), m)
  {
    WrittenLine(k, m[k]);
  }

  ghost predicate WrittenOrForeign(line: string, m: map<string, string>) {
    Managed(line, m) ==>
      var k := ParseLine(line).value.0;
      line == Assignment(k, m[k]) && Canonical(line, k)
  }

  /** Every line of the saved file that assigns a managed key has the form webd's reader expects. */
  lemma SavedIsCanonical(lines: seq<string>, keys: seq<string>, m: map<string, string>, k: string)
    requires Table(keys, m) && k in m
    ensures AllCanonical(Saved(lines, keys, m), k)
  {
    var saved := Saved(lines, keys, m);
    forall i | 0 <= i < |saved| && HasKey(saved[i], k) ensures Canonical(saved[i], k) {
      SavedLine(lines, keys, m, i);
    }
  }

  /** webd reads back the trimmed new value of every managed key, whatever the old file was. */
  lemma ExtractedAfterSave(lines: seq<string>, keys: seq<string>, m: map<string, string>, k: string)
    requires Table(keys, m) && k in m
    ensures Extracted(Saved(lines, keys, m), k) == Trim(m[k])
  {
    SavedIsCanonical(lines, keys, m, k);
    ReadersAgree(Saved(lines, keys, m), k);
    ValuesAfterSave(lines, keys, m, k);
  }

  /**
    Both readers return exactly the requested values if and only if every value is already trimmed.
   */
  lemma SaveReadsBackExactly(lines: seq<string>, keys: seq<string>, m: map<string, string>)
    requires Table(keys, m)
    ensures (forall k | k in m :: Extracted(Saved(lines, keys, m), k) == m[k])
            <==> forall k | k in m :: Trimmed(m[k])
  {
    forall k | k in m ensures Extracted(Saved(lines, keys, m), k) == m[k] <==> Trimmed(m[k]) {
      ExtractedAfterSave(lines, keys, m, k);
      TrimFixed(m[k]);
    }
  }

  /** Comments, blank lines and lines of other keys stay where they are, and only new lines follow. */
  lemma SaveKeepsOtherLines(lines: seq<string>, keys: seq<string>, m: map<string, string>, i: nat)
    requires Table(keys, m) && i < |lines|
    ensures |lines| <= |Saved(lines, keys, m)|
    ensures !Managed(lines[i], m) ==> Saved(lines, keys, m)[i] == lines[i]
    ensures Managed(lines[i], m) ==>
              var k := ParseLine(lines[i]).value.0; Saved(lines, keys, m)[i] == Assignment(k, m[k])
  {
  }

  lemma {:induction false} NothingAppended(keys: seq<string>, seen: set<string>, m: map<string, string>)
    requires forall k | k in keys :: k in m && k in seen
    ensures Appended(keys, seen, m) == []
  {
    if keys != [] {
      NothingAppended(keys[..|keys| - 1], seen, m);
    }
  }

  /** Saving the same values again changes nothing. */
  lemma SaveIsIdempotent(lines: seq<string>, keys: seq<string>, m: map<string, string>)
    requires Table(keys, m)
    ensures Saved(Saved(lines, keys, m), keys, m) == Saved(lines, keys, m)
  {
    var saved := Saved(lines, keys, m);
    forall i | 0 <= i < |saved| ensures RewriteLine(saved[i], m) == saved[i] {
      SavedLine(lines, keys, m, i);
    }
    assert Rewrite(saved, m) == saved;
    forall k | k in keys ensures k in Seen(saved, m) {
      ValuesAfterSave(lines, keys, m, k);
    }
    NothingAppended(keys, Seen(saved, m), m);
  }

  // ----------------------------------------------- line feeds inside values

  lemma AppendedLfFree(keys: seq<string>, seen: set<string>, m: map<string, string>)
    requires forall k | k in keys :: k in m && LfFree(k) && LfFree(m[k])
    ensures LinesLfFree(Appended(keys, seen, m))
  {
    forall i | 0 <= i < |Appended(keys, seen, m)| ensures LfFree(Appended(keys, seen, m)[i]) {
      AppendedLines(keys, seen, m, i);
    }
  }

  /** Without line feeds in the values the saved lines are the lines of the written file. */
  lemma SavedFileHasTheseLines(lines: seq<string>, keys: seq<string>, m: map<string, string>)
    requires Table(keys, m) && keys != [] && LinesLfFree(lines)
    requires forall k | k in m :: LfFree(k) && LfFree(m[k])
    ensures Saved(lines, keys, m) != []
    ensures Lines(Joined(Saved(lines, keys, m))) == Saved(lines, keys, m)
  {
    var saved := Saved(lines, keys, m);
    AppendedLfFree(keys, Seen(lines, m), m);
    forall i | 0 <= i < |saved| ensures LfFree(saved[i]) {
      if i < |lines| && Managed(lines[i], m) {
        var k := ParseLine(lines[i]).value.0;
        assert saved[i] == Assignment(k, m[k]);
      }
    }
    assert saved != [] by {
      ValuesAfterSave(lines, keys, m, keys[0]);
      assert keys[0] in keys;
    }
    WrittenLinesReadBack(saved);
  }

  lemma {:induction false} ExtractedLfFree(lines: seq<string>, k: string)
    requires LinesLfFree(lines)
    ensures LfFree(Extracted(lines, k)) && Trimmed(Extracted(lines, k))
  {
    if lines != [] {
      var n := |lines| - 1;
      ExtractedLfFree(lines[..n], k);
      if Canonical(lines[n], k) {
        var v := CanonicalValue(lines[n], k);
        var l, r := TrimSplit(Trim(lines[n])[|k| + 1..]);
        forall c | c in v ensures c in lines[n] {
          TrimKeepsChars(Trim(lines[n])[|k| + 1..], c);
          TrimKeepsChars(lines[n], c);
        }
        assert LfFree(lines[n]);
      }
    }
  }

  /**
    The file-level law: webd reads back exactly the requested value of every managed key if and only
    if every value is trimmed and free of line feeds.
   */
  lemma SavedFileReadsBackExactly(lines: seq<string>, keys: seq<string>, m: map<string, string>)
    requires Table(keys, m) && keys != [] && LinesLfFree(lines)
    requires forall k | k in m :: LfFree(k)
    ensures (forall k | k in m :: Extracted(Lines(Joined(Saved(lines, keys, m))), k) == m[k])
            <==> forall k | k in m :: Trimmed(m[k]) && LfFree(m[k])
  {
    var back := Lines(Joined(Saved(lines, keys, m)));
    if forall k | k in m :: Trimmed(m[k]) && LfFree(m[k]) {
      SavedFileHasTheseLines(lines, keys, m);
      SaveReadsBackExactly(lines, keys, m);
    }
    if forall k | k in m :: Extracted(back, k) == m[k] {
      forall k | k in m ensures Trimmed(m[k]) && LfFree(m[k]) {
        ExtractedLfFree(back, k);
      }
    }
  }
}
