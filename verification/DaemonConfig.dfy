/**
  The daemon's configuration reader: the table-driven `load` of kv_config.h and the field table of
  chime_config.cpp.  A setting's place in the table stands for the struct member it sets.
 */
module DaemonConfig {
  import opened Wrappers
  import opened Text
  import opened Csv
  import opened KeyFile

  datatype Kind = TextKind | NumberKind(min: int, max: int) | FlagKind | ListKind

  datatype Field = Field(key: string, kind: Kind, required: bool)

  datatype Setting = TextValue(text: string) | NumberValue(n: int) | FlagValue(b: bool) | ListValue(items: seq<string>)

  function ParseFlag(value: string): Option<bool> {
    var lower := ToLower(value);
    if lower == "true" || lower == "yes" || lower == "1" || lower == "on" then Some(true)
    else if lower == "false" || lower == "no" || lower == "0" || lower == "off" then Some(false)
    else None
  }

  function ParseNumber(value: string, min: int, max: int): Option<int> {
    var (n, rest) := Strtol(value, 10);
    if rest != "" || n < min || n > max then None else Some(n)
  }

  /** The words for yes and no, in any letter case. */
  lemma FlagsAreRead(value: string)
    ensures ParseFlag(value) == Some(true) <==>
            SameText(value, "true") || SameText(value, "yes") || SameText(value, "1") || SameText(value, "on")
    ensures ParseFlag(value) == Some(false) <==>
            SameText(value, "false") || SameText(value, "no") || SameText(value, "0") || SameText(value, "off")
  {
    hide ToLower, SameText;
    FlagWordsAreLower();
    LowerTexts(value, "true");
    LowerTexts(value, "yes");
    LowerTexts(value, "1");
    LowerTexts(value, "on");
    LowerTexts(value, "false");
    LowerTexts(value, "no");
    LowerTexts(value, "0");
    LowerTexts(value, "off");
    FlagWordsDiffer();
  }

  lemma FlagWordsAreLower()
    ensures ToLower("true") == "true" && ToLower("yes") == "yes" && ToLower("1") == "1" && ToLower("on") == "on"
    ensures ToLower("false") == "false" && ToLower("no") == "no" && ToLower("0") == "0" && ToLower("off") == "off"
  {
  }

  lemma FlagWordsDiffer()
    ensures |"true"| == 4 && |"yes"| == 3 && |"1"| == 1 && |"on"| == 2 && |"false"| == 5 && |"no"| == 2 && |"0"| == 1
    ensures |"off"| == 3 && "yes" != "off" && "1" != "0" && "on" != "no"
  {
    assert "yes"[0] == 'y' && "off"[0] == 'o' && "1"[0] == '1' && "0"[0] == '0' && "on"[0] == 'o' && "no"[0] == 'n';
  }

  /** A number is taken if it is one to its end and in range. */
  lemma NumbersAreRead(sign: string, digits: string, rest: string, min: int, max: int)
    requires sign in ["", "+", "-"] && Digits(digits) && LONG_MIN < min <= max < LONG_MAX
    requires '\0' !in rest && (rest == "" || DigitValue(rest[0]) >= 10)
    ensures var n := if sign == "-" then 0 - DigitsToNat(digits) else DigitsToNat(digits);
            ParseNumber(sign + digits + rest, min, max) == if rest == "" && min <= n <= max then Some(n) else None
  {
    hide Strtol, DigitsToNat;
    StrtolOfText("", sign, digits, rest);
    assert "" + sign + digits + rest == sign + digits + rest;
  }

  /** A field's setter: the new setting and whether the value was accepted. */
  function Set(kind: Kind, old_: Setting, value: string): (Setting, bool) {
    match kind
    case TextKind => (TextValue(value), true)
    case NumberKind(min, max) =>
      (match ParseNumber(value, min, max)
       case Some(n) => (NumberValue(n), true)
       case None => (old_, false))
    case FlagKind =>
      (match ParseFlag(value)
       case Some(b) => (FlagValue(b), true)
       case None => (old_, false))
    case ListKind =>
      // An empty list is stored even though it is reported as not accepted.
      (ListValue(SplitCsv(value)), SplitCsv(value) != [])
  }

  /** What a field holds after the values of its key, and whether any of them was accepted. */
  function Folded(kind: Kind, default: Setting, values: seq<string>): (Setting, bool) {
    if values == [] then (default, false)
    else
      var n := |values| - 1;
      var (old_, seen) := Folded(kind, default, values[..n]);
      var (now, ok) := Set(kind, old_, values[n]);
      (now, seen || ok)
  }

  ghost predicate DistinctKeys(fields: seq<Field>) {
    forall i, j | 0 <= i < j < |fields| :: fields[i].key != fields[j].key
  }

  datatype LoadResult = LoadResult(config: seq<Setting>, success: bool, error: string)

  /** The missing required keys, in table order. */
  ghost function Missing(fields: seq<Field>, defaults: seq<Setting>, lines: seq<string>): seq<string>
    requires |defaults| == |fields|
  {
    if fields == [] then []
    else
      var n := |fields| - 1;
      Missing(fields[..n], defaults[..n], lines) +
      (if fields[n].required && !Folded(fields[n].kind, defaults[n], Values(lines, fields[n].key)).1
       then [fields[n].key] else [])
  }

  /** `config` and `seen` are what the fields' setters make of these lines, each field on its own. */
  ghost predicate FoldsOf(fields: seq<Field>, defaults: seq<Setting>, lines: seq<string>,
                          config: seq<Setting>, seen: seq<bool>)
    requires |defaults| == |fields|
  {
    && |config| == |seen| == |fields|
    && forall i | 0 <= i < |fields| ::
         (config[i], seen[i]) == Folded(fields[i].kind, defaults[i], Values(lines, fields[i].key))
  }

  lemma FoldsOfSkipped(fields: seq<Field>, defaults: seq<Setting>, lines: seq<string>, j: nat,
                       config: seq<Setting>, seen: seq<bool>)
    requires |defaults| == |fields| && j < |lines|
    requires FoldsOf(fields, defaults, lines[..j], config, seen) && ParseLine(lines[j]).None?
    ensures FoldsOf(fields, defaults, lines[..j + 1], config, seen)
  {
    forall i | 0 <= i < |fields|
      ensures Values(lines[..j + 1], fields[i].key) == Values(lines[..j], fields[i].key)
    {
      ValuesStep(lines, j, fields[i].key);
    }
  }

  lemma FoldedSnoc(kind: Kind, default: Setting, values: seq<string>, v: string)
    ensures var (old_, seen) := Folded(kind, default, values);
            Folded(kind, default, values + [v]) == (Set(kind, old_, v).0, seen || Set(kind, old_, v).1)
  {
    assert (values + [v])[..|values|] == values;
  }

  /** One more line with a field's key: a text or a list is taken as it is, a number or a flag if it is well formed. */
  lemma LastAcceptedCounts(f: Field, default: Setting, lines: seq<string>, line: string, value: string)
    requires ParseLine(line) == Some((f.key, value))
    ensures var before := Folded(f.kind, default, Values(lines, f.key)).0;
            Folded(f.kind, default, Values(lines + [line], f.key)).0 ==
            match f.kind
            case TextKind => TextValue(value)
            case ListKind => ListValue(SplitCsv(value))
            case FlagKind => (match ParseFlag(value) case Some(b) => FlagValue(b) case None => before)
            case NumberKind(min, max) =>
              match ParseNumber(value, min, max) case Some(n) => NumberValue(n) case None => before
  {
    hide ParseLine, ParseFlag, ParseNumber, SplitCsv;
    assert (lines + [line])[..|lines|] == lines;
    FoldedSnoc(f.kind, default, Values(lines, f.key), value);
  }

  ghost predicate Applied(fields: seq<Field>, key: string, value: string, config: seq<Setting>, seen: seq<bool>,
                          config': seq<Setting>, seen': seq<bool>)
    requires |config| == |fields| == |seen|
  {
    && |config'| == |fields| == |seen'|
    && forall i | 0 <= i < |fields| ::
         if fields[i].key == key
         then && config'[i] == Set(fields[i].kind, config[i], value).0
              && seen'[i] == (seen[i] || Set(fields[i].kind, config[i], value).1)
         else config'[i] == config[i] && seen'[i] == seen[i]
  }

  lemma FoldsOfApplied(fields: seq<Field>, defaults: seq<Setting>, lines: seq<string>, j: nat,
                       config: seq<Setting>, seen: seq<bool>, config': seq<Setting>, seen': seq<bool>)
    requires |defaults| == |fields| && j < |lines|
    requires FoldsOf(fields, defaults, lines[..j], config, seen) && ParseLine(lines[j]).Some?
    requires var (key, value) := ParseLine(lines[j]).value; Applied(fields, key, value, config, seen, config', seen')
    ensures FoldsOf(fields, defaults, lines[..j + 1], config', seen')
  {
    var (key, value) := ParseLine(lines[j]).value;
    forall i | 0 <= i < |fields|
      ensures (config'[i], seen'[i]) == Folded(fields[i].kind, defaults[i], Values(lines[..j + 1], fields[i].key))
    {
      ValuesStep(lines, j, fields[i].key);
      if fields[i].key == key {
        FoldedSnoc(fields[i].kind, defaults[i], Values(lines[..j], key), value);
      } else {
        assert Values(lines[..j + 1], fields[i].key) == Values(lines[..j], fields[i].key);
      }
    }
  }

  /** Parsing one line: the first field with the line's key is set; the others keep their settings. */
  method ApplyLine(fields: seq<Field>, config: seq<Setting>, seen: seq<bool>, key: string, value: string)
    returns (config': seq<Setting>, seen': seq<bool>)
    requires DistinctKeys(fields) && |config| == |fields| == |seen|
    ensures Applied(fields, key, value, config, seen, config', seen')
  {
    config', seen' := config, seen;
    for i := 0 to |fields|
      invariant config' == config && seen' == seen
      invariant forall j | 0 <= j < i :: fields[j].key != key
    {
      if key == fields[i].key {
        var (setting, ok) := Set(fields[i].kind, config[i], value);
        config' := config[i := setting];
        if ok {
          seen' := seen[i := true];
        }
        break;
      }
    }
  }

  /**
    The daemon's `load`.  Every field ends up with the fold of the values of its key alone, so lines
    of other keys cannot influence it; the load fails exactly when a required field has no accepted value.
   */
  method Load(lines: seq<string>, fields: seq<Field>, defaults: seq<Setting>) returns (r: LoadResult)
    requires DistinctKeys(fields) && |defaults| == |fields|
    ensures |r.config| == |fields|
    ensures forall i | 0 <= i < |fields| ::
              r.config[i] == Folded(fields[i].kind, defaults[i], Values(lines, fields[i].key)).0
    ensures r.success <==> forall i | 0 <= i < |fields| && fields[i].required ::
              Folded(fields[i].kind, defaults[i], Values(lines, fields[i].key)).1
    ensures !r.success ==>
              var missing := Missing(fields, defaults, lines);
              missing != [] && r.error == "Missing required config key: " + missing[0]
  {
    hide Trim, IndexOf, Folded, Set, Values, Missing;
    var config := defaults;
    var seen := seq(|fields|, _ => false);
    NothingFolded(fields, defaults, lines);
    for j := 0 to |lines|
      invariant |config| == |seen| == |fields|
      invariant FoldsOf(fields, defaults, lines[..j], config, seen)
    {
      var cleaned := Trim(lines[j]);
      if cleaned == "" || cleaned[0] == '#' {
        FoldsOfSkipped(fields, defaults, lines, j, config, seen);
        continue;
      }
      var sep := IndexOf(cleaned, '=');
      if sep == |cleaned| {
        FoldsOfSkipped(fields, defaults, lines, j, config, seen);
        continue;
      }
      var key := Trim(cleaned[..sep]);
      var value := Trim(cleaned[sep + 1..]);
      ghost var before := (config, seen);
      config, seen := ApplyLine(fields, config, seen, key, value);
      assert ParseLine(lines[j]) == Some((key, value));
      FoldsOfApplied(fields, defaults, lines, j, before.0, before.1, config, seen);
    }
    assert lines[..|lines|] == lines;
    var missing := FirstMissing(fields, seen, defaults, lines, config);
    if missing.Some? {
      return LoadResult(config, false, "Missing required config key: " + missing.value);
    }
    return LoadResult(config, true, "");
  }

  /** The check after the loop: the first required field without an accepted value. */
  method FirstMissing(fields: seq<Field>, seen: seq<bool>, ghost defaults: seq<Setting>, ghost lines: seq<string>,
      ghost config: seq<Setting>)
    returns (missing: Option<string>)
    requires |defaults| == |fields| && FoldsOf(fields, defaults, lines, config, seen)
    ensures missing.None? <==> forall i | 0 <= i < |fields| && fields[i].required ::
              Folded(fields[i].kind, defaults[i], Values(lines, fields[i].key)).1
    ensures missing.Some? ==>
              Missing(fields, defaults, lines) != [] && Missing(fields, defaults, lines)[0] == missing.value
  {
    hide Folded, Values;
    for i := 0 to |fields|
      invariant forall j | 0 <= j < i && fields[j].required :: seen[j]
      invariant Missing(fields[..i], defaults[..i], lines) == []
    {
      assert fields[..i + 1][..i] == fields[..i] && defaults[..i + 1][..i] == defaults[..i];
      if fields[i].required && !seen[i] {
        MissingPrefix(fields, defaults, lines, i + 1);
        return Some(fields[i].key);
      }
    }
    return None;
  }

  lemma NothingFolded(fields: seq<Field>, defaults: seq<Setting>, lines: seq<string>)
    requires |defaults| == |fields|
    ensures FoldsOf(fields, defaults, lines[..0], defaults, seq(|fields|, _ => false))
  {
  }

  lemma MissingPrefix(fields: seq<Field>, defaults: seq<Setting>, lines: seq<string>, n: nat)
    requires |defaults| == |fields| && n <= |fields|
    ensures Missing(fields[..n], defaults[..n], lines) <= Missing(fields, defaults, lines)
    decreases |fields| - n
  {
    if n == |fields| {
      assert fields[..n] == fields && defaults[..n] == defaults;
    } else {
      assert fields[..n + 1][..n] == fields[..n] && defaults[..n + 1][..n] == defaults[..n];
      MissingPrefix(fields, defaults, lines, n + 1);
    }
  }

  /** The same value met any positive number of times acts like one value, if it is accepted or stored. */
  lemma {:induction false} FoldedRepeat(kind: Kind, default: Setting, n: nat, v: string)
    requires n > 0
    ensures Folded(kind, default, Repeat(n, v)) == Set(kind, default, v)
  {
    assert Repeat(n, v)[..n - 1] == Repeat(n - 1, v);
    if n > 1 {
      FoldedRepeat(kind, default, n - 1, v);
    }
  }

  /** After a save every managed field holds what its setter makes of the trimmed new value. */
  lemma ManagedFieldAfterSave(lines: seq<string>, keys: seq<string>, m: map<string, string>, f: Field, default: Setting)
    requires Table(keys, m) && f.key in m
    ensures Folded(f.kind, default, Values(Saved(lines, keys, m), f.key)) == Set(f.kind, default, Trim(m[f.key]))
  {
    ValuesAfterSave(lines, keys, m, f.key);
    var n := |Values(lines, f.key)|;
    FoldedRepeat(f.kind, default, if n == 0 then 1 else n, Trim(m[f.key]));
  }

  /** After a save every other field holds what it held before. */
  lemma OtherFieldAfterSave(lines: seq<string>, keys: seq<string>, m: map<string, string>, f: Field, default: Setting)
    requires Table(keys, m) && f.key !in m
    ensures Folded(f.kind, default, Values(Saved(lines, keys, m), f.key))
         == Folded(f.kind, default, Values(lines, f.key))
  {
    ValuesAfterSave(lines, keys, m, f.key);
  }

  // --------------------------------------------------- the chime daemon's table

  const FIELDS: seq<Field> := [
    Field("mqtt_host", TextKind, true),
    Field("mqtt_port", NumberKind(1, 65535), true),
    Field("mqtt_client_id", TextKind, false),
    Field("mqtt_username", TextKind, false),
    Field("mqtt_password", TextKind, false),
    Field("mqtt_tls_enabled", FlagKind, false),
    Field("mqtt_tls_validate_certificate", FlagKind, false),
    Field("mqtt_tls_ca_file", TextKind, false),
    Field("mqtt_tls_cert_file", TextKind, false),
    Field("mqtt_tls_key_file", TextKind, false),
    Field("mqtt_topics", ListKind, true),
    Field("mqtt_subscribe_qos", NumberKind(0, 2), false),
    Field("heartbeat_interval", NumberKind(0, 3600), false),
    Field("heartbeat_topic", TextKind, false),
    Field("ring_topic", TextKind, false),
    Field("sound_path", TextKind, false),
    Field("notification_success_sound_path", TextKind, false),
    Field("notification_failure_sound_path", TextKind, false),
    Field("volume_bell", NumberKind(0, 100), false),
    Field("volume_notifications", NumberKind(0, 100), false),
    Field("volume_other", NumberKind(0, 100), false),
    Field("audio_enabled", FlagKind, false),
    Field("wifi_interface", TextKind, false),
    Field("wifi_check_interval", NumberKind(0, 3600), false)
  ]

  const DEFAULTS: seq<Setting> := [
    TextValue(""), NumberValue(0), TextValue("chime"), TextValue(""), TextValue(""),
    FlagValue(false), FlagValue(true), TextValue(""), TextValue(""), TextValue(""),
    ListValue([]), NumberValue(0), NumberValue(60), TextValue("chime/heartbeat"),
    TextValue("doorbell/ring"), TextValue("/usr/local/share/chime/ring.wav"),
    TextValue("/usr/local/share/chime/test.wav"), TextValue("/usr/local/share/chime/ring.wav"),
    NumberValue(80), NumberValue(70), NumberValue(70), FlagValue(true), TextValue("wlan0"), NumberValue(5)
  ]

  /** The table's keys are told apart by their length and one or two characters. */
  function Slot(k: string): int {
    match |k|
    case 9 => if k[5] == 'h' then 0 else 1
    case 10 => if k[0] == 'r' then 14 else 15
    case 11 => if k[0] == 'm' then 10 else 18
    case 12 => 20
    case 13 => if k[5] == 'u' then 3 else if k[5] == 'p' then 4 else 21
    case 14 => if k[0] == 'm' then 2 else 22
    case 15 => 13
    case 16 => if k[9] == 'e' then 5 else 7
    case 17 => 9
    case 18 => if k[5] == 't' then 8 else if k[5] == 's' then 11 else 12
    case 19 => 23
    case 20 => 19
    case 29 => 6
    case 31 => if k[13] == 's' then 16 else 17
    case _ => -1
  }

  lemma SlotsOfFields0()
    ensures |FIELDS| == 24
    ensures forall i | 0 <= i < 4 :: Slot(FIELDS[i].key) == i
  {
    assert Slot(FIELDS[0].key) == 0;
    assert Slot(FIELDS[1].key) == 1;
    assert Slot(FIELDS[2].key) == 2;
    assert Slot(FIELDS[3].key) == 3;
  }

  lemma SlotsOfFields1()
    ensures |FIELDS| == 24
    ensures forall i | 4 <= i < 8 :: Slot(FIELDS[i].key) == i
  {
    assert Slot(FIELDS[4].key) == 4;
    assert Slot(FIELDS[5].key) == 5;
    assert Slot(FIELDS[6].key) == 6;
    assert Slot(FIELDS[7].key) == 7;
  }

  lemma SlotsOfFields2()
    ensures |FIELDS| == 24
    ensures forall i | 8 <= i < 12 :: Slot(FIELDS[i].key) == i
  {
    assert Slot(FIELDS[8].key) == 8;
    assert Slot(FIELDS[9].key) == 9;
    assert Slot(FIELDS[10].key) == 10;
    assert Slot(FIELDS[11].key) == 11;
  }

  lemma SlotsOfFields3()
    ensures |FIELDS| == 24
    ensures forall i | 12 <= i < 16 :: Slot(FIELDS[i].key) == i
  {
    assert Slot(FIELDS[12].key) == 12;
    assert Slot(FIELDS[13].key) == 13;
    assert Slot(FIELDS[14].key) == 14;
    assert Slot(FIELDS[15].key) == 15;
  }

  lemma SlotsOfFields4()
    ensures |FIELDS| == 24
    ensures forall i | 16 <= i < 20 :: Slot(FIELDS[i].key) == i
  {
    assert Slot(FIELDS[16].key) == 16;
    assert Slot(FIELDS[17].key) == 17;
    assert Slot(FIELDS[18].key) == 18;
    assert Slot(FIELDS[19].key) == 19;
  }

  lemma SlotsOfFields5()
    ensures |FIELDS| == 24
    ensures forall i | 20 <= i < 24 :: Slot(FIELDS[i].key) == i
  {
    assert Slot(FIELDS[20].key) == 20;
    assert Slot(FIELDS[21].key) == 21;
    assert Slot(FIELDS[22].key) == 22;
    assert Slot(FIELDS[23].key) == 23;
  }

  lemma FieldsAreDistinct()
    ensures DistinctKeys(FIELDS) && |DEFAULTS| == |FIELDS| == 24
  {
    SlotsOfFields0();
    SlotsOfFields1();
    SlotsOfFields2();
    SlotsOfFields3();
    SlotsOfFields4();
    SlotsOfFields5();
    DistinctBySlot(FIELDS);
  }

  lemma DistinctBySlot(fields: seq<Field>)
    requires forall i | 0 <= i < |fields| :: Slot(fields[i].key) == i
    ensures DistinctKeys(fields)
  {
  }

  /** `LoadConfig` of the daemon, for the lines of `/etc/chime.conf`. */
  method LoadConfig(lines: seq<string>) returns (r: LoadResult)
    ensures |r.config| == |FIELDS| == |DEFAULTS|
    ensures forall i | 0 <= i < |FIELDS| ::
              r.config[i] == Folded(FIELDS[i].kind, DEFAULTS[i], Values(lines, FIELDS[i].key)).0
    ensures r.success <==> forall i | 0 <= i < |FIELDS| && FIELDS[i].required ::
              Folded(FIELDS[i].kind, DEFAULTS[i], Values(lines, FIELDS[i].key)).1
  {
    FieldsAreDistinct();
    r := Load(lines, FIELDS, DEFAULTS);
  }
}
