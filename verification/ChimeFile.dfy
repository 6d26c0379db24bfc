/**
  `/etc/chime.conf` as webd sees it: the seventeen managed keys with their raw texts, the typed
  configuration, and what a save and a reload make of it.
 */
module ChimeFile {
  import opened Wrappers
  import opened Text
  import opened Csv
  import opened KeyFile
  import opened DaemonConfig

  datatype CoreConfig = CoreConfig(
    wifiSsid: string,
    mqttHost: string,
    mqttPort: int,
    mqttClientId: string,
    mqttUsername: string,
    mqttPassword: string,
    mqttTlsEnabled: bool,
    mqttTlsValidateCertificate: bool,
    mqttTlsCaFile: string,
    mqttTlsCertFile: string,
    mqttTlsKeyFile: string,
    mqttTopics: seq<string>,
    ringTopic: string,
    successSoundPath: string,
    failureSoundPath: string,
    volumeBell: int,
    volumeNotifications: int,
    volumeOther: int
  )

  // ------------------------------------------------- keys and their raw texts

  /** The texts of the managed keys, in key order. */
  datatype Raw = Raw(
    clientId: string, host: string, password: string, port: string, caFile: string, certFile: string,
    tlsEnabled: string, keyFile: string, tlsValidate: string, topics: string, username: string,
    failurePath: string, successPath: string, ringTopic: string,
    volumeBell: string, volumeNotifications: string, volumeOther: string
  )

  /** The managed keys in the order in which `std::map` enumerates them. */
  const MANAGED_KEYS: seq<string> := [
    "mqtt_client_id", "mqtt_host", "mqtt_password", "mqtt_port", "mqtt_tls_ca_file", "mqtt_tls_cert_file",
    "mqtt_tls_enabled", "mqtt_tls_key_file", "mqtt_tls_validate_certificate", "mqtt_topics", "mqtt_username",
    "notification_failure_sound_path", "notification_success_sound_path", "ring_topic",
    "volume_bell", "volume_notifications", "volume_other"
  ]

  /** Where the daemon's table has the managed keys. */
  const MANAGED_SLOTS: seq<int> := [2, 0, 4, 1, 7, 8, 5, 9, 6, 10, 3, 17, 16, 14, 18, 19, 20]

  function TextsOf(raw: Raw): (texts: seq<string>)
    ensures |texts| == 17
  {
    [ raw.clientId, raw.host, raw.password, raw.port, raw.caFile, raw.certFile,
      raw.tlsEnabled, raw.keyFile, raw.tlsValidate, raw.topics, raw.username,
      raw.failurePath, raw.successPath, raw.ringTopic,
      raw.volumeBell, raw.volumeNotifications, raw.volumeOther ]
  }

  function RawFrom(texts: seq<string>): Raw
    requires |texts| == 17
  {
    Raw(texts[0], texts[1], texts[2], texts[3], texts[4], texts[5], texts[6], texts[7], texts[8], texts[9],
        texts[10], texts[11], texts[12], texts[13], texts[14], texts[15], texts[16])
  }

  lemma RawOfTexts(raw: Raw)
    ensures RawFrom(TextsOf(raw)) == raw
  {
  }

  function BoolToConfig(b: bool): string {
    if b then "true" else "false"
  }

  /** The texts that a save writes. */
  function RawFor(c: CoreConfig): Raw {
    Raw(
      clientId := c.mqttClientId, host := c.mqttHost, password := c.mqttPassword, port := IntToString(c.mqttPort),
      caFile := c.mqttTlsCaFile, certFile := c.mqttTlsCertFile, tlsEnabled := BoolToConfig(c.mqttTlsEnabled),
      keyFile := c.mqttTlsKeyFile, tlsValidate := BoolToConfig(c.mqttTlsValidateCertificate),
      topics := JoinCsv(c.mqttTopics), username := c.mqttUsername,
      failurePath := c.failureSoundPath, successPath := c.successSoundPath, ringTopic := c.ringTopic,
      volumeBell := IntToString(c.volumeBell), volumeNotifications := IntToString(c.volumeNotifications),
      volumeOther := IntToString(c.volumeOther)
    )
  }

  function Assignments(keys: seq<string>, texts: seq<string>): map<string, string>
    requires |keys| == |texts|
  {
    if keys == [] then map[]
    else
      var n := |keys| - 1;
      Assignments(keys[..n], texts[..n])[keys[n] := texts[n]]
  }

  lemma {:induction false} AssignmentsAt(keys: seq<string>, texts: seq<string>)
    requires |keys| == |texts| && Distinct(keys)
    ensures SameKeys(keys, Assignments(keys, texts))
    ensures forall i | 0 <= i < |keys| ::
              keys[i] in Assignments(keys, texts) && Assignments(keys, texts)[keys[i]] == texts[i]
  {
    if keys != [] {
      var n := |keys| - 1;
      AssignmentsAt(keys[..n], texts[..n]);
      assert keys == keys[..n] + [keys[n]];
      forall i | 0 <= i < n
        ensures keys[i] in Assignments(keys, texts) && Assignments(keys, texts)[keys[i]] == texts[i]
      {
        assert keys[..n][i] == keys[i] && texts[..n][i] == texts[i];
      }
    }
  }

  lemma SlotsOfManagedKeys0()
    ensures |MANAGED_KEYS| == |MANAGED_SLOTS| == 17
    ensures forall i | 0 <= i < 6 :: Slot(MANAGED_KEYS[i]) == MANAGED_SLOTS[i]
  {
    assert Slot(MANAGED_KEYS[0]) == 2 && Slot(MANAGED_KEYS[1]) == 0 && Slot(MANAGED_KEYS[2]) == 4;
    assert Slot(MANAGED_KEYS[3]) == 1 && Slot(MANAGED_KEYS[4]) == 7 && Slot(MANAGED_KEYS[5]) == 8;
  }

  lemma SlotsOfManagedKeys1()
    ensures |MANAGED_KEYS| == |MANAGED_SLOTS| == 17
    ensures forall i | 6 <= i < 12 :: Slot(MANAGED_KEYS[i]) == MANAGED_SLOTS[i]
  {
    assert Slot(MANAGED_KEYS[6]) == 5 && Slot(MANAGED_KEYS[7]) == 9 && Slot(MANAGED_KEYS[8]) == 6;
    assert Slot(MANAGED_KEYS[9]) == 10 && Slot(MANAGED_KEYS[10]) == 3 && Slot(MANAGED_KEYS[11]) == 17;
  }

  lemma SlotsOfManagedKeys2()
    ensures |MANAGED_KEYS| == |MANAGED_SLOTS| == 17
    ensures forall i | 12 <= i < 17 :: Slot(MANAGED_KEYS[i]) == MANAGED_SLOTS[i]
  {
    assert Slot(MANAGED_KEYS[12]) == 16 && Slot(MANAGED_KEYS[13]) == 14 && Slot(MANAGED_KEYS[14]) == 18;
    assert Slot(MANAGED_KEYS[15]) == 19 && Slot(MANAGED_KEYS[16]) == 20;
  }

  predicate PlainLfFree(k: string) {
    PlainKey(k) && LfFree(k)
  }

  lemma PlainManagedKeys0()
    ensures |MANAGED_KEYS| == 17 && forall i | 0 <= i < 3 :: PlainLfFree(MANAGED_KEYS[i])
  {
    assert PlainLfFree(MANAGED_KEYS[0]) && PlainLfFree(MANAGED_KEYS[1]) && PlainLfFree(MANAGED_KEYS[2]);
  }

  lemma PlainManagedKeys1()
    ensures |MANAGED_KEYS| == 17 && forall i | 3 <= i < 6 :: PlainLfFree(MANAGED_KEYS[i])
  {
    assert PlainLfFree(MANAGED_KEYS[3]) && PlainLfFree(MANAGED_KEYS[4]) && PlainLfFree(MANAGED_KEYS[5]);
  }

  lemma PlainManagedKeys2()
    ensures |MANAGED_KEYS| == 17 && forall i | 6 <= i < 8 :: PlainLfFree(MANAGED_KEYS[i])
  {
    assert PlainLfFree(MANAGED_KEYS[6]) && PlainLfFree(MANAGED_KEYS[7]);
  }

  lemma PlainManagedKeys3()
    ensures |MANAGED_KEYS| == 17 && forall i | 8 <= i < 9 :: PlainLfFree(MANAGED_KEYS[i])
  {
    assert PlainLfFree(MANAGED_KEYS[8]);
  }

  lemma PlainManagedKeys4()
    ensures |MANAGED_KEYS| == 17 && forall i | 9 <= i < 11 :: PlainLfFree(MANAGED_KEYS[i])
  {
    assert PlainLfFree(MANAGED_KEYS[9]) && PlainLfFree(MANAGED_KEYS[10]);
  }

  lemma PlainManagedKeys5()
    ensures |MANAGED_KEYS| == 17 && forall i | 11 <= i < 12 :: PlainLfFree(MANAGED_KEYS[i])
  {
    assert PlainLfFree(MANAGED_KEYS[11]);
  }

  lemma PlainManagedKeys6()
    ensures |MANAGED_KEYS| == 17 && forall i | 12 <= i < 13 :: PlainLfFree(MANAGED_KEYS[i])
  {
    assert PlainLfFree(MANAGED_KEYS[12]);
  }

  lemma PlainManagedKeys7()
    ensures |MANAGED_KEYS| == 17 && forall i | 13 <= i < 15 :: PlainLfFree(MANAGED_KEYS[i])
  {
    assert PlainLfFree(MANAGED_KEYS[13]) && PlainLfFree(MANAGED_KEYS[14]);
  }

  lemma PlainManagedKeys8()
    ensures |MANAGED_KEYS| == 17 && forall i | 15 <= i < 17 :: PlainLfFree(MANAGED_KEYS[i])
  {
    assert PlainLfFree(MANAGED_KEYS[15]) && PlainLfFree(MANAGED_KEYS[16]);
  }

  lemma ManagedKeysArePlain()
    ensures forall i | 0 <= i < |MANAGED_KEYS| :: PlainLfFree(MANAGED_KEYS[i])
  {
    PlainManagedKeys0();
    PlainManagedKeys1();
    PlainManagedKeys2();
    PlainManagedKeys3();
    PlainManagedKeys4();
    PlainManagedKeys5();
    PlainManagedKeys6();
    PlainManagedKeys7();
    PlainManagedKeys8();
  }

  lemma ManagedKeysAreDistinct()
    ensures Distinct(MANAGED_KEYS) && |MANAGED_KEYS| == |MANAGED_SLOTS| == 17
    ensures forall i | 0 <= i < 17 :: Slot(MANAGED_KEYS[i]) == MANAGED_SLOTS[i]
  {
    SlotsOfManagedKeys0();
    SlotsOfManagedKeys1();
    SlotsOfManagedKeys2();
    assert forall i, j | 0 <= i < j < 17 :: MANAGED_SLOTS[i] != MANAGED_SLOTS[j];
  }

  function Replacements(raw: Raw): map<string, string>
  {
    Assignments(MANAGED_KEYS, TextsOf(raw))
  }

  lemma ReplacementsAreATable(raw: Raw)
    ensures Table(MANAGED_KEYS, Replacements(raw)) && MANAGED_KEYS != [] && |MANAGED_KEYS| == 17
    ensures forall i | 0 <= i < 17 ::
              MANAGED_KEYS[i] in Replacements(raw) && Replacements(raw)[MANAGED_KEYS[i]] == TextsOf(raw)[i]
    ensures forall k | k in Replacements(raw) :: PlainLfFree(k)
  {
    ManagedKeysAreDistinct();
    ManagedKeysArePlain();
    AssignmentsAt(MANAGED_KEYS, TextsOf(raw));
  }

  // -------------------------------------------------------- reading the file

  /** webd's raw view of a file. */
  function RawOf(lines: seq<string>): Raw {
    Raw(
      clientId := Extracted(lines, "mqtt_client_id"),
      host := Extracted(lines, "mqtt_host"),
      password := Extracted(lines, "mqtt_password"),
      port := Extracted(lines, "mqtt_port"),
      caFile := Extracted(lines, "mqtt_tls_ca_file"),
      certFile := Extracted(lines, "mqtt_tls_cert_file"),
      tlsEnabled := Extracted(lines, "mqtt_tls_enabled"),
      keyFile := Extracted(lines, "mqtt_tls_key_file"),
      tlsValidate := Extracted(lines, "mqtt_tls_validate_certificate"),
      topics := Extracted(lines, "mqtt_topics"),
      username := Extracted(lines, "mqtt_username"),
      failurePath := Extracted(lines, "notification_failure_sound_path"),
      successPath := Extracted(lines, "notification_success_sound_path"),
      ringTopic := Extracted(lines, "ring_topic"),
      volumeBell := Extracted(lines, "volume_bell"),
      volumeNotifications := Extracted(lines, "volume_notifications"),
      volumeOther := Extracted(lines, "volume_other")
    )
  }

  const DEFAULT_CLIENT_ID := "chime"
  const DEFAULT_RING_TOPIC := "doorbell/ring"
  const DEFAULT_SUCCESS_PATH := "/usr/local/share/chime/test.wav"
  const DEFAULT_FAILURE_PATH := "/usr/local/share/chime/ring.wav"

  function OrDefault(text: string, default: string): string {
    if text == "" then default else text
  }

  /** webd's `ParseInt`: unlike the daemon's setter it rejects an empty text. */
  function WebInt(text: string, min: int, max: int, default: int): int {
    if Trim(text) == "" then default
    else
      match ParseNumber(Trim(text), min, max)
      case Some(n) => n
      case None => default
  }

  function WebBool(text: string, default: bool): bool {
    match ParseFlag(Trim(text))
    case Some(b) => b
    case None => default
  }

  /** The typed configuration that webd makes of the raw texts. */
  function ConfigFrom(raw: Raw, ssid: string): CoreConfig {
    CoreConfig(
      wifiSsid := ssid,
      mqttHost := raw.host,
      mqttPort := WebInt(raw.port, 1, 65535, 1883),
      mqttClientId := OrDefault(raw.clientId, DEFAULT_CLIENT_ID),
      mqttUsername := raw.username,
      mqttPassword := raw.password,
      mqttTlsEnabled := WebBool(raw.tlsEnabled, false),
      mqttTlsValidateCertificate := WebBool(raw.tlsValidate, true),
      mqttTlsCaFile := raw.caFile,
      mqttTlsCertFile := raw.certFile,
      mqttTlsKeyFile := raw.keyFile,
      mqttTopics := SplitCsv(raw.topics),
      ringTopic := OrDefault(raw.ringTopic, DEFAULT_RING_TOPIC),
      successSoundPath := OrDefault(raw.successPath, DEFAULT_SUCCESS_PATH),
      failureSoundPath := OrDefault(raw.failurePath, DEFAULT_FAILURE_PATH),
      volumeBell := WebInt(raw.volumeBell, 0, 100, 80),
      volumeNotifications := WebInt(raw.volumeNotifications, 0, 100, 70),
      volumeOther := WebInt(raw.volumeOther, 0, 100, 70)
    )
  }

  /** The lines that a save writes over `lines`. */
  ghost function SavedFor(lines: seq<string>, c: CoreConfig): seq<string> {
    ReplacementsAreATable(RawFor(c));
    Saved(lines, MANAGED_KEYS, Replacements(RawFor(c)))
  }

  /** What a reader finds in the file after the save. */
  ghost function FileAfterSave(lines: seq<string>, c: CoreConfig): seq<string> {
    Lines(Joined(SavedFor(lines, c)))
  }

  // ------------------------------------------------------- raw texts come back

  function TrimRaw(raw: Raw): Raw {
    Raw(Trim(raw.clientId), Trim(raw.host), Trim(raw.password), Trim(raw.port), Trim(raw.caFile), Trim(raw.certFile),
        Trim(raw.tlsEnabled), Trim(raw.keyFile), Trim(raw.tlsValidate), Trim(raw.topics), Trim(raw.username),
        Trim(raw.failurePath), Trim(raw.successPath), Trim(raw.ringTopic),
        Trim(raw.volumeBell), Trim(raw.volumeNotifications), Trim(raw.volumeOther))
  }

  lemma RawOfAt(lines: seq<string>)
    ensures |MANAGED_KEYS| == 17
    ensures forall i | 0 <= i < 17 :: TextsOf(RawOf(lines))[i] == Extracted(lines, MANAGED_KEYS[i])
  {
    hide Extracted;
  }

  lemma TextsOfTrimmed(raw: Raw)
    ensures forall i | 0 <= i < 17 :: TextsOf(TrimRaw(raw))[i] == Trim(TextsOf(raw)[i])
  {
    hide Trim;
  }

  ghost predicate TextsLfFree(raw: Raw) {
    forall i | 0 <= i < 17 :: LfFree(TextsOf(raw)[i])
  }

  /** webd reads every raw text back, trimmed. */
  lemma RawAfterSave(lines: seq<string>, raw: Raw)
    ensures Table(MANAGED_KEYS, Replacements(raw))
    ensures RawOf(Saved(lines, MANAGED_KEYS, Replacements(raw))) == TrimRaw(raw)
  {
    hide Extracted, Trim, RawOf, TrimRaw, TextsOf, Replacements, Saved;
    ReplacementsAreATable(raw);
    var saved := Saved(lines, MANAGED_KEYS, Replacements(raw));
    RawOfAt(saved);
    TextsOfTrimmed(raw);
    forall i | 0 <= i < 17 ensures TextsOf(RawOf(saved))[i] == TextsOf(TrimRaw(raw))[i] {
      ExtractedAfterSave(lines, MANAGED_KEYS, Replacements(raw), MANAGED_KEYS[i]);
    }
    assert TextsOf(RawOf(saved)) == TextsOf(TrimRaw(raw));
    RawOfTexts(RawOf(saved));
    RawOfTexts(TrimRaw(raw));
  }

  lemma FileHasSavedLines(lines: seq<string>, c: CoreConfig)
    requires LinesLfFree(lines) && TextsLfFree(RawFor(c))
    ensures FileAfterSave(lines, c) == SavedFor(lines, c)
  {
    hide RawFor, Replacements, Saved, TextsOf;
    var raw := RawFor(c);
    var m := Replacements(raw);
    ReplacementsAreATable(raw);
    forall k | k in m ensures LfFree(k) && LfFree(m[k]) {
      var i :| 0 <= i < |MANAGED_KEYS| && MANAGED_KEYS[i] == k;
      assert m[k] == TextsOf(raw)[i];
    }
    SavedFileHasTheseLines(lines, MANAGED_KEYS, m);
  }

  // --------------------------------------------- typed values come back exactly

  predicate PlainText(t: string) {
    Trimmed(t) && LfFree(t)
  }

  /** Configurations that the file can hold: texts trimmed and without line feeds, plain topics. */
  ghost predicate Storable(c: CoreConfig) {
    && PlainText(c.mqttHost) && PlainText(c.mqttClientId) && PlainText(c.mqttUsername) && PlainText(c.mqttPassword)
    && PlainText(c.mqttTlsCaFile) && PlainText(c.mqttTlsCertFile) && PlainText(c.mqttTlsKeyFile)
    && PlainText(c.ringTopic) && PlainText(c.successSoundPath) && PlainText(c.failureSoundPath)
    && PlainItems(c.mqttTopics) && LinesLfFree(c.mqttTopics)
  }

  /** What validation guarantees of the fields that have a range or a default. */
  predicate InRange(c: CoreConfig) {
    && 1 <= c.mqttPort <= 65535
    && 0 <= c.volumeBell <= 100 && 0 <= c.volumeNotifications <= 100 && 0 <= c.volumeOther <= 100
    && c.mqttClientId != "" && c.ringTopic != "" && c.successSoundPath != "" && c.failureSoundPath != ""
  }

  lemma {:induction false} JoinLfFree(items: seq<string>)
    requires LinesLfFree(items)
    ensures LfFree(JoinCsv(items))
  {
    if |items| >= 2 {
      JoinLfFree(items[..|items| - 1]);
    }
  }

  lemma {:induction false} SplitLfFree(csv: string)
    requires LfFree(csv)
    ensures LinesLfFree(SplitCsv(csv))
    decreases |csv|
  {
    if csv != "" {
      var item := csv[..IndexOf(csv, ',')];
      if '\n' in Trim(item) {
        TrimKeepsChars(item, '\n');
      }
      SplitLfFree(AfterComma(csv));
    }
  }

  lemma NumberReadsBack(n: int, min: int, max: int, default: int)
    requires LONG_MIN <= min <= n <= max <= LONG_MAX
    ensures Trim(IntToString(n)) == IntToString(n)
    ensures ParseNumber(IntToString(n), min, max) == Some(n) && WebInt(IntToString(n), min, max, default) == n
  {
    hide Strtol, Trim;
    IntToStringClean(n);
    TrimFixed(IntToString(n));
    StrtolOfInt(n);
  }

  /**
    For the same text and default both readers hold the same number, unless the text is empty: the daemon's
    strtol reads it as a complete 0, where webd keeps its default.
   */
  lemma NumberReadersAgree(text: string, min: int, max: int, default: int)
    requires Trimmed(text)
    ensures Set(NumberKind(min, max), NumberValue(default), text).0 == NumberValue(WebInt(text, min, max, default))
            <==> text != "" || default == 0 || !(min <= 0 <= max)
  {
    hide Strtol;
    TrimFixed(text);
    EmptyNumber();
  }

  lemma EmptyNumber()
    ensures Strtol("", 10) == (0, "")
  {
    IndexOfIs("", '\0', 0);
    assert CStr("") == "";
  }

  lemma BoolReadsBack(b: bool, default: bool)
    ensures Trim(BoolToConfig(b)) == BoolToConfig(b)
    ensures ParseFlag(BoolToConfig(b)) == Some(b) && WebBool(BoolToConfig(b), default) == b
  {
    TrimFixed(BoolToConfig(b));
    assert ToLower("true") == "true" && ToLower("false") == "false";
  }

  ghost predicate PlainTexts(raw: Raw) {
    forall i | 0 <= i < 17 :: PlainText(TextsOf(raw)[i])
  }

  lemma PlainTextsStay(raw: Raw)
    requires PlainTexts(raw)
    ensures TextsLfFree(raw) && TrimRaw(raw) == raw
  {
    hide Trim, TrimRaw, TextsOf;
    TextsOfTrimmed(raw);
    forall i | 0 <= i < 17 ensures TextsOf(TrimRaw(raw))[i] == TextsOf(raw)[i] {
      assert PlainText(TextsOf(raw)[i]);
      TrimFixed(TextsOf(raw)[i]);
    }
    assert TextsOf(TrimRaw(raw)) == TextsOf(raw);
    RawOfTexts(raw);
    RawOfTexts(TrimRaw(raw));
  }

  lemma WrittenTextsArePlain(n: int, b: bool, topics: seq<string>)
    ensures PlainText(IntToString(n)) && PlainText(BoolToConfig(b))
    ensures PlainItems(topics) && LinesLfFree(topics) ==> PlainText(JoinCsv(topics))
  {
    hide JoinCsv, IntToString;
    IntToStringClean(n);
    if PlainItems(topics) && LinesLfFree(topics) {
      JoinLfFree(topics);
      JoinOfPlainItems(topics);
    }
  }

  lemma StorableTextsArePlain(c: CoreConfig)
    requires Storable(c)
    ensures PlainTexts(RawFor(c))
  {
    hide JoinCsv, IntToString, PlainText, BoolToConfig;
    WrittenTextsArePlain(c.mqttPort, c.mqttTlsEnabled, c.mqttTopics);
    WrittenTextsArePlain(c.volumeBell, c.mqttTlsValidateCertificate, []);
    WrittenTextsArePlain(c.volumeNotifications, true, []);
    WrittenTextsArePlain(c.volumeOther, true, []);
  }

  lemma StorableTexts(c: CoreConfig)
    requires Storable(c)
    ensures TextsLfFree(RawFor(c)) && TrimRaw(RawFor(c)) == RawFor(c)
  {
    hide RawFor, TrimRaw, TextsLfFree, Storable;
    StorableTextsArePlain(c);
    PlainTextsStay(RawFor(c));
  }

  lemma TypedValuesReadBack(c: CoreConfig)
    requires Storable(c) && InRange(c)
    ensures ConfigFrom(RawFor(c), c.wifiSsid) == c
  {
    hide WebInt, WebBool, IntToString, JoinCsv, SplitCsv, PlainText;
    NumberReadsBack(c.mqttPort, 1, 65535, 1883);
    NumberReadsBack(c.volumeBell, 0, 100, 80);
    NumberReadsBack(c.volumeNotifications, 0, 100, 70);
    NumberReadsBack(c.volumeOther, 0, 100, 70);
    BoolReadsBack(c.mqttTlsEnabled, false);
    BoolReadsBack(c.mqttTlsValidateCertificate, true);
    SplitOfJoin(c.mqttTopics);
  }

  lemma WebIntInRange(text: string, min: int, max: int, default: int)
    requires min <= default <= max
    ensures min <= WebInt(text, min, max, default) <= max
  {
    hide Strtol;
  }

  lemma DefaultsArePlain()
    ensures PlainText(DEFAULT_CLIENT_ID) && PlainText(DEFAULT_RING_TOPIC)
    ensures PlainText(DEFAULT_SUCCESS_PATH) && PlainText(DEFAULT_FAILURE_PATH)
  {
  }

  lemma RawOfIsPlain(lines: seq<string>)
    requires LinesLfFree(lines)
    ensures PlainTexts(RawOf(lines))
  {
    hide Extracted, RawOf, TextsOf;
    RawOfAt(lines);
    forall i | 0 <= i < 17 ensures PlainText(TextsOf(RawOf(lines))[i]) {
      ExtractedLfFree(lines, MANAGED_KEYS[i]);
    }
  }

  lemma ConfigFromPlainTexts(raw: Raw, ssid: string)
    requires PlainTexts(raw)
    ensures Storable(ConfigFrom(raw, ssid)) && InRange(ConfigFrom(raw, ssid))
  {
    hide WebInt, WebBool, SplitCsv, PlainText;
    var t := TextsOf(raw);
    assert t[0] == raw.clientId && t[1] == raw.host && t[2] == raw.password && t[4] == raw.caFile;
    assert t[5] == raw.certFile && t[7] == raw.keyFile && t[9] == raw.topics && t[10] == raw.username;
    assert t[11] == raw.failurePath && t[12] == raw.successPath && t[13] == raw.ringTopic;
    DefaultsArePlain();
    SplitItemsArePlain(raw.topics);
    PlainTextIsLfFree(raw.topics);
    SplitLfFree(raw.topics);
    WebIntInRange(raw.port, 1, 65535, 1883);
    WebIntInRange(raw.volumeBell, 0, 100, 80);
    WebIntInRange(raw.volumeNotifications, 0, 100, 70);
    WebIntInRange(raw.volumeOther, 0, 100, 70);
  }

  lemma PlainTextIsLfFree(t: string)
    requires PlainText(t)
    ensures LfFree(t)
  {
  }

  /** Whatever a file contains, webd loads a configuration that the file can hold. */
  lemma LoadedIsStorable(lines: seq<string>, ssid: string)
    requires LinesLfFree(lines)
    ensures Storable(ConfigFrom(RawOf(lines), ssid)) && InRange(ConfigFrom(RawOf(lines), ssid))
  {
    hide RawOf, ConfigFrom, Storable, InRange;
    RawOfIsPlain(lines);
    ConfigFromPlainTexts(RawOf(lines), ssid);
  }

  /**
    Saving and reloading returns exactly the requested configuration if and only if it is storable:
    texts trimmed and free of line feeds, topics non-empty and free of commas as well.
   */
  lemma ReloadIsExact(lines: seq<string>, c: CoreConfig)
    requires LinesLfFree(lines) && InRange(c)
    ensures ConfigFrom(RawOf(FileAfterSave(lines, c)), c.wifiSsid) == c <==> Storable(c)
  {
    hide RawOf, ConfigFrom, Storable, InRange, RawFor, TrimRaw, Replacements;
    if Storable(c) {
      StorableTexts(c);
      FileHasSavedLines(lines, c);
      RawAfterSave(lines, RawFor(c));
      TypedValuesReadBack(c);
    }
    LoadedIsStorable(FileAfterSave(lines, c), c.wifiSsid);
  }

  // ------------------------------------------------------ the daemon's reading

  /** What the daemon's `load` leaves in a field of its table, and whether it accepted a value for it. */
  function Loaded(lines: seq<string>, slot: nat): (Setting, bool)
    requires |FIELDS| == |DEFAULTS| && slot < |FIELDS|
  {
    Folded(FIELDS[slot].kind, DEFAULTS[slot], Values(lines, FIELDS[slot].key))
  }

  /** `load` succeeds exactly when every required field has an accepted value (see `DaemonConfig.Load`). */
  ghost predicate DaemonLoads(lines: seq<string>) {
    FieldsAreDistinct();
    forall slot | 0 <= slot < 24 && FIELDS[slot].required :: Loaded(lines, slot).1
  }

  /** The daemon's settings for the managed keys are those of `c`. */
  ghost predicate DaemonAgrees(lines: seq<string>, c: CoreConfig) {
    DaemonTextsAgree(lines, c) && DaemonValuesAgree(lines, c)
  }

  ghost predicate DaemonTextsAgree(lines: seq<string>, c: CoreConfig) {
    FieldsAreDistinct();
    && Loaded(lines, 0).0 == TextValue(c.mqttHost)
    && Loaded(lines, 2).0 == TextValue(c.mqttClientId)
    && Loaded(lines, 3).0 == TextValue(c.mqttUsername)
    && Loaded(lines, 4).0 == TextValue(c.mqttPassword)
    && Loaded(lines, 7).0 == TextValue(c.mqttTlsCaFile)
    && Loaded(lines, 8).0 == TextValue(c.mqttTlsCertFile)
    && Loaded(lines, 9).0 == TextValue(c.mqttTlsKeyFile)
    && Loaded(lines, 14).0 == TextValue(c.ringTopic)
    && Loaded(lines, 16).0 == TextValue(c.successSoundPath)
    && Loaded(lines, 17).0 == TextValue(c.failureSoundPath)
  }

  ghost predicate DaemonValuesAgree(lines: seq<string>, c: CoreConfig) {
    FieldsAreDistinct();
    && Loaded(lines, 1).0 == NumberValue(c.mqttPort)
    && Loaded(lines, 5).0 == FlagValue(c.mqttTlsEnabled)
    && Loaded(lines, 6).0 == FlagValue(c.mqttTlsValidateCertificate)
    && Loaded(lines, 10).0 == ListValue(c.mqttTopics)
    && Loaded(lines, 18).0 == NumberValue(c.volumeBell)
    && Loaded(lines, 19).0 == NumberValue(c.volumeNotifications)
    && Loaded(lines, 20).0 == NumberValue(c.volumeOther)
  }

  /** The texts in the order of the daemon's table; None for keys that webd does not manage. */
  function TextInSlot(raw: Raw, slot: nat): Option<string> {
    match slot
    case 0 => Some(raw.host)
    case 1 => Some(raw.port)
    case 2 => Some(raw.clientId)
    case 3 => Some(raw.username)
    case 4 => Some(raw.password)
    case 5 => Some(raw.tlsEnabled)
    case 6 => Some(raw.tlsValidate)
    case 7 => Some(raw.caFile)
    case 8 => Some(raw.certFile)
    case 9 => Some(raw.keyFile)
    case 10 => Some(raw.topics)
    case 14 => Some(raw.ringTopic)
    case 16 => Some(raw.successPath)
    case 17 => Some(raw.failurePath)
    case 18 => Some(raw.volumeBell)
    case 19 => Some(raw.volumeNotifications)
    case 20 => Some(raw.volumeOther)
    case _ => None
  }

  lemma TextAtManagedSlot(raw: Raw, i: nat)
    requires i < 17
    ensures |MANAGED_SLOTS| == 17 && 0 <= MANAGED_SLOTS[i] < 24
    ensures TextInSlot(raw, MANAGED_SLOTS[i]) == Some(TextsOf(raw)[i])
  {
  }

  lemma ManagedSlotsAreComplete(slot: nat)
    requires slot < 24
    ensures |MANAGED_SLOTS| == 17
    ensures (exists i | 0 <= i < 17 :: MANAGED_SLOTS[i] == slot)
            <==> slot != 11 && slot != 12 && slot != 13 && slot != 15 && slot != 21 && slot != 22 && slot != 23
  {
    assert MANAGED_SLOTS[1] == 0 && MANAGED_SLOTS[3] == 1 && MANAGED_SLOTS[0] == 2 && MANAGED_SLOTS[10] == 3;
    assert MANAGED_SLOTS[2] == 4 && MANAGED_SLOTS[6] == 5 && MANAGED_SLOTS[8] == 6 && MANAGED_SLOTS[4] == 7;
    assert MANAGED_SLOTS[5] == 8 && MANAGED_SLOTS[7] == 9 && MANAGED_SLOTS[9] == 10 && MANAGED_SLOTS[13] == 14;
    assert MANAGED_SLOTS[12] == 16 && MANAGED_SLOTS[11] == 17 && MANAGED_SLOTS[14] == 18;
    assert MANAGED_SLOTS[15] == 19 && MANAGED_SLOTS[16] == 20;
  }

  /** The managed key with number i is the key of the daemon's field MANAGED_SLOTS[i]. */
  lemma KeyOfManagedSlot(i: nat)
    requires i < 17
    ensures |MANAGED_KEYS| == |MANAGED_SLOTS| == 17 && |FIELDS| == 24
    ensures 0 <= MANAGED_SLOTS[i] < 24 && FIELDS[MANAGED_SLOTS[i]].key == MANAGED_KEYS[i]
  {
    assert |FIELDS| == 24;
  }

  lemma KeyOfOtherSlot(slot: nat)
    requires slot < 24 && TextInSlot(RawFrom(seq(17, _ => "")), slot).None?
    ensures |FIELDS| == 24 && FIELDS[slot].key !in MANAGED_KEYS
  {
    FieldsAreDistinct();
    ManagedSlotsAreComplete(slot);
    if FIELDS[slot].key in MANAGED_KEYS {
      var i :| 0 <= i < |MANAGED_KEYS| && MANAGED_KEYS[i] == FIELDS[slot].key;
      KeyOfManagedSlot(i);
      assert false;
    }
  }

  lemma ManagedSlotAfterSave(lines: seq<string>, raw: Raw, i: nat)
    requires i < 17
    ensures Table(MANAGED_KEYS, Replacements(raw)) && |FIELDS| == |DEFAULTS| == 24
    ensures |MANAGED_SLOTS| == 17 && 0 <= MANAGED_SLOTS[i] < 24
    ensures Loaded(Saved(lines, MANAGED_KEYS, Replacements(raw)), MANAGED_SLOTS[i])
         == Set(FIELDS[MANAGED_SLOTS[i]].kind, DEFAULTS[MANAGED_SLOTS[i]], Trim(TextsOf(raw)[i]))
  {
    hide Trim, Replacements, Set, Saved, TextsOf, Folded, Values;
    ReplacementsAreATable(raw);
    FieldsAreDistinct();
    KeyOfManagedSlot(i);
    var f, default := FIELDS[MANAGED_SLOTS[i]], DEFAULTS[MANAGED_SLOTS[i]];
    ManagedFieldAfterSave(lines, MANAGED_KEYS, Replacements(raw), f, default);
  }

  lemma OtherSlotAfterSave(lines: seq<string>, raw: Raw, slot: nat)
    requires slot < 24 && TextInSlot(raw, slot).None?
    ensures Table(MANAGED_KEYS, Replacements(raw)) && |FIELDS| == |DEFAULTS| == 24
    ensures Loaded(Saved(lines, MANAGED_KEYS, Replacements(raw)), slot) == Loaded(lines, slot)
  {
    hide Trim, Replacements, Set, Saved, TextsOf, Folded, Values;
    ReplacementsAreATable(raw);
    FieldsAreDistinct();
    KeyOfOtherSlot(slot);
    var f, default := FIELDS[slot], DEFAULTS[slot];
    OtherFieldAfterSave(lines, MANAGED_KEYS, Replacements(raw), f, default);
  }

  lemma {:induction false} NothingExtracted(lines: seq<string>, k: string)
    requires PlainKey(k) && Values(lines, k) == []
    ensures Extracted(lines, k) == ""
  {
    hide ParseLine, Canonical, CanonicalValue;
    if lines != [] {
      var n := |lines| - 1;
      if Canonical(lines[n], k) {
        CanonicalIsParsed(lines[n], k);
      }
      NothingExtracted(lines[..n], k);
    }
  }

  lemma NothingInSlot(lines: seq<string>, i: nat)
    requires i < 17 && |MANAGED_KEYS| == 17 && Values(lines, MANAGED_KEYS[i]) == []
    ensures |FIELDS| == |DEFAULTS| == 24 && |MANAGED_SLOTS| == 17 && 0 <= MANAGED_SLOTS[i] < 24
    ensures Loaded(lines, MANAGED_SLOTS[i]) == (DEFAULTS[MANAGED_SLOTS[i]], false)
    ensures TextsOf(RawOf(lines))[i] == ""
  {
    hide Values, Extracted, TextsOf, RawOf;
    FieldsAreDistinct();
    KeyOfManagedSlot(i);
    ManagedKeysArePlain();
    NothingExtracted(lines, MANAGED_KEYS[i]);
    RawOfAt(lines);
  }

  const NO_TEXTS := Raw("", "", "", "", "", "", "", "", "", "", "", "", "", "", "", "", "")

  lemma EmptyTexts(raw: Raw)
    requires forall i | 0 <= i < 17 :: TextsOf(raw)[i] == ""
    ensures raw == NO_TEXTS
  {
    var t := TextsOf(raw);
    assert t[0] == t[1] == t[2] == t[3] == t[4] == t[5] == t[6] == t[7] == t[8] == "";
    assert t[9] == t[10] == t[11] == t[12] == t[13] == t[14] == t[15] == t[16] == "";
  }

  lemma EmptyReadings()
    ensures WebInt("", 1, 65535, 1883) == 1883 && WebInt("", 0, 100, 80) == 80 && WebInt("", 0, 100, 70) == 70
    ensures !WebBool("", false) && WebBool("", true) && SplitCsv("") == []
  {
    TrimFixed("");
    assert |ToLower("")| == 0;
  }

  lemma NoTexts(lines: seq<string>)
    requires forall k <- MANAGED_KEYS :: Values(lines, k) == []
    ensures RawOf(lines) == NO_TEXTS
  {
    hide Values, Extracted, TextsOf, RawOf, Loaded;
    ManagedKeysAreDistinct();
    forall i | 0 <= i < 17 ensures TextsOf(RawOf(lines))[i] == "" {
      NothingInSlot(lines, i);
    }
    EmptyTexts(RawOf(lines));
  }

  function DefaultOf(slot: nat): Setting {
    if slot < |DEFAULTS| then DEFAULTS[slot] else TextValue("")
  }

  lemma SlotDefault(lines: seq<string>, slot: nat)
    requires slot < 24 && TextInSlot(NO_TEXTS, slot).Some? && forall k <- MANAGED_KEYS :: Values(lines, k) == []
    ensures |FIELDS| == |DEFAULTS| == 24 && Loaded(lines, slot).0 == DefaultOf(slot)
  {
    hide Values, Extracted, TextsOf, RawOf, Loaded;
    ManagedKeysAreDistinct();
    ManagedSlotsAreComplete(slot);
    var i :| 0 <= i < 17 && MANAGED_SLOTS[i] == slot;
    NothingInSlot(lines, i);
  }

  lemma AllDefaults(lines: seq<string>)
    requires forall k <- MANAGED_KEYS :: Values(lines, k) == []
    ensures |FIELDS| == |DEFAULTS| == 24
    ensures forall slot | 0 <= slot < 24 && TextInSlot(NO_TEXTS, slot).Some? ::
              Loaded(lines, slot).0 == DefaultOf(slot)
  {
    hide Values, Loaded, DefaultOf;
    FieldsAreDistinct();
    forall slot | 0 <= slot < 24 && TextInSlot(NO_TEXTS, slot).Some?
      ensures Loaded(lines, slot).0 == DefaultOf(slot)
    {
      SlotDefault(lines, slot);
    }
  }

  lemma DefaultTexts()
    ensures DefaultOf(0) == DefaultOf(3) == DefaultOf(4) == TextValue("")
    ensures DefaultOf(7) == DefaultOf(8) == DefaultOf(9) == TextValue("")
    ensures DefaultOf(2) == TextValue(DEFAULT_CLIENT_ID) && DefaultOf(14) == TextValue(DEFAULT_RING_TOPIC)
    ensures DefaultOf(16) == TextValue(DEFAULT_SUCCESS_PATH) && DefaultOf(17) == TextValue(DEFAULT_FAILURE_PATH)
  {
  }

  lemma DefaultValues()
    ensures DefaultOf(1) == NumberValue(0) && DefaultOf(5) == FlagValue(false) && DefaultOf(6) == FlagValue(true)
    ensures DefaultOf(10) == ListValue([])
    ensures DefaultOf(18) == NumberValue(80) && DefaultOf(19) == DefaultOf(20) == NumberValue(70)
  {
  }

  lemma DefaultConfig(ssid: string)
    ensures ConfigFrom(NO_TEXTS, ssid) ==
            CoreConfig(ssid, "", 1883, DEFAULT_CLIENT_ID, "", "", false, true, "", "", "", [], DEFAULT_RING_TOPIC,
                       DEFAULT_SUCCESS_PATH, DEFAULT_FAILURE_PATH, 80, 70, 70)
  {
    hide WebInt, WebBool, SplitCsv;
    EmptyReadings();
  }

  lemma DefaultTextsAgree(lines: seq<string>, c: CoreConfig)
    requires forall k <- MANAGED_KEYS :: Values(lines, k) == []
    requires c == ConfigFrom(NO_TEXTS, c.wifiSsid).(mqttPort := 0)
    ensures DaemonTextsAgree(lines, c)
  {
    hide Values, Loaded, ConfigFrom, DefaultOf;
    DefaultConfig(c.wifiSsid);
    DefaultTexts();
    AllDefaults(lines);
  }

  lemma DefaultValuesAgree(lines: seq<string>, c: CoreConfig)
    requires forall k <- MANAGED_KEYS :: Values(lines, k) == []
    requires c == ConfigFrom(NO_TEXTS, c.wifiSsid).(mqttPort := 0)
    ensures DaemonValuesAgree(lines, c)
  {
    hide Values, Loaded, ConfigFrom, DefaultOf;
    DefaultConfig(c.wifiSsid);
    DefaultValues();
    AllDefaults(lines);
  }

  /**
    On a file that sets none of the managed keys the two readers hold the same defaults, but for the port: webd shows
    1883, and the daemon, which requires one, has 0.
   */
  lemma DefaultsAgree(lines: seq<string>, ssid: string)
    requires forall k <- MANAGED_KEYS :: Values(lines, k) == []
    ensures ConfigFrom(RawOf(lines), ssid).mqttPort == 1883
    ensures DaemonAgrees(lines, ConfigFrom(RawOf(lines), ssid).(mqttPort := 0))
  {
    hide Values, RawOf, ConfigFrom, DaemonTextsAgree, DaemonValuesAgree;
    NoTexts(lines);
    DefaultConfig(ssid);
    DefaultTextsAgree(lines, ConfigFrom(NO_TEXTS, ssid).(mqttPort := 0));
    DefaultValuesAgree(lines, ConfigFrom(NO_TEXTS, ssid).(mqttPort := 0));
  }

  /** After a save a managed field holds what its setter makes of the trimmed text; the others keep their settings. */
  lemma LoadedAfterSave(lines: seq<string>, raw: Raw, slot: nat)
    requires slot < 24
    ensures Table(MANAGED_KEYS, Replacements(raw)) && |FIELDS| == |DEFAULTS| == 24
    ensures var saved, text := Saved(lines, MANAGED_KEYS, Replacements(raw)), TextInSlot(raw, slot);
            Loaded(saved, slot) == if text.Some? then Set(FIELDS[slot].kind, DEFAULTS[slot], Trim(text.value))
                                   else Loaded(lines, slot)
  {
    hide Trim, Replacements, Set, Saved, TextsOf, Loaded;
    ReplacementsAreATable(raw);
    FieldsAreDistinct();
    ManagedSlotsAreComplete(slot);
    if TextInSlot(raw, slot).Some? {
      var i :| 0 <= i < 17 && MANAGED_SLOTS[i] == slot;
      TextAtManagedSlot(raw, i);
      ManagedSlotAfterSave(lines, raw, i);
    } else {
      OtherSlotAfterSave(lines, raw, slot);
    }
  }

  lemma KindsOfSlots0()
    ensures |FIELDS| == |DEFAULTS| == 24
    ensures FIELDS[0].kind == TextKind && FIELDS[1].kind == NumberKind(1, 65535) && FIELDS[2].kind == TextKind
    ensures FIELDS[3].kind == TextKind && FIELDS[4].kind == TextKind
  {
  }

  lemma KindsOfSlots1()
    ensures |FIELDS| == |DEFAULTS| == 24
    ensures FIELDS[5].kind == FlagKind && FIELDS[6].kind == FlagKind
    ensures FIELDS[7].kind == TextKind && FIELDS[8].kind == TextKind
  {
  }

  lemma KindsOfSlots2()
    ensures |FIELDS| == |DEFAULTS| == 24
    ensures FIELDS[9].kind == TextKind && FIELDS[10].kind == ListKind && FIELDS[14].kind == TextKind
    ensures FIELDS[16].kind == TextKind && FIELDS[17].kind == TextKind && FIELDS[18].kind == NumberKind(0, 100)
    ensures FIELDS[19].kind == NumberKind(0, 100) && FIELDS[20].kind == NumberKind(0, 100)
  {
  }

  lemma RequiredSlots()
    ensures |FIELDS| == 24
    ensures forall slot | 0 <= slot < 24 :: FIELDS[slot].required <==> slot == 0 || slot == 1 || slot == 10
  {
  }

  lemma TextSlotAfterSave(lines: seq<string>, c: CoreConfig, slot: nat, text: string)
    requires slot < 24 && TextInSlot(RawFor(c), slot) == Some(text)
    requires |FIELDS| == 24 && FIELDS[slot].kind == TextKind
    ensures |DEFAULTS| == 24 && Loaded(SavedFor(lines, c), slot) == (TextValue(Trim(text)), true)
  {
    hide Trim, Replacements, RawFor, Loaded, Saved;
    LoadedAfterSave(lines, RawFor(c), slot);
  }

  lemma NumberSlotAfterSave(lines: seq<string>, c: CoreConfig, slot: nat, n: int, min: int, max: int)
    requires slot < 24 && TextInSlot(RawFor(c), slot) == Some(IntToString(n)) && LONG_MIN <= min <= n <= max <= LONG_MAX
    requires |FIELDS| == 24 && FIELDS[slot].kind == NumberKind(min, max)
    ensures |DEFAULTS| == 24 && Loaded(SavedFor(lines, c), slot) == (NumberValue(n), true)
  {
    hide Trim, Replacements, RawFor, Loaded, Saved, IntToString;
    LoadedAfterSave(lines, RawFor(c), slot);
    NumberReadsBack(n, min, max, 0);
  }

  lemma FlagSlotAfterSave(lines: seq<string>, c: CoreConfig, slot: nat, b: bool)
    requires slot < 24 && TextInSlot(RawFor(c), slot) == Some(BoolToConfig(b))
    requires |FIELDS| == 24 && FIELDS[slot].kind == FlagKind
    ensures |DEFAULTS| == 24 && Loaded(SavedFor(lines, c), slot) == (FlagValue(b), true)
  {
    hide Trim, Replacements, RawFor, Loaded, Saved, BoolToConfig, ParseFlag;
    LoadedAfterSave(lines, RawFor(c), slot);
    BoolReadsBack(b, b);
  }

  lemma ListSlotAfterSave(lines: seq<string>, c: CoreConfig)
    ensures |FIELDS| == |DEFAULTS| == 24
    ensures var items := SplitCsv(Trim(JoinCsv(c.mqttTopics)));
            Loaded(SavedFor(lines, c), 10) == (ListValue(items), items != [])
  {
    hide Trim, Replacements, Loaded, Saved, JoinCsv, SplitCsv, IntToString, BoolToConfig;
    KindsOfSlots1();
    KindsOfSlots2();
    LoadedAfterSave(lines, RawFor(c), 10);
  }

  /** What the daemon holds after a save, key by key. */
  lemma DaemonAfterSave(lines: seq<string>, c: CoreConfig)
    requires InRange(c)
    ensures |FIELDS| == |DEFAULTS| == 24
    ensures var f := SavedFor(lines, c);
            && Loaded(f, 0) == (TextValue(Trim(c.mqttHost)), true)
            && Loaded(f, 1) == (NumberValue(c.mqttPort), true)
            && Loaded(f, 2).0 == TextValue(Trim(c.mqttClientId))
            && Loaded(f, 3).0 == TextValue(Trim(c.mqttUsername))
            && Loaded(f, 4).0 == TextValue(Trim(c.mqttPassword))
            && Loaded(f, 5).0 == FlagValue(c.mqttTlsEnabled)
            && Loaded(f, 6).0 == FlagValue(c.mqttTlsValidateCertificate)
            && Loaded(f, 7).0 == TextValue(Trim(c.mqttTlsCaFile))
            && Loaded(f, 8).0 == TextValue(Trim(c.mqttTlsCertFile))
            && Loaded(f, 9).0 == TextValue(Trim(c.mqttTlsKeyFile))
            && Loaded(f, 14).0 == TextValue(Trim(c.ringTopic))
            && Loaded(f, 16).0 == TextValue(Trim(c.successSoundPath))
            && Loaded(f, 17).0 == TextValue(Trim(c.failureSoundPath))
            && Loaded(f, 18).0 == NumberValue(c.volumeBell)
            && Loaded(f, 19).0 == NumberValue(c.volumeNotifications)
            && Loaded(f, 20).0 == NumberValue(c.volumeOther)
  {
    hide Trim, Loaded, SavedFor, JoinCsv, IntToString, BoolToConfig;
    KindsOfSlots0();
    KindsOfSlots1();
    KindsOfSlots2();
    TextSlotAfterSave(lines, c, 0, c.mqttHost);
    NumberSlotAfterSave(lines, c, 1, c.mqttPort, 1, 65535);
    TextSlotAfterSave(lines, c, 2, c.mqttClientId);
    TextSlotAfterSave(lines, c, 3, c.mqttUsername);
    TextSlotAfterSave(lines, c, 4, c.mqttPassword);
    FlagSlotAfterSave(lines, c, 5, c.mqttTlsEnabled);
    FlagSlotAfterSave(lines, c, 6, c.mqttTlsValidateCertificate);
    TextSlotAfterSave(lines, c, 7, c.mqttTlsCaFile);
    TextSlotAfterSave(lines, c, 8, c.mqttTlsCertFile);
    TextSlotAfterSave(lines, c, 9, c.mqttTlsKeyFile);
    TextSlotAfterSave(lines, c, 14, c.ringTopic);
    TextSlotAfterSave(lines, c, 16, c.successSoundPath);
    TextSlotAfterSave(lines, c, 17, c.failureSoundPath);
    NumberSlotAfterSave(lines, c, 18, c.volumeBell, 0, 100);
    NumberSlotAfterSave(lines, c, 19, c.volumeNotifications, 0, 100);
    NumberSlotAfterSave(lines, c, 20, c.volumeOther, 0, 100);
  }

  lemma WebAfterSave(c: CoreConfig)
    requires InRange(c)
    ensures var w := ConfigFrom(TrimRaw(RawFor(c)), c.wifiSsid);
            && w.mqttHost == Trim(c.mqttHost) && w.mqttPort == c.mqttPort
            && w.mqttClientId == OrDefault(Trim(c.mqttClientId), DEFAULT_CLIENT_ID)
            && w.mqttUsername == Trim(c.mqttUsername) && w.mqttPassword == Trim(c.mqttPassword)
            && w.mqttTlsEnabled == c.mqttTlsEnabled && w.mqttTlsValidateCertificate == c.mqttTlsValidateCertificate
            && w.mqttTlsCaFile == Trim(c.mqttTlsCaFile) && w.mqttTlsCertFile == Trim(c.mqttTlsCertFile)
            && w.mqttTlsKeyFile == Trim(c.mqttTlsKeyFile)
            && w.mqttTopics == SplitCsv(Trim(JoinCsv(c.mqttTopics)))
            && w.ringTopic == OrDefault(Trim(c.ringTopic), DEFAULT_RING_TOPIC)
            && w.successSoundPath == OrDefault(Trim(c.successSoundPath), DEFAULT_SUCCESS_PATH)
            && w.failureSoundPath == OrDefault(Trim(c.failureSoundPath), DEFAULT_FAILURE_PATH)
            && w.volumeBell == c.volumeBell && w.volumeNotifications == c.volumeNotifications
            && w.volumeOther == c.volumeOther
  {
    hide Trim, WebInt, WebBool, JoinCsv, SplitCsv, IntToString, BoolToConfig, OrDefault;
    NumberReadsBack(c.mqttPort, 1, 65535, 1883);
    NumberReadsBack(c.volumeBell, 0, 100, 80);
    NumberReadsBack(c.volumeNotifications, 0, 100, 70);
    NumberReadsBack(c.volumeOther, 0, 100, 70);
    BoolReadsBack(c.mqttTlsEnabled, false);
    BoolReadsBack(c.mqttTlsValidateCertificate, true);
  }

  /** Texts for which webd has a default must not be blank. */
  predicate NoBlankDefaulted(c: CoreConfig) {
    Trim(c.mqttClientId) != "" && Trim(c.ringTopic) != "" && Trim(c.successSoundPath) != "" &&
        Trim(c.failureSoundPath) != ""
  }

  /**
    After any save without line feeds the daemon and webd hold the same value for all seventeen keys
    if and only if none of the four texts that webd replaces by a default is blank.
   */
  lemma ReadersAgreeAfterSave(lines: seq<string>, c: CoreConfig)
    requires LinesLfFree(lines) && InRange(c) && TextsLfFree(RawFor(c))
    ensures var file := FileAfterSave(lines, c);
            DaemonAgrees(file, ConfigFrom(RawOf(file), c.wifiSsid)) <==> NoBlankDefaulted(c)
  {
    hide Trim, RawFor, Loaded, RawOf, ConfigFrom, TrimRaw, Saved, Replacements, JoinCsv, SplitCsv, Lines, Joined;
    FileHasSavedLines(lines, c);
    RawAfterSave(lines, RawFor(c));
    DaemonAfterSave(lines, c);
    ListSlotAfterSave(lines, c);
    WebAfterSave(c);
  }

  /**
    For storable configurations both readers return exactly the requested values, and the daemon's
    settings for the keys that webd does not manage are what they were before the save.
   */
  lemma BothReadersReturnTheRequest(lines: seq<string>, c: CoreConfig)
    requires LinesLfFree(lines) && InRange(c) && Storable(c)
    ensures |FIELDS| == |DEFAULTS| == 24
    ensures var file := FileAfterSave(lines, c);
            && ConfigFrom(RawOf(file), c.wifiSsid) == c
            && DaemonAgrees(file, c)
            && forall slot | 0 <= slot < 24 && TextInSlot(RawFor(c), slot).None? ::
                 Loaded(file, slot) == Loaded(lines, slot)
  {
    hide Trim, RawFor, Loaded, RawOf, ConfigFrom, TrimRaw, Saved, Replacements, DaemonAgrees, Lines, Joined, InRange,
         Storable, TextInSlot;
    FieldsAreDistinct();
    StorableTexts(c);
    StorableHasNoBlank(c);
    FileHasSavedLines(lines, c);
    ReloadIsExact(lines, c);
    ReadersAgreeAfterSave(lines, c);
    forall slot | 0 <= slot < 24 && TextInSlot(RawFor(c), slot).None?
      ensures Loaded(SavedFor(lines, c), slot) == Loaded(lines, slot)
    {
      LoadedAfterSave(lines, RawFor(c), slot);
    }
  }

  lemma StorableHasNoBlank(c: CoreConfig)
    requires Storable(c) && InRange(c)
    ensures NoBlankDefaulted(c)
  {
    hide Trim;
    TrimFixed(c.mqttClientId);
    TrimFixed(c.ringTopic);
    TrimFixed(c.successSoundPath);
    TrimFixed(c.failureSoundPath);
  }

  /** Some topic has a character that is neither a comma nor a blank. */
  ghost predicate SomeTopicHasSubstance(topics: seq<string>) {
    exists i | 0 <= i < |topics| :: HasSubstance(topics[i])
  }

  /** After a save without line feeds the daemon starts if and only if some topic has substance. */
  lemma DaemonStartsAfterSave(lines: seq<string>, c: CoreConfig)
    requires LinesLfFree(lines) && InRange(c) && TextsLfFree(RawFor(c))
    ensures DaemonLoads(FileAfterSave(lines, c)) <==> SomeTopicHasSubstance(c.mqttTopics)
  {
    hide Trim, RawFor, Loaded, Saved, Replacements, JoinCsv, SplitCsv, Lines, Joined, SavedFor;
    FileHasSavedLines(lines, c);
    DaemonAfterSave(lines, c);
    ListSlotAfterSave(lines, c);
    JoinedListIsRead(c.mqttTopics);
    RequiredSlots();
  }

  /** Saving the same storable configuration twice leaves the file as one save does. */
  lemma SecondSaveChangesNothing(lines: seq<string>, c: CoreConfig)
    requires LinesLfFree(lines) && TextsLfFree(RawFor(c))
    ensures SavedFor(FileAfterSave(lines, c), c) == SavedFor(lines, c)
  {
    hide RawFor, Saved, Replacements, Lines, Joined;
    FileHasSavedLines(lines, c);
    ReplacementsAreATable(RawFor(c));
    SaveIsIdempotent(lines, MANAGED_KEYS, Replacements(RawFor(c)));
  }
}
