/**
  webd's configuration store: validation, the rule for keeping or clearing passwords, and the save
  of both files.  The two files are the mutable state; a write may fail, and then leaves the old file.
 */
module Configuration {
  import opened Wrappers
  import opened Text
  import opened Csv
  import opened KeyFile
  import opened ChimeFile
  import Wpa

  datatype Snapshot = Snapshot(config: CoreConfig, wifiPasswordSet: bool, mqttPasswordSet: bool)

  /** The request's `config.mqttPassword` is not looked at; the passwords are given separately. */
  datatype SaveRequest = SaveRequest(config: CoreConfig, wifiPassword: Option<string>, mqttPassword: Option<string>)

  datatype ValidationError = ValidationError(field: string, message: string)

  datatype Outcome =
    | Success(snapshot: Snapshot)
    | Invalid(errors: seq<ValidationError>)
    | Failed(error: string)

  // -------------------------------------------------------------- validation

  predicate ValidTopic(topic: string) {
    topic != "" && ' ' !in topic && '\t' !in topic
  }

  predicate ValidSoundPath(path: string) {
    '\n' !in path && '\r' !in path && 1 <= |Trim(path)| <= 256
  }

  predicate ValidWifi(r: SaveRequest) {
    && 1 <= |r.config.wifiSsid| <= 32
    && (r.wifiPassword.Some? && r.wifiPassword.value != "" ==> 8 <= |r.wifiPassword.value| <= 63)
  }

  predicate ValidBroker(c: CoreConfig) {
    && c.mqttHost != "" && ' ' !in c.mqttHost
    && 1 <= c.mqttPort <= 65535
    && 1 <= |c.mqttClientId| <= 128
  }

  predicate ValidLogin(r: SaveRequest) {
    && |r.config.mqttUsername| <= 128
    && (r.mqttPassword.Some? ==> |r.mqttPassword.value| <= 256)
    && (r.config.mqttUsername == "" && r.mqttPassword.Some? ==> r.mqttPassword.value == "")
  }

  predicate ValidTls(c: CoreConfig) {
    && |c.mqttTlsCaFile| <= 256 && |c.mqttTlsCertFile| <= 256 && |c.mqttTlsKeyFile| <= 256
    && (c.mqttTlsCertFile == "" <==> c.mqttTlsKeyFile == "")
  }

  predicate ValidTopics(topics: seq<string>) {
    topics != [] && forall i | 0 <= i < |topics| :: ValidTopic(topics[i])
  }

  predicate ValidSounds(c: CoreConfig) {
    && ValidSoundPath(c.successSoundPath) && ValidSoundPath(c.failureSoundPath)
    && 0 <= c.volumeBell <= 100 && 0 <= c.volumeNotifications <= 100 && 0 <= c.volumeOther <= 100
  }

  predicate ValidRequest(r: SaveRequest) {
    && ValidWifi(r) && ValidBroker(r.config) && ValidLogin(r) && ValidTls(r.config) && ValidTopics(r.config.mqttTopics)
    && ValidTopic(r.config.ringTopic) && ValidSounds(r.config)
  }

  function If(condition: bool, field: string): set<string> {
    if condition then {field} else {}
  }

  function WifiFaults(r: SaveRequest): set<string> {
    If(!(1 <= |r.config.wifiSsid| <= 32), "wifi_ssid") +
    If(r.wifiPassword.Some? && r.wifiPassword.value != "" && !(8 <= |r.wifiPassword.value| <= 63), "wifi_password")
  }

  function BrokerFaults(c: CoreConfig): set<string> {
    If(c.mqttHost == "" || ' ' in c.mqttHost, "mqtt_host") + If(!(1 <= c.mqttPort <= 65535), "mqtt_port") +
    If(!(1 <= |c.mqttClientId| <= 128), "mqtt_client_id")
  }

  function LoginFaults(r: SaveRequest): set<string> {
    If(|r.config.mqttUsername| > 128, "mqtt_username") +
    If(r.mqttPassword.Some? && (|r.mqttPassword.value| > 256 ||
                                (r.config.mqttUsername == "" && r.mqttPassword.value != "")), "mqtt_password")
  }

  function TlsFaults(c: CoreConfig): set<string> {
    If(|c.mqttTlsCaFile| > 256, "mqtt_tls_ca_file") +
    If(|c.mqttTlsCertFile| > 256 || (c.mqttTlsCertFile == "") != (c.mqttTlsKeyFile == ""), "mqtt_tls_cert_file") +
    If(|c.mqttTlsKeyFile| > 256, "mqtt_tls_key_file")
  }

  function TopicFaults(c: CoreConfig): set<string> {
    If(!ValidTopics(c.mqttTopics), "mqtt_topics") + If(!ValidTopic(c.ringTopic), "ring_topic")
  }

  function SoundFaults(c: CoreConfig): set<string> {
    If(!ValidSoundPath(c.successSoundPath), "notification_success_sound_path") +
    If(!ValidSoundPath(c.failureSoundPath), "notification_failure_sound_path") +
    If(!(0 <= c.volumeBell <= 100), "volume_bell") +
    If(!(0 <= c.volumeNotifications <= 100), "volume_notifications") +
    If(!(0 <= c.volumeOther <= 100), "volume_other")
  }

  /** The fields of a request that break their rule. */
  function Faults(r: SaveRequest): set<string> {
    WifiFaults(r) + BrokerFaults(r.config) + LoginFaults(r) + TlsFaults(r.config) + TopicFaults(r.config) +
    SoundFaults(r.config)
  }

  /** The fields that a list of errors names. */
  function FieldsOf(errors: seq<ValidationError>): set<string> {
    if errors == [] then {} else FieldsOf(errors[..|errors| - 1]) + {errors[|errors| - 1].field}
  }

  /** Each message begins with its field. */
  ghost predicate MessagesFit(errors: seq<ValidationError>) {
    forall e <- errors :: StartsWith(e.message, e.field)
  }

  /** One more error. */
  function Reported(errors: seq<ValidationError>, field: string, text: string): (r: seq<ValidationError>)
    ensures r != [] && FieldsOf(r) == FieldsOf(errors) + {field} && (MessagesFit(errors) ==> MessagesFit(r))
  {
    var r := errors + [ValidationError(field, field + text)];
    assert r[..|r| - 1] == errors;
    r
  }

  lemma {:induction false} FieldsAppend(a: seq<ValidationError>, b: seq<ValidationError>)
    ensures FieldsOf(a + b) == FieldsOf(a) + FieldsOf(b)
    ensures MessagesFit(a) && MessagesFit(b) ==> MessagesFit(a + b)
    decreases |b|
  {
    if b == [] {
      assert a + b == a;
    } else {
      assert (a + b)[..|a + b| - 1] == a + b[..|b| - 1];
      FieldsAppend(a, b[..|b| - 1]);
    }
  }

  lemma NoFieldsNoErrors(errors: seq<ValidationError>)
    ensures FieldsOf(errors) == {} <==> errors == []
  {
    if errors != [] {
      assert errors[|errors| - 1].field in FieldsOf(errors);
    }
  }

  lemma NothingReported()
    ensures FieldsOf([]) == {} && MessagesFit([])
  {
  }

  method ValidateWifi(r: SaveRequest) returns (errors: seq<ValidationError>)
    ensures errors == [] <==> ValidWifi(r)
    ensures FieldsOf(errors) == WifiFaults(r) && MessagesFit(errors)
  {
    hide FieldsOf, MessagesFit, Reported;
    NothingReported();
    errors := [];
    if r.config.wifiSsid == "" {
      errors := Reported(errors, "wifi_ssid", " is required");
    } else if |r.config.wifiSsid| > 32 {
      errors := Reported(errors, "wifi_ssid", " must be <= 32 chars");
    }
    if r.wifiPassword.Some? && r.wifiPassword.value != "" {
      var length := |r.wifiPassword.value|;
      if length < 8 || length > 63 {
        errors := Reported(errors, "wifi_password", " must be 8-63 chars when provided");
      }
    }
  }

  method ValidateBroker(c: CoreConfig) returns (errors: seq<ValidationError>)
    ensures errors == [] <==> ValidBroker(c)
    ensures FieldsOf(errors) == BrokerFaults(c) && MessagesFit(errors)
  {
    hide FieldsOf, MessagesFit, Reported;
    NothingReported();
    errors := [];
    if c.mqttHost == "" {
      errors := Reported(errors, "mqtt_host", " is required");
    } else if ' ' in c.mqttHost {
      errors := Reported(errors, "mqtt_host", " must not contain spaces");
    }
    if c.mqttPort < 1 || c.mqttPort > 65535 {
      errors := Reported(errors, "mqtt_port", " must be 1-65535");
    }
    if c.mqttClientId == "" {
      errors := Reported(errors, "mqtt_client_id", " is required");
    } else if |c.mqttClientId| > 128 {
      errors := Reported(errors, "mqtt_client_id", " must be <= 128 chars");
    }
  }

  method ValidateLogin(r: SaveRequest) returns (errors: seq<ValidationError>)
    ensures errors == [] <==> ValidLogin(r)
    ensures FieldsOf(errors) == LoginFaults(r) && MessagesFit(errors)
  {
    hide FieldsOf, MessagesFit, Reported;
    NothingReported();
    errors := [];
    if |r.config.mqttUsername| > 128 {
      errors := Reported(errors, "mqtt_username", " must be <= 128 chars");
    }
    if r.config.mqttUsername == "" && r.mqttPassword.Some? && r.mqttPassword.value != "" {
      errors := Reported(errors, "mqtt_password", " requires mqtt_username to be set");
    }
    if r.mqttPassword.Some? && |r.mqttPassword.value| > 256 {
      errors := Reported(errors, "mqtt_password", " must be <= 256 chars");
    }
  }

  method ValidateTls(c: CoreConfig) returns (errors: seq<ValidationError>)
    ensures errors == [] <==> ValidTls(c)
    ensures FieldsOf(errors) == TlsFaults(c) && MessagesFit(errors)
  {
    hide FieldsOf, MessagesFit, Reported;
    NothingReported();
    errors := [];
    if |c.mqttTlsCaFile| > 256 {
      errors := Reported(errors, "mqtt_tls_ca_file", " must be <= 256 chars");
    }
    if |c.mqttTlsCertFile| > 256 {
      errors := Reported(errors, "mqtt_tls_cert_file", " must be <= 256 chars");
    }
    if |c.mqttTlsKeyFile| > 256 {
      errors := Reported(errors, "mqtt_tls_key_file", " must be <= 256 chars");
    }
    var certSet, keySet := c.mqttTlsCertFile != "", c.mqttTlsKeyFile != "";
    if certSet != keySet {
      errors := Reported(errors, "mqtt_tls_cert_file", " and mqtt_tls_key_file must both be set");
    }
  }

  method ValidateTopics(c: CoreConfig) returns (errors: seq<ValidationError>)
    ensures errors == [] <==> ValidTopics(c.mqttTopics) && ValidTopic(c.ringTopic)
    ensures FieldsOf(errors) == TopicFaults(c) && MessagesFit(errors)
  {
    hide FieldsOf, MessagesFit, Reported;
    NothingReported();
    errors := [];
    if c.mqttTopics == [] {
      errors := Reported(errors, "mqtt_topics", " must contain at least one topic");
    } else {
      for i := 0 to |c.mqttTopics|
        invariant errors == [] <==> forall j | 0 <= j < i :: ValidTopic(c.mqttTopics[j])
        invariant FieldsOf(errors) == If(errors != [], "mqtt_topics") && MessagesFit(errors)
      {
        if !ValidTopic(c.mqttTopics[i]) {
          errors := Reported(errors, "mqtt_topics", "[" + IntToString(i) + "] is invalid");
        }
      }
    }
    if !ValidTopic(c.ringTopic) {
      errors := Reported(errors, "ring_topic", " is invalid");
    }
  }

  method ValidateSoundPath(field: string, path: string) returns (errors: seq<ValidationError>)
    ensures errors == [] <==> ValidSoundPath(path)
    ensures FieldsOf(errors) == If(!ValidSoundPath(path), field) && MessagesFit(errors)
  {
    hide FieldsOf, MessagesFit, Reported;
    NothingReported();
    errors := [];
    if '\n' in path || '\r' in path {
      errors := Reported(errors, field, " must not contain newline characters");
      return;
    }
    var trimmed := Trim(path);
    if trimmed == "" || |trimmed| > 256 {
      errors := Reported(errors, field, " must be 1-256 chars after trimming");
    }
  }

  method ValidateSounds(c: CoreConfig) returns (errors: seq<ValidationError>)
    ensures errors == [] <==> ValidSounds(c)
    ensures FieldsOf(errors) == SoundFaults(c) && MessagesFit(errors)
  {
    hide FieldsOf, MessagesFit, Reported, ValidSoundPath;
    var success := ValidateSoundPath("notification_success_sound_path", c.successSoundPath);
    var failure := ValidateSoundPath("notification_failure_sound_path", c.failureSoundPath);
    FieldsAppend(success, failure);
    errors := success + failure;
    if c.volumeBell < 0 || c.volumeBell > 100 {
      errors := Reported(errors, "volume_bell", " must be 0-100");
    }
    if c.volumeNotifications < 0 || c.volumeNotifications > 100 {
      errors := Reported(errors, "volume_notifications", " must be 0-100");
    }
    if c.volumeOther < 0 || c.volumeOther > 100 {
      errors := Reported(errors, "volume_other", " must be 0-100");
    }
  }

  /** `ValidateRequest`: its pushes, in order, grouped by the fields they look at. */
  method ValidateRequest(r: SaveRequest) returns (errors: seq<ValidationError>)
    ensures errors == [] <==> ValidRequest(r)
    ensures FieldsOf(errors) == Faults(r) && MessagesFit(errors)
  {
    hide ValidWifi, ValidBroker, ValidLogin, ValidTls, ValidTopics, ValidTopic, ValidSounds, FieldsOf, MessagesFit;
    hide WifiFaults, BrokerFaults, LoginFaults, TlsFaults, TopicFaults, SoundFaults;
    var wifi := ValidateWifi(r);
    var broker := ValidateBroker(r.config);
    var login := ValidateLogin(r);
    var tls := ValidateTls(r.config);
    var topics := ValidateTopics(r.config);
    var sounds := ValidateSounds(r.config);
    FieldsAppend(wifi, broker);
    FieldsAppend(wifi + broker, login);
    FieldsAppend(wifi + broker + login, tls);
    FieldsAppend(wifi + broker + login + tls, topics);
    FieldsAppend(wifi + broker + login + tls + topics, sounds);
    errors := wifi + broker + login + tls + topics + sounds;
  }

  lemma ValidIsInRange(r: SaveRequest)
    requires ValidRequest(r)
    ensures InRange(r.config)
  {
    hide Trim;
    TrimIsEmpty(r.config.successSoundPath);
    TrimIsEmpty(r.config.failureSoundPath);
  }

  // --------------------------------------------------------- password rules

  /** The broker password that a save stores, as the source's branches choose it. */
  function ResolvedPassword(r: SaveRequest, existing: CoreConfig): string {
    if r.config.mqttUsername == "" then ""
    else if r.mqttPassword.Some? then
      if r.mqttPassword.value == "" then
        if r.config.mqttUsername != existing.mqttUsername then "" else existing.mqttPassword
      else r.mqttPassword.value
    else if r.config.mqttUsername != existing.mqttUsername then ""
    else existing.mqttPassword
  }

  /**
    The keep/clear rule: a non-blank password is stored with its user; otherwise the stored one is
    kept exactly when the (non-empty) user name stays the same, and cleared in every other case.
   */
  lemma PasswordRule(r: SaveRequest, existing: CoreConfig)
    ensures var p := ResolvedPassword(r, existing);
            var given := if r.mqttPassword.Some? then r.mqttPassword.value else "";
            && (r.config.mqttUsername != "" && given != "" ==> p == given)
            && (p != "" && p != given ==>
                p == existing.mqttPassword && r.config.mqttUsername == existing.mqttUsername != "")
            && (given == "" && r.config.mqttUsername == existing.mqttUsername != "" ==> p == existing.mqttPassword)
            && (r.config.mqttUsername == "" ==> p == "")
  {
  }

  // --------------------------------------------------------------- the files

  function WpaLines(wpa: Option<string>): seq<string> {
    if wpa.Some? then Lines(wpa.value) else []
  }

  function SnapshotOf(chimeLines: seq<string>, wpaLines: seq<string>): Snapshot {
    var d := Wpa.Parsed(wpaLines);
    var c := ConfigFrom(RawOf(chimeLines), d.ssid);
    Snapshot(c, d.psk != "", c.mqttPassword != "")
  }

  function FullConfig(r: SaveRequest, existing: CoreConfig): CoreConfig {
    r.config.(mqttPassword := ResolvedPassword(r, existing))
  }

  function StoredPsk(wpa: Option<string>): string {
    Wpa.Parsed(Wpa.Base(WpaLines(wpa))).psk
  }

  ghost function NewWpa(wpa: Option<string>, ssid: string, psk: string): string {
    Joined(Wpa.SavedLines(Wpa.Base(WpaLines(wpa)), ssid, psk))
  }

  ghost function NewChime(chime: string, full: CoreConfig): string {
    Joined(SavedFor(Lines(chime), full))
  }

  /**
    What a save may do to the files.  Nothing is written unless the request is valid, the old
    configuration can be loaded and a passphrase is known; a success means both files were written
    and is answered with what a reload finds in them; the daemon's file is never written alone.
   */
  ghost predicate SaveEffect(chime: Option<string>, wpa: Option<string>, r: SaveRequest,
                             chime': Option<string>, wpa': Option<string>, o: Outcome) {
    && (o.Invalid? <==> !ValidRequest(r))
    && (o.Invalid? ==> o.errors != [] && FieldsOf(o.errors) == Faults(r))
    && if o.Invalid? || chime.None? then
         !o.Success? && chime' == chime && wpa' == wpa
       else
         var full := FullConfig(r, SnapshotOf(Lines(chime.value), WpaLines(wpa)).config);
         var psk := Wpa.ChosenPsk(r.wifiPassword, StoredPsk(wpa));
         if psk.Err? then o.Failed? && chime' == chime && wpa' == wpa
         else
           var newWpa, newChime := NewWpa(wpa, r.config.wifiSsid, psk.value), NewChime(chime.value, full);
           match o
           case Success(s) =>
             chime' == Some(newChime) && wpa' == Some(newWpa) && s == SnapshotOf(Lines(newChime), Lines(newWpa))
           case _ =>
             || (chime' == chime && (wpa' == wpa || wpa' == Some(newWpa)))
             || (chime' == Some(newChime) && wpa' == Some(newWpa))
  }

  class ConfigStore {
    /** Contents of the two files; None if a file does not exist. */
    var chime: Option<string>
    var wpa: Option<string>

    constructor (chime: Option<string>, wpa: Option<string>)
      ensures this.chime == chime && this.wpa == wpa
    {
      this.chime, this.wpa := chime, wpa;
    }

    /** `LoadCoreConfigInternal`: one extraction per key, typed one after the other.  Opening a file may fail. */
    method LoadCoreConfig() returns (r: Result<Snapshot>)
      ensures chime.None? ==> r.Err?
      ensures chime.Some? && r.Ok? ==> r.value == SnapshotOf(Lines(chime.value), WpaLines(wpa))
    {
      hide Extracted, Wpa.Scan, Lines, SplitCsv, WebInt, WebBool, OrDefault;
      var readable: bool := *;
      if chime.None? || !readable {
        return Err("failed to open file");
      }
      var lines := ReadAllLines(chime.value);
      var host := ExtractConfigValue(lines, "mqtt_host");
      var port := ExtractConfigValue(lines, "mqtt_port");
      var clientId := ExtractConfigValue(lines, "mqtt_client_id");
      var username := ExtractConfigValue(lines, "mqtt_username");
      var password := ExtractConfigValue(lines, "mqtt_password");
      var tlsEnabled := ExtractConfigValue(lines, "mqtt_tls_enabled");
      var tlsValidate := ExtractConfigValue(lines, "mqtt_tls_validate_certificate");
      var caFile := ExtractConfigValue(lines, "mqtt_tls_ca_file");
      var certFile := ExtractConfigValue(lines, "mqtt_tls_cert_file");
      var keyFile := ExtractConfigValue(lines, "mqtt_tls_key_file");
      var topicsCsv := ExtractConfigValue(lines, "mqtt_topics");
      var topics := SplitCsvLoop(topicsCsv);
      var ringTopic := ExtractConfigValue(lines, "ring_topic");
      var successPath := ExtractConfigValue(lines, "notification_success_sound_path");
      var failurePath := ExtractConfigValue(lines, "notification_failure_sound_path");
      var volumeBell := ExtractConfigValue(lines, "volume_bell");
      var volumeNotifications := ExtractConfigValue(lines, "volume_notifications");
      var volumeOther := ExtractConfigValue(lines, "volume_other");
      var wpaLines := [];
      if wpa.Some? {
        wpaLines := ReadAllLines(wpa.value);
      }
      var d := Wpa.ParseWpaData(wpaLines);
      var config := CoreConfig(
        d.ssid, host, WebInt(port, 1, 65535, 1883), OrDefault(clientId, DEFAULT_CLIENT_ID), username, password,
        WebBool(tlsEnabled, false), WebBool(tlsValidate, true), caFile, certFile, keyFile, topics,
        OrDefault(ringTopic, DEFAULT_RING_TOPIC), OrDefault(successPath, DEFAULT_SUCCESS_PATH),
        OrDefault(failurePath, DEFAULT_FAILURE_PATH), WebInt(volumeBell, 0, 100, 80),
        WebInt(volumeNotifications, 0, 100, 70), WebInt(volumeOther, 0, 100, 70));
      r := Ok(Snapshot(config, d.psk != "", config.mqttPassword != ""));
    }

    /** An atomic write either happens or leaves the file alone. */
    method WriteChime(content: string) returns (ok: bool)
      modifies this`chime
      ensures chime == if ok then Some(content) else old(chime)
    {
      ok := *;
      if ok {
        chime := Some(content);
      }
    }

    method WriteWpa(content: string) returns (ok: bool)
      modifies this`wpa
      ensures wpa == if ok then Some(content) else old(wpa)
    {
      ok := *;
      if ok {
        wpa := Some(content);
      }
    }

    method SaveWpaSupplicant(ssid: string, wifiPassword: Option<string>) returns (r: Result<()>)
      modifies this`wpa
      ensures var psk := Wpa.ChosenPsk(wifiPassword, StoredPsk(old(wpa)));
              && (psk.Err? ==> r == Err(psk.error))
              && (psk.Ok? && r.Ok? ==> wpa == Some(NewWpa(old(wpa), ssid, psk.value)))
              && (r.Err? ==> wpa == old(wpa))
    {
      hide Wpa.Scan, Wpa.SavedLines, Wpa.Base, Lines, Joined;
      var lines := [];
      if wpa.Some? {
        lines := ReadAllLines(wpa.value);
      }
      var saved := Wpa.SaveWpaLines(lines, ssid, wifiPassword);
      match saved
      case Err(e) => r := Err(e);
      case Ok(newLines) =>
        var content := JoinLines(newLines);
        var ok := WriteWpa(content);
        r := if ok then Ok(()) else Err("write failed");
    }

    /** `SaveChimeConfig`, once the password is resolved. */
    method SaveChimeConfig(full: CoreConfig) returns (r: Result<()>)
      modifies this`chime
      ensures old(chime).None? ==> r.Err? && chime == old(chime)
      ensures old(chime).Some? && r.Ok? ==> chime == Some(NewChime(old(chime).value, full))
      ensures r.Err? ==> chime == old(chime)
    {
      hide KeyFile.Saved, Lines, Joined, Replacements, RawFor;
      if chime.None? {
        return Err("failed to open file");
      }
      var before := ReadAllLines(chime.value);
      ReplacementsAreATable(RawFor(full));
      var m := Replacements(RawFor(full));
      var lines, seen := RewriteInPlace(before, m);
      lines := AppendMissing(lines, MANAGED_KEYS, seen, m);
      assert lines == SavedFor(before, full) by {
        SavedIsRewrite(before, MANAGED_KEYS, m);
      }
      var content := JoinLines(lines);
      var ok := WriteChime(content);
      r := if ok then Ok(()) else Err("write failed");
    }

    /** `SaveCoreConfig`: validate, load the old configuration, write both files, load again. */
    method SaveCoreConfig(r: SaveRequest) returns (o: Outcome)
      modifies this
      ensures SaveEffect(old(chime), old(wpa), r, chime, wpa, o)
    {
      hide ValidRequest, FieldsOf, Faults, MessagesFit, SnapshotOf, ResolvedPassword, StoredPsk, NewWpa, NewChime,
           Wpa.ChosenPsk;
      var errors := ValidateRequest(r);
      if errors != [] {
        return Invalid(errors);
      }
      var existing := LoadCoreConfig();
      if existing.Err? {
        return Failed(existing.error);
      }
      var wpaResult := SaveWpaSupplicant(r.config.wifiSsid, r.wifiPassword);
      if wpaResult.Err? {
        return Failed(wpaResult.error);
      }
      var full := r.config.(mqttPassword := ResolvedPassword(r, existing.value.config));
      var chimeResult := SaveChimeConfig(full);
      if chimeResult.Err? {
        return Failed(chimeResult.error);
      }
      var loaded := LoadCoreConfig();
      if loaded.Err? {
        return Failed(loaded.error);
      }
      return Success(loaded.value);
    }
  }

  lemma SavedIsRewrite(lines: seq<string>, keys: seq<string>, m: map<string, string>)
    requires Table(keys, m)
    ensures KeyFile.Saved(lines, keys, m) == Rewrite(lines, m) + Appended(keys, Seen(lines, m), m)
  {
  }

  // ------------------------------------------------- what a saved request means

  /** Everything a request asks to be stored has a form that the two files can hold. */
  ghost predicate StorableRequest(full: CoreConfig, psk: string) {
    Storable(full) && LfFree(full.wifiSsid) && LfFree(psk)
  }

  /**
    After a successful save the reloaded configuration is the requested one and the stored passphrase
    the chosen one, if and only if everything is storable.
   */
  lemma SaveReloadsExactly(chime: string, wpa: Option<string>, full: CoreConfig, psk: string)
    requires InRange(full)
    ensures var s := SnapshotOf(Lines(NewChime(chime, full)), Lines(NewWpa(wpa, full.wifiSsid, psk)));
            var stored := Wpa.Parsed(Lines(NewWpa(wpa, full.wifiSsid, psk))).psk;
            (s.config == full && stored == psk) <==> StorableRequest(full, psk)
  {
    hide Storable, InRange, RawOf, Lines, Joined, SavedFor, Wpa.SavedLines, Wpa.Scan, Wpa.Base, WpaLines;
    var d := Wpa.Parsed(Lines(NewWpa(wpa, full.wifiSsid, psk)));
    var base := Wpa.Base(WpaLines(wpa));
    BaseIsLfFree(wpa);
    Wpa.SavedFileReadsBackExactly(base, full.wifiSsid, psk);
    ReloadIsExact(Lines(chime), full);
    var file := FileAfterSave(Lines(chime), full);
    assert file == Lines(NewChime(chime, full));
    SsidIsCopied(RawOf(file), d.ssid, full);
  }

  lemma SsidIsCopied(raw: Raw, ssid: string, c: CoreConfig)
    ensures ConfigFrom(raw, ssid) == c <==> ssid == c.wifiSsid && ConfigFrom(raw, c.wifiSsid) == c
  {
    hide WebInt, WebBool, OrDefault, SplitCsv;
  }

  lemma BaseIsLfFree(wpa: Option<string>)
    ensures LinesLfFree(Wpa.Base(WpaLines(wpa)))
  {
  }

  lemma StoredPskIsLoaded(wpa: Option<string>)
    ensures StoredPsk(wpa) != "" ==> StoredPsk(wpa) == Wpa.Parsed(WpaLines(wpa)).psk
    ensures StoredPsk(wpa) == "" ==> Wpa.Parsed(WpaLines(wpa)).psk == ""
  {
    if WpaLines(wpa) == [] {
      Wpa.DefaultsHaveNoBlock();
    }
  }

  /**
    The credentials after a save that succeeds: the SSID of the request, and the given passphrase or, if none is given,
    the one found before, exactly if both are free of line feeds.  With none given and none found nothing is saved.
   */
  lemma CredentialsAfterSave(chime: Option<string>, wpa: Option<string>, r: SaveRequest,
                             chime': Option<string>, wpa': Option<string>, o: Outcome)
    requires SaveEffect(chime, wpa, r, chime', wpa', o)
    ensures var given := if r.wifiPassword.Some? then r.wifiPassword.value else "";
            var before, after := Wpa.Parsed(WpaLines(wpa)), Wpa.Parsed(WpaLines(wpa'));
            var psk := if given != "" then given else before.psk;
            && (psk == "" ==> !o.Success? && chime' == chime && wpa' == wpa)
            && (o.Success? ==>
                  ((after.ssid == r.config.wifiSsid && after.psk == psk) <==> LfFree(r.config.wifiSsid) && LfFree(psk)))
            && (given == "" ==> LfFree(psk))
  {
    hide SnapshotOf, ValidRequest, NewChime, FullConfig, Wpa.SavedLines, Wpa.Scan, Wpa.Base, WpaLines, Lines, Joined;
    StoredPskIsLoaded(wpa);
    StoredIsLfFree(wpa);
    if o.Success? {
      var psk := Wpa.ChosenPsk(r.wifiPassword, StoredPsk(wpa)).value;
      BaseIsLfFree(wpa);
      Wpa.SavedFileReadsBackExactly(Wpa.Base(WpaLines(wpa)), r.config.wifiSsid, psk);
      LinesOfSome(wpa'.value);
    }
  }

  lemma LinesOfSome(content: string)
    ensures WpaLines(Some(content)) == Lines(content)
  {
  }

  lemma StoredIsLfFree(wpa: Option<string>)
    ensures LfFree(Wpa.Parsed(WpaLines(wpa)).psk)
  {
    hide Wpa.Parsed;
    Wpa.ParsedLfFree(WpaLines(wpa));
  }

  /** A passphrase is chosen exactly when one is given or stored, and it is never empty. */
  lemma ChosenPskIsNotEmpty(requested: Option<string>, stored: string)
    ensures var psk := Wpa.ChosenPsk(requested, stored);
            && (psk.Ok? <==> stored != "" || (requested.Some? && requested.value != ""))
            && (psk.Ok? ==> psk.value != "")
  {
  }

  const COMMA_REQUEST: SaveRequest := SaveRequest(
    CoreConfig("home", "broker", 1883, "chime", "", "", false, true, "", "", "", [","], "ring", "ok.wav", "no.wav", 80,
        70, 70),
    None, None)

  lemma CommaRequestIsValid()
    ensures ValidRequest(COMMA_REQUEST)
  {
    TrimFixed("ok.wav");
    TrimFixed("no.wav");
  }

  lemma CommaRequestTexts()
    ensures TextsLfFree(RawFor(COMMA_REQUEST.config))
  {
    hide IntToString;
    IntToStringClean(1883);
    IntToStringClean(80);
    IntToStringClean(70);
  }

  /**
    A valid request need not be storable: topics may contain commas.  With the single topic "," the
    daemon no longer finds its required topics, whatever the file was.
   */
  lemma ValidRequestCanStopTheDaemon(chime: string)
    ensures ValidRequest(COMMA_REQUEST) && !DaemonLoads(FileAfterSave(Lines(chime), COMMA_REQUEST.config))
  {
    hide ValidRequest, InRange, RawFor, DaemonLoads, FileAfterSave, Lines, TextsLfFree;
    CommaRequestIsValid();
    CommaRequestTexts();
    ValidIsInRange(COMMA_REQUEST);
    DaemonStartsAfterSave(Lines(chime), COMMA_REQUEST.config);
    assert !HasSubstance(",");
  }
}
