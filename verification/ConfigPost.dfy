/**
  What a POST of the configuration means: every request, printed as a client prints it, is read back, and after a save
  each key of the files holds the member of the same name.
 */
module ConfigPost {
  import opened Wrappers
  import opened Text
  import opened Csv
  import opened ChimeFile
  import opened Configuration
  import opened Json
  import opened JsonPrint
  import opened ConfigApi
  import KeyFile
  import JsonGrammar
  import Wpa

  // --------------------------------------------------- a request as a client sends it

  /** A configuration, with the members that a client may leave out; its own sound paths and password do not count. */
  datatype Form = Form(config: CoreConfig, successPath: Option<string>, failurePath: Option<string>,
    wifiPassword: Option<string>, mqttPassword: Option<string>)

  function FormFields(c: CoreConfig): (fields: seq<Field>)
    ensures |fields| == 15
  {
    [ TextField("wifi_ssid", c.wifiSsid),
      TextField("mqtt_host", c.mqttHost),
      NumberField("mqtt_port", c.mqttPort),
      TextField("mqtt_client_id", c.mqttClientId),
      TextField("mqtt_username", c.mqttUsername),
      FlagField("mqtt_tls_enabled", c.mqttTlsEnabled),
      FlagField("mqtt_tls_validate_certificate", c.mqttTlsValidateCertificate),
      TextField("mqtt_tls_ca_file", c.mqttTlsCaFile),
      TextField("mqtt_tls_cert_file", c.mqttTlsCertFile),
      TextField("mqtt_tls_key_file", c.mqttTlsKeyFile),
      TopicsField("mqtt_topics", c.mqttTopics),
      TextField("ring_topic", c.ringTopic),
      NumberField("volume_bell", c.volumeBell),
      NumberField("volume_notifications", c.volumeNotifications),
      NumberField("volume_other", c.volumeOther) ]
  }

  function Optional(key: string, value: Option<string>): seq<Field> {
    if value.None? then [] else [TextField(key, value.value)]
  }

  function OptionalFields(f: Form): seq<Field> {
    Optional("notification_success_sound_path", f.successPath) +
    Optional("notification_failure_sound_path", f.failurePath) +
    Optional("wifi_password", f.wifiPassword) + Optional("mqtt_password", f.mqttPassword)
  }

  function FormText(f: Form): string {
    ObjectText(FormFields(f.config) + OptionalFields(f))
  }

  ghost function FormObject(f: Form): map<string, Json> {
    Built(FormFields(f.config) + OptionalFields(f), map[])
  }

  // Where the keys of a form stand among those of an answer.
  const FORM_SLOTS: seq<nat> := [0, 2, 3, 4, 5, 7, 8, 9, 10, 11, 12, 13, 16, 17, 18]

  lemma FormKeys0(c: CoreConfig)
    ensures |ANSWER_KEYS| == 20 && |FORM_SLOTS| == 15 && forall i | 0 <= i < 5 :: FORM_SLOTS[i] < 20
    ensures forall i | 0 <= i < 5 :: FormFields(c)[i].key == ANSWER_KEYS[FORM_SLOTS[i]]
  {
    hide TextField, FlagField, NumberField, TopicsField;
  }

  lemma FormKeys1(c: CoreConfig)
    ensures |ANSWER_KEYS| == 20 && |FORM_SLOTS| == 15 && forall i | 5 <= i < 10 :: FORM_SLOTS[i] < 20
    ensures forall i | 5 <= i < 10 :: FormFields(c)[i].key == ANSWER_KEYS[FORM_SLOTS[i]]
  {
    hide TextField, FlagField, NumberField, TopicsField;
  }

  lemma FormKeys2(c: CoreConfig)
    ensures |ANSWER_KEYS| == 20 && |FORM_SLOTS| == 15 && forall i | 10 <= i < 15 :: FORM_SLOTS[i] < 20
    ensures forall i | 10 <= i < 15 :: FormFields(c)[i].key == ANSWER_KEYS[FORM_SLOTS[i]]
  {
    hide TextField, FlagField, NumberField, TopicsField;
  }

  lemma FormKeys(c: CoreConfig)
    ensures |ANSWER_KEYS| == 20 && |FORM_SLOTS| == 15 && forall i | 0 <= i < 15 :: FORM_SLOTS[i] < 20
    ensures forall i | 0 <= i < 15 :: FormFields(c)[i].key == ANSWER_KEYS[FORM_SLOTS[i]]
    ensures forall i, j | 0 <= i < j < 15 :: FORM_SLOTS[i] < FORM_SLOTS[j]
  {
    hide FormFields;
    FormKeys0(c);
    FormKeys1(c);
    FormKeys2(c);
  }

  lemma FormFieldsAreDistinct(c: CoreConfig)
    ensures DistinctFields(FormFields(c)) && |ANSWER_KEYS| == 20
    ensures forall i | 0 <= i < 15 ::
              SafeKey(FormFields(c)[i].key) && KeyNumber(FormFields(c)[i].key) !in [14, 15, 20, 21]
  {
    hide FormFields, SafeKey, KeyNumber;
    FormKeys(c);
    AnswerKeysAreDistinct();
    SlotsOfForms();
  }

  lemma SlotsOfForms()
    ensures |FORM_SLOTS| == 15 && forall i | 0 <= i < 15 :: FORM_SLOTS[i] !in [14, 15, 20, 21]
  {
  }

  lemma PasswordKeysAreSafe()
    ensures SafeKey("wifi_password") && SafeKey("mqtt_password")
  {
  }

  lemma OptionalKeys()
    ensures |ANSWER_KEYS| == 20
    ensures SafeKey(ANSWER_KEYS[14]) && SafeKey(ANSWER_KEYS[15]) && SafeKey("wifi_password") && SafeKey("mqtt_password")
    ensures KeyNumber(ANSWER_KEYS[14]) == 14 && KeyNumber(ANSWER_KEYS[15]) == 15
    ensures KeyNumber("wifi_password") == 20 && KeyNumber("mqtt_password") == 21
  {
    hide SafeKey, KeyNumber;
    AnswerKeysAreDistinct();
    PasswordKeys();
    PasswordKeysAreSafe();
  }

  lemma FormFieldsOk0(c: CoreConfig)
    requires SmallNumber(c.mqttPort)
    ensures forall i | 0 <= i < 5 :: FieldOk(FormFields(c)[i])
  {
    hide TextField, NumberField, FlagField, TopicsField, FieldOk, SafeKey, KeyNumber;
    FormFieldsAreDistinct(c);
    var fields := FormFields(c);
    TextFieldOk(fields[0].key, c.wifiSsid);
    TextFieldOk(fields[1].key, c.mqttHost);
    NumberFieldOk(fields[2].key, c.mqttPort);
    TextFieldOk(fields[3].key, c.mqttClientId);
    TextFieldOk(fields[4].key, c.mqttUsername);
  }

  lemma FormFieldsOk1(c: CoreConfig)
    ensures forall i | 5 <= i < 10 :: FieldOk(FormFields(c)[i])
  {
    hide TextField, NumberField, FlagField, TopicsField, FieldOk, SafeKey, KeyNumber;
    FormFieldsAreDistinct(c);
    var fields := FormFields(c);
    FlagFieldOk(fields[5].key, c.mqttTlsEnabled);
    FlagFieldOk(fields[6].key, c.mqttTlsValidateCertificate);
    TextFieldOk(fields[7].key, c.mqttTlsCaFile);
    TextFieldOk(fields[8].key, c.mqttTlsCertFile);
    TextFieldOk(fields[9].key, c.mqttTlsKeyFile);
  }

  lemma FormFieldsOk2(c: CoreConfig)
    requires SmallNumber(c.volumeBell) && SmallNumber(c.volumeNotifications) && SmallNumber(c.volumeOther)
    ensures forall i | 10 <= i < 15 :: FieldOk(FormFields(c)[i])
  {
    hide TextField, NumberField, FlagField, TopicsField, FieldOk, SafeKey, KeyNumber;
    FormFieldsAreDistinct(c);
    var fields := FormFields(c);
    TopicsFieldOk(fields[10].key, c.mqttTopics);
    TextFieldOk(fields[11].key, c.ringTopic);
    NumberFieldOk(fields[12].key, c.volumeBell);
    NumberFieldOk(fields[13].key, c.volumeNotifications);
    NumberFieldOk(fields[14].key, c.volumeOther);
  }

  lemma OptionalOk(key: string, value: Option<string>)
    requires SafeKey(key)
    ensures FieldsOk(Optional(key, value))
  {
    hide TextField, FieldOk, SafeKey;
    if value.Some? {
      TextFieldOk(key, value.value);
    }
  }

  lemma OptionalFieldsOk(f: Form)
    ensures FieldsOk(OptionalFields(f))
  {
    hide Optional, FieldOk, SafeKey;
    OptionalKeys();
    OptionalOk(ANSWER_KEYS[14], f.successPath);
    OptionalOk(ANSWER_KEYS[15], f.failurePath);
    OptionalOk("wifi_password", f.wifiPassword);
    OptionalOk("mqtt_password", f.mqttPassword);
  }

  /** The numbers of a form are those of the configuration's own fields. */
  ghost predicate Sendable(f: Form) {
    IntRange(f.config)
  }

  /** The body of a form is parsed to its object. */
  lemma FormParses(f: Form)
    requires Sendable(f)
    ensures ParseJson(FormText(f)) == ParseResult.Success(Object(FormObject(f)))
  {
    hide ParseJson, FormFields, OptionalFields, Built, MembersOf, ObjectText, FieldOk, Printed;
    FormFieldsOk0(f.config);
    FormFieldsOk1(f.config);
    FormFieldsOk2(f.config);
    OptionalFieldsOk(f);
    var fields := FormFields(f.config) + OptionalFields(f);
    assert FieldsOk(fields);
    ObjectIsPrinted(fields);
    PrintedParses(ObjectText(fields), JsonGrammar.ObjectTree("", MembersOf(fields)), Object(Built(fields, map[])));
  }

  // ----------------------------------------------------------------- its reading

  lemma {:induction false} BuiltOfBoth(a: seq<Field>, b: seq<Field>, before: map<string, Json>)
    ensures Built(a + b, before) == Built(b, Built(a, before))
    decreases |a|
  {
    if a == [] {
      assert a + b == b;
    } else {
      assert (a + b)[1..] == a[1..] + b;
      BuiltOfBoth(a[1..], b, before[a[0].key := a[0].value]);
    }
  }

  /** A member that may be there. */
  function Put(o: map<string, Json>, key: string, value: Option<string>): map<string, Json> {
    if value.None? then o else o[key := String(Sanitized(value.value))]
  }

  lemma BuiltOfOptional(key: string, value: Option<string>, before: map<string, Json>)
    ensures Built(Optional(key, value), before) == Put(before, key, value)
  {
    if value.Some? {
      var f := TextField(key, value.value);
      assert [f][1..] == [];
      assert Built([f], before) == Built([], before[key := f.value]);
    }
  }

  lemma FormObjectIs(f: Form)
    ensures |ANSWER_KEYS| == 20
    ensures FormObject(f) ==
            var o := Built(FormFields(f.config), map[]);
            Put(Put(Put(Put(o, ANSWER_KEYS[14], f.successPath), ANSWER_KEYS[15], f.failurePath),
                    "wifi_password", f.wifiPassword), "mqtt_password", f.mqttPassword)
  {
    hide FormFields, Built, Optional, Put;
    var o := Built(FormFields(f.config), map[]);
    var s1, s2, s3, s4 := Optional(ANSWER_KEYS[14], f.successPath), Optional(ANSWER_KEYS[15], f.failurePath),
      Optional("wifi_password", f.wifiPassword), Optional("mqtt_password", f.mqttPassword);
    BuiltOfBoth(FormFields(f.config), s1 + s2 + s3 + s4, map[]);
    BuiltOfBoth(s1 + s2 + s3, s4, o);
    BuiltOfBoth(s1 + s2, s3, o);
    BuiltOfBoth(s1, s2, o);
    BuiltOfOptional(ANSWER_KEYS[14], f.successPath, o);
    var o1 := Put(o, ANSWER_KEYS[14], f.successPath);
    BuiltOfOptional(ANSWER_KEYS[15], f.failurePath, o1);
    var o2 := Put(o1, ANSWER_KEYS[15], f.failurePath);
    BuiltOfOptional("wifi_password", f.wifiPassword, o2);
    BuiltOfOptional("mqtt_password", f.mqttPassword, Put(o2, "wifi_password", f.wifiPassword));
  }

  /** What the object holds: the form's own fields, and of the four optional members those that are sent. */
  lemma FormMembers(f: Form)
    ensures |ANSWER_KEYS| == 20
    ensures forall i | 0 <= i < 15 ::
              var k := FormFields(f.config)[i].key;
              k in FormObject(f) && FormObject(f)[k] == FormFields(f.config)[i].value
    ensures Holds(FormObject(f), ANSWER_KEYS[14], f.successPath) && Holds(FormObject(f), ANSWER_KEYS[15], f.failurePath)
    ensures Holds(FormObject(f), "wifi_password", f.wifiPassword)
    ensures Holds(FormObject(f), "mqtt_password", f.mqttPassword)
  {
    hide FormFields, Built, FormObject, SafeKey, KeyNumber;
    FormFieldsAreDistinct(f.config);
    OptionalKeys();
    FormObjectIs(f);
    BuiltAt(FormFields(f.config), map[]);
  }

  ghost predicate Holds(o: map<string, Json>, key: string, value: Option<string>) {
    if value.None? then key !in o else key in o && o[key] == String(Sanitized(value.value))
  }

  lemma HeldIsRead(o: map<string, Json>, key: string, value: Option<string>)
    requires Holds(o, key, value)
    ensures TextAt(o, key) == SanitizedOption(value) && OptionalTextOk(o, key)
  {
  }

  function SanitizedOption(value: Option<string>): Option<string> {
    if value.None? then None else Some(Sanitized(value.value))
  }

  lemma FormBrokerIsRead(f: Form)
    requires Sendable(f)
    ensures var o, c := FormObject(f), f.config;
            && TextAt(o, "wifi_ssid") == Some(Sanitized(c.wifiSsid))
            && TextAt(o, "mqtt_host") == Some(Sanitized(c.mqttHost))
            && IntAt(o, "mqtt_port") == Some(c.mqttPort)
  {
    hide FormObject, TextAt, IntAt, FlagField, KeyNumber, Sanitized, TopicsField, JsonString, JsonNumber, EscapesOf,
         NumeralOf;
    var o, c, fields := FormObject(f), f.config, FormFields(f.config);
    FormMembers(f);
    TextIsRead(o, fields[0].key, c.wifiSsid);
    TextIsRead(o, fields[1].key, c.mqttHost);
    NumberIsRead(o, fields[2].key, c.mqttPort);
  }

  lemma FormUserIsRead(f: Form)
    ensures var o, c := FormObject(f), f.config;
            && TextAt(o, "mqtt_client_id") == Some(Sanitized(c.mqttClientId))
            && TextAt(o, "mqtt_username") == Some(Sanitized(c.mqttUsername))
  {
    hide FormObject, TextAt, FlagField, NumberField, KeyNumber, Sanitized, TopicsField, JsonString, EscapesOf;
    var o, c, fields := FormObject(f), f.config, FormFields(f.config);
    FormMembers(f);
    TextIsRead(o, fields[3].key, c.mqttClientId);
    TextIsRead(o, fields[4].key, c.mqttUsername);
  }

  lemma FormFlagsAreRead(f: Form)
    ensures var o, c := FormObject(f), f.config;
            && FlagAt(o, "mqtt_tls_enabled") == Some(c.mqttTlsEnabled)
            && FlagAt(o, "mqtt_tls_validate_certificate") == Some(c.mqttTlsValidateCertificate)
  {
    hide FormObject, TextField, NumberField, TopicsField, JsonBool;
    var o, c, fields := FormObject(f), f.config, FormFields(f.config);
    FormMembers(f);
    assert FlagAt(o, fields[5].key) == Some(c.mqttTlsEnabled);
    assert FlagAt(o, fields[6].key) == Some(c.mqttTlsValidateCertificate);
  }

  lemma FormFilesAreRead(f: Form)
    requires Sendable(f)
    ensures var o, c := FormObject(f), f.config;
            && TextAt(o, "mqtt_tls_ca_file") == Some(Sanitized(c.mqttTlsCaFile))
            && TextAt(o, "mqtt_tls_cert_file") == Some(Sanitized(c.mqttTlsCertFile))
            && TextAt(o, "mqtt_tls_key_file") == Some(Sanitized(c.mqttTlsKeyFile))
            && ListAt(o, "mqtt_topics") == Some(SanitizedAll(c.mqttTopics))
            && TextAt(o, "ring_topic") == Some(Sanitized(c.ringTopic))
            && IntAt(o, "volume_bell") == Some(c.volumeBell)
            && IntAt(o, "volume_notifications") == Some(c.volumeNotifications)
            && IntAt(o, "volume_other") == Some(c.volumeOther)
  {
    hide FormObject, TextAt, IntAt, ListAt, KeyNumber, Sanitized, SanitizedAll, FlagField;
    hide JsonString, JsonNumber, EscapesOf, NumeralOf, ListTree, Quoted, Strings;
    var o, c, fields := FormObject(f), f.config, FormFields(f.config);
    FormMembers(f);
    TextIsRead(o, fields[7].key, c.mqttTlsCaFile);
    TextIsRead(o, fields[8].key, c.mqttTlsCertFile);
    TextIsRead(o, fields[9].key, c.mqttTlsKeyFile);
    TopicsAreRead(o, fields[10].key, c.mqttTopics);
    TextIsRead(o, fields[11].key, c.ringTopic);
    NumberIsRead(o, fields[12].key, c.volumeBell);
    NumberIsRead(o, fields[13].key, c.volumeNotifications);
    NumberIsRead(o, fields[14].key, c.volumeOther);
  }

  lemma FormOptionsAreRead(f: Form)
    ensures var o := FormObject(f);
            && TextAt(o, "notification_success_sound_path") == SanitizedOption(f.successPath)
            && TextAt(o, "notification_failure_sound_path") == SanitizedOption(f.failurePath)
            && TextAt(o, "wifi_password") == SanitizedOption(f.wifiPassword)
            && TextAt(o, "mqtt_password") == SanitizedOption(f.mqttPassword)
            && OptionalTextOk(o, "notification_success_sound_path")
            && OptionalTextOk(o, "notification_failure_sound_path")
            && OptionalTextOk(o, "wifi_password") && OptionalTextOk(o, "mqtt_password")
  {
    hide FormObject, FormFields, TextAt, OptionalTextOk, Holds, SanitizedOption;
    var o := FormObject(f);
    FormMembers(f);
    HeldIsRead(o, ANSWER_KEYS[14], f.successPath);
    HeldIsRead(o, ANSWER_KEYS[15], f.failurePath);
    HeldIsRead(o, "wifi_password", f.wifiPassword);
    HeldIsRead(o, "mqtt_password", f.mqttPassword);
  }

  /** The request that a form makes; a sound path that it leaves out is the one found in the files. */
  function FormRequest(f: Form, success: string, failure: string): SaveRequest {
    SaveRequest(
      SanitizedConfig(f.config).(
        mqttPassword := "",
        successSoundPath := if f.successPath.Some? then Sanitized(f.successPath.value) else success,
        failureSoundPath := if f.failurePath.Some? then Sanitized(f.failurePath.value) else failure),
      SanitizedOption(f.wifiPassword), SanitizedOption(f.mqttPassword))
  }

  /** Every form is read back: each field and each password in its own place, sent or left out. */
  lemma FormIsRead(f: Form, success: string, failure: string)
    requires Sendable(f)
    ensures WellTyped(FormObject(f)) && Posted(FormObject(f), success, failure) == FormRequest(f, success, failure)
  {
    hide FormObject, TextAt, IntAt, ListAt, FlagAt, OptionalTextOk, Sanitized, SanitizedAll;
    FormBrokerIsRead(f);
    FormUserIsRead(f);
    FormFlagsAreRead(f);
    FormFilesAreRead(f);
    FormOptionsAreRead(f);
  }

  // ------------------------------------------------------- what is stored of it

  ghost predicate Stored(lines: seq<string>, key: string, value: string) {
    KeyFile.Extracted(lines, key) == Trim(value)
  }

  /** A sound path that is left out is the one that the file gave, or its default. */
  function PathFor(o: map<string, Json>, key: string, before: seq<string>, default: string): string {
    Or(TextAt(o, key), OrDefault(KeyFile.Extracted(before, key), default))
  }

  /**
    The broker password that counts: none without a user, else the one that is sent, if it is not empty, or else the
    old one of the same user.
   */
  function BrokerPassword(o: map<string, Json>, before: seq<string>): string
    requires WellTyped(o)
  {
    var user, sent := TextAt(o, "mqtt_username").value, Or(TextAt(o, "mqtt_password"), "");
    if user == "" then ""
    else if sent != "" then sent
    else if user == KeyFile.Extracted(before, "mqtt_username") then KeyFile.Extracted(before, "mqtt_password")
    else ""
  }

  /** Each key of the file has the member of the same name. */
  ghost predicate StoredAs(lines: seq<string>, o: map<string, Json>, before: seq<string>)
    requires WellTyped(o)
  {
    && Stored(lines, "mqtt_host", TextAt(o, "mqtt_host").value)
    && Stored(lines, "mqtt_port", IntToString(IntAt(o, "mqtt_port").value))
    && Stored(lines, "mqtt_client_id", TextAt(o, "mqtt_client_id").value)
    && Stored(lines, "mqtt_username", TextAt(o, "mqtt_username").value)
    && Stored(lines, "mqtt_password", BrokerPassword(o, before))
    && Stored(lines, "mqtt_tls_enabled", if FlagAt(o, "mqtt_tls_enabled").value then "true" else "false")
    && Stored(lines, "mqtt_tls_validate_certificate",
              if FlagAt(o, "mqtt_tls_validate_certificate").value then "true" else "false")
    && Stored(lines, "mqtt_tls_ca_file", TextAt(o, "mqtt_tls_ca_file").value)
    && Stored(lines, "mqtt_tls_cert_file", TextAt(o, "mqtt_tls_cert_file").value)
    && Stored(lines, "mqtt_tls_key_file", TextAt(o, "mqtt_tls_key_file").value)
    && Stored(lines, "mqtt_topics", JoinCsv(ListAt(o, "mqtt_topics").value))
    && Stored(lines, "ring_topic", TextAt(o, "ring_topic").value)
    && Stored(lines, "notification_success_sound_path",
              PathFor(o, "notification_success_sound_path", before, DEFAULT_SUCCESS_PATH))
    && Stored(lines, "notification_failure_sound_path",
              PathFor(o, "notification_failure_sound_path", before, DEFAULT_FAILURE_PATH))
    && Stored(lines, "volume_bell", IntToString(IntAt(o, "volume_bell").value))
    && Stored(lines, "volume_notifications", IntToString(IntAt(o, "volume_notifications").value))
    && Stored(lines, "volume_other", IntToString(IntAt(o, "volume_other").value))
  }

  /** The texts of a post have no line feed. */
  ghost predicate OneLinePost(o: map<string, Json>)
    requires WellTyped(o)
  {
    && LfFree(TextAt(o, "wifi_ssid").value) && LfFree(TextAt(o, "mqtt_host").value)
    && LfFree(TextAt(o, "mqtt_client_id").value) && LfFree(TextAt(o, "mqtt_username").value)
    && LfFree(TextAt(o, "mqtt_tls_ca_file").value) && LfFree(TextAt(o, "mqtt_tls_cert_file").value)
    && LfFree(TextAt(o, "mqtt_tls_key_file").value) && LfFree(TextAt(o, "ring_topic").value)
    && LinesLfFree(ListAt(o, "mqtt_topics").value)
    && LfFree(Or(TextAt(o, "notification_success_sound_path"), ""))
    && LfFree(Or(TextAt(o, "notification_failure_sound_path"), ""))
    && LfFree(Or(TextAt(o, "wifi_password"), "")) && LfFree(Or(TextAt(o, "mqtt_password"), ""))
  }

  lemma RawIsStored(chime: string, c: CoreConfig)
    requires TextsLfFree(RawFor(c))
    ensures RawOf(Lines(NewChime(chime, c))) == TrimRaw(RawFor(c))
  {
    hide RawOf, TrimRaw, RawFor, Replacements, Lines, Joined, TextsLfFree;
    FileHasSavedLines(Lines(chime), c);
    RawAfterSave(Lines(chime), RawFor(c));
  }

  /** The configuration that a post asks to be stored. */
  function Asked(o: map<string, Json>, before: seq<string>): CoreConfig
    requires WellTyped(o)
  {
    Posted(o, "", "").config.(
      mqttPassword := BrokerPassword(o, before),
      successSoundPath := PathFor(o, "notification_success_sound_path", before, DEFAULT_SUCCESS_PATH),
      failureSoundPath := PathFor(o, "notification_failure_sound_path", before, DEFAULT_FAILURE_PATH))
  }

  lemma AskedIsStored(chime: string, o: map<string, Json>)
    requires WellTyped(o) && TextsLfFree(RawFor(Asked(o, Lines(chime))))
    ensures StoredAs(Lines(NewChime(chime, Asked(o, Lines(chime)))), o, Lines(chime))
  {
    hide TextAt, IntAt, FlagAt, ListAt, OptionalTextOk, JoinCsv, IntToString, Trim, KeyFile.Extracted, Lines, NewChime,
         BrokerPassword, PathFor, TextsLfFree;
    RawIsStored(chime, Asked(o, Lines(chime)));
  }

  lemma ExistingFields(lines: seq<string>, wpaLines: seq<string>)
    ensures var c := SnapshotOf(lines, wpaLines).config;
            && c.mqttUsername == KeyFile.Extracted(lines, "mqtt_username")
            && c.mqttPassword == KeyFile.Extracted(lines, "mqtt_password")
            && c.successSoundPath ==
               OrDefault(KeyFile.Extracted(lines, "notification_success_sound_path"), DEFAULT_SUCCESS_PATH)
            && c.failureSoundPath ==
               OrDefault(KeyFile.Extracted(lines, "notification_failure_sound_path"), DEFAULT_FAILURE_PATH)
  {
    hide SplitCsv, WebInt, WebBool, KeyFile.Extracted, Wpa.Parsed, OrDefault;
  }

  lemma PostedParts(o: map<string, Json>, success: string, failure: string)
    requires WellTyped(o)
    ensures var r := Posted(o, success, failure);
            && r.config == Posted(o, "", "").config.(
                             successSoundPath := Or(TextAt(o, "notification_success_sound_path"), success),
                             failureSoundPath := Or(TextAt(o, "notification_failure_sound_path"), failure))
            && r.wifiPassword == TextAt(o, "wifi_password") && r.mqttPassword == TextAt(o, "mqtt_password")
            && r.config.mqttUsername == TextAt(o, "mqtt_username").value
            && r.config.wifiSsid == TextAt(o, "wifi_ssid").value
  {
    hide TextAt, IntAt, FlagAt, ListAt, OptionalTextOk;
  }

  /** The request of a post, completed from the files, is what it asks for. */
  lemma RequestIsAsked(o: map<string, Json>, chime: string, wpa: Option<string>, request: SaveRequest)
    requires WellTyped(o) && Requests(o, Some(chime), wpa, request)
    ensures FullConfig(request, SnapshotOf(Lines(chime), WpaLines(wpa)).config) == Asked(o, Lines(chime))
    ensures request.wifiPassword == TextAt(o, "wifi_password")
    ensures request.config.wifiSsid == TextAt(o, "wifi_ssid").value
  {
    hide TextAt, WellTyped, Posted, KeyFile.Extracted, Lines, WpaLines, SnapshotOf, OrDefault;
    var before := SnapshotOf(Lines(chime), WpaLines(wpa)).config;
    ExistingFields(Lines(chime), WpaLines(wpa));
    PostedParts(o, "", "");
    PostedParts(o, before.successSoundPath, before.failureSoundPath);
  }

  lemma AskedIsLfFree(o: map<string, Json>, before: seq<string>)
    requires WellTyped(o) && OneLinePost(o) && LinesLfFree(before)
    ensures TextsLfFree(RawFor(Asked(o, before)))
  {
    hide TextAt, IntAt, FlagAt, ListAt, OptionalTextOk, JoinCsv, IntToString, KeyFile.Extracted, LfFree, PathFor,
         BrokerPassword;
    OldTextsAreLfFree(o, before);
    JoinLfFree(ListAt(o, "mqtt_topics").value);
    NumbersAreLfFree(IntAt(o, "mqtt_port").value);
    NumbersAreLfFree(IntAt(o, "volume_bell").value);
    NumbersAreLfFree(IntAt(o, "volume_notifications").value);
    NumbersAreLfFree(IntAt(o, "volume_other").value);
    FlagsAreLfFree();
  }

  lemma NumbersAreLfFree(n: int)
    ensures LfFree(IntToString(n))
  {
    IntToStringClean(n);
  }

  lemma FlagsAreLfFree()
    ensures LfFree(BoolToConfig(true)) && LfFree(BoolToConfig(false))
  {
  }

  lemma OldTextsAreLfFree(o: map<string, Json>, before: seq<string>)
    requires WellTyped(o) && OneLinePost(o) && LinesLfFree(before)
    ensures LfFree(BrokerPassword(o, before))
    ensures LfFree(PathFor(o, "notification_success_sound_path", before, DEFAULT_SUCCESS_PATH))
    ensures LfFree(PathFor(o, "notification_failure_sound_path", before, DEFAULT_FAILURE_PATH))
  {
    hide TextAt, WellTyped, KeyFile.Extracted;
    KeyFile.ExtractedLfFree(before, "mqtt_password");
    KeyFile.ExtractedLfFree(before, "notification_success_sound_path");
    KeyFile.ExtractedLfFree(before, "notification_failure_sound_path");
    DefaultsArePlain();
    assert LfFree("");
  }

  /**
    After a post that is answered with success each key of chime.conf holds the member of the same name, and
    wpa_supplicant.conf the SSID and the passphrase, which stays if none is sent.
   */
  lemma PostIsStored(o: map<string, Json>, body: string, chime: string, wpa: Option<string>,
                     chime': Option<string>, wpa': Option<string>, r: PostResult)
    requires ParseJson(body) == ParseResult.Success(Object(o)) && WellTyped(o) && OneLinePost(o)
    requires PostEffect(Some(chime), wpa, body, chime', wpa', r) && r.Applied?
    ensures chime'.Some? && StoredAs(Lines(chime'.value), o, Lines(chime))
    ensures var sent, after := Or(TextAt(o, "wifi_password"), ""), Wpa.Parsed(WpaLines(wpa'));
            && after.ssid == TextAt(o, "wifi_ssid").value
            && after.psk == if sent != "" then sent else Wpa.Parsed(WpaLines(wpa)).psk
  {
    hide ParseJson, WellTyped, StoredAs, SnapshotOf, TextAt, Asked, FullConfig, Lines, WpaLines, Wpa.Parsed, Requests,
         ValidRequest, NewWpa, NewChime, TextsLfFree, RawFor;
    var outcome: Outcome, request: SaveRequest :|
      && SaveEffect(Some(chime), wpa, request, chime', wpa', outcome)
      && Requests(o, Some(chime), wpa, request)
      && r == ResultOf(outcome);
    RequestIsAsked(o, chime, wpa, request);
    AskedIsLfFree(o, Lines(chime));
    AskedIsStored(chime, o);
    CredentialsAfterSave(Some(chime), wpa, request, chime', wpa', outcome);
  }

  /** What the status tells: 400 that nothing has changed, and 200 that both files hold what is answered. */
  lemma StatusTells(chime: Option<string>, wpa: Option<string>, body: string, chime': Option<string>,
      wpa': Option<string>, r: PostResult)
    requires PostEffect(chime, wpa, body, chime', wpa', r)
    ensures PostStatus(r) in [200, 400, 500]
    ensures PostStatus(r) == 400 ==> chime' == chime && wpa' == wpa
    ensures PostStatus(r) == 200 ==>
              && r.Applied? && chime'.Some? && r.snapshot == SnapshotOf(Lines(chime'.value), WpaLines(wpa'))
    ensures var parsed := ParseJson(body);
            parsed.Failure? || !parsed.value.Object? || !WellTyped(parsed.value.fields) ==> PostStatus(r) == 400
  {
    hide ParseJson, WellTyped, SnapshotOf, ValidRequest, Requests, NewWpa, NewChime, FullConfig, Wpa.ChosenPsk;
  }

  // ------------------------------------------------------ what is shown of it

  /** A GET shows the SSID, whether passwords are set, and of chime.conf the key of the same name. */
  lemma AnswerShowsTheBroker(lines: seq<string>, wpaLines: seq<string>, a: ApplyStatus)
    ensures var o, d := AnswerObject(SnapshotOf(lines, wpaLines), a), Wpa.Parsed(wpaLines);
            && Shows(o, "wifi_ssid", String(Sanitized(d.ssid)))
            && Shows(o, "wifi_password_set", Bool(d.psk != ""))
            && Shows(o, "mqtt_host", String(Sanitized(KeyFile.Extracted(lines, "mqtt_host"))))
            && Shows(o, "mqtt_port", Number(WebInt(KeyFile.Extracted(lines, "mqtt_port"), 1, 65535, 1883) as real))
            && Shows(o, "mqtt_client_id",
                     String(Sanitized(OrDefault(KeyFile.Extracted(lines, "mqtt_client_id"), "chime"))))
            && Shows(o, "mqtt_username", String(Sanitized(KeyFile.Extracted(lines, "mqtt_username"))))
            && Shows(o, "mqtt_password_set", Bool(KeyFile.Extracted(lines, "mqtt_password") != ""))
  {
    hide AnswerObject, WebInt, OrDefault, Sanitized, KeyFile.Extracted, Wpa.Parsed, SplitCsv, WebBool, JsonString,
         JsonNumber, EscapesOf, NumeralOf, KeyNumber, ApplyField, TopicsField;
    var s := SnapshotOf(lines, wpaLines);
    AnswerMembers(s, a);
    var o, f := AnswerObject(s, a), AnswerFields(s, a);
    assert Shows(o, ANSWER_KEYS[0], f[0].value);
    assert Shows(o, ANSWER_KEYS[1], f[1].value);
    assert Shows(o, ANSWER_KEYS[2], f[2].value);
    assert Shows(o, ANSWER_KEYS[3], f[3].value);
    assert Shows(o, ANSWER_KEYS[4], f[4].value);
    assert Shows(o, ANSWER_KEYS[5], f[5].value);
    assert Shows(o, ANSWER_KEYS[6], f[6].value);
  }

  ghost predicate Shows(o: map<string, Json>, key: string, value: Json) {
    key in o && o[key] == value
  }

  lemma AnswerShowsTls(lines: seq<string>, wpaLines: seq<string>, a: ApplyStatus)
    ensures var o := AnswerObject(SnapshotOf(lines, wpaLines), a);
            && Shows(o, "mqtt_tls_enabled", Bool(WebBool(KeyFile.Extracted(lines, "mqtt_tls_enabled"), false)))
            && Shows(o, "mqtt_tls_validate_certificate",
                     Bool(WebBool(KeyFile.Extracted(lines, "mqtt_tls_validate_certificate"), true)))
            && Shows(o, "mqtt_tls_ca_file", String(Sanitized(KeyFile.Extracted(lines, "mqtt_tls_ca_file"))))
            && Shows(o, "mqtt_tls_cert_file", String(Sanitized(KeyFile.Extracted(lines, "mqtt_tls_cert_file"))))
            && Shows(o, "mqtt_tls_key_file", String(Sanitized(KeyFile.Extracted(lines, "mqtt_tls_key_file"))))
            && Shows(o, "mqtt_topics", Array(Strings(SanitizedAll(SplitCsv(KeyFile.Extracted(lines, "mqtt_topics"))))))
  {
    hide AnswerObject, WebInt, OrDefault, Sanitized, KeyFile.Extracted, Wpa.Parsed, SplitCsv, WebBool, JsonString,
         JsonBool, EscapesOf, KeyNumber, ApplyField, NumberField, SanitizedAll, Strings, ListTree, Quoted;
    var s := SnapshotOf(lines, wpaLines);
    AnswerMembers(s, a);
    var o, f := AnswerObject(s, a), AnswerFields(s, a);
    assert Shows(o, ANSWER_KEYS[7], f[7].value);
    assert Shows(o, ANSWER_KEYS[8], f[8].value);
    assert Shows(o, ANSWER_KEYS[9], f[9].value);
    assert Shows(o, ANSWER_KEYS[10], f[10].value);
    assert Shows(o, ANSWER_KEYS[11], f[11].value);
    assert Shows(o, ANSWER_KEYS[12], f[12].value);
  }

  lemma AnswerShowsTheSounds(lines: seq<string>, wpaLines: seq<string>, a: ApplyStatus)
    ensures var o := AnswerObject(SnapshotOf(lines, wpaLines), a);
            && Shows(o, "ring_topic",
                     String(Sanitized(OrDefault(KeyFile.Extracted(lines, "ring_topic"), "doorbell/ring"))))
            && Shows(o, "notification_success_sound_path",
                     String(Sanitized(OrDefault(KeyFile.Extracted(lines, "notification_success_sound_path"),
                                                "/usr/local/share/chime/test.wav"))))
            && Shows(o, "notification_failure_sound_path",
                     String(Sanitized(OrDefault(KeyFile.Extracted(lines, "notification_failure_sound_path"),
                                                "/usr/local/share/chime/ring.wav"))))
            && Shows(o, "volume_bell", Number(WebInt(KeyFile.Extracted(lines, "volume_bell"), 0, 100, 80) as real))
            && Shows(o, "volume_notifications",
                     Number(WebInt(KeyFile.Extracted(lines, "volume_notifications"), 0, 100, 70) as real))
            && Shows(o, "volume_other", Number(WebInt(KeyFile.Extracted(lines, "volume_other"), 0, 100, 70) as real))
  {
    hide AnswerObject, WebInt, OrDefault, Sanitized, KeyFile.Extracted, Wpa.Parsed, SplitCsv, WebBool, JsonString,
         JsonNumber, EscapesOf, NumeralOf, KeyNumber, ApplyField, TopicsField, FlagField;
    var s := SnapshotOf(lines, wpaLines);
    AnswerMembers(s, a);
    var o, f := AnswerObject(s, a), AnswerFields(s, a);
    assert Shows(o, ANSWER_KEYS[13], f[13].value);
    assert Shows(o, ANSWER_KEYS[14], f[14].value);
    assert Shows(o, ANSWER_KEYS[15], f[15].value);
    assert Shows(o, ANSWER_KEYS[16], f[16].value);
    assert Shows(o, ANSWER_KEYS[17], f[17].value);
    assert Shows(o, ANSWER_KEYS[18], f[18].value);
  }

  /** And the job of the last save. */
  lemma AnswerShowsTheJob(s: Snapshot, a: ApplyStatus)
    ensures var o := AnswerObject(s, a);
            && "apply" in o && o["apply"].Object?
            && var job := o["apply"].fields;
               && Shows(job, "job_id", Number(a.jobId as real)) && Shows(job, "state", String(Sanitized(a.state)))
               && Shows(job, "started_at_utc", String(Sanitized(a.startedAt)))
               && Shows(job, "finished_at_utc", String(Sanitized(a.finishedAt)))
               && Shows(job, "error", String(Sanitized(a.error)))
  {
    hide AnswerObject, Sanitized, JsonString, JsonNumber, EscapesOf, NumeralOf, KeyNumber, TopicsField, FlagField,
         Built;
    AnswerMembers(s, a);
    assert Shows(AnswerObject(s, a), ANSWER_KEYS[19], AnswerFields(s, a)[19].value);
    JobKeys();
    var fields := ApplyFields(a);
    assert DistinctFields(fields);
    BuiltAt(fields, map[]);
    var job := Built(fields, map[]);
    assert Shows(job, fields[0].key, fields[0].value) && Shows(job, fields[1].key, fields[1].value);
    assert Shows(job, fields[2].key, fields[2].value) && Shows(job, fields[3].key, fields[3].value);
    assert Shows(job, fields[4].key, fields[4].value);
  }

  lemma JobKeys()
    ensures |"job_id"| == 6 && |"state"| == |"error"| == 5 && |"started_at_utc"| == 14 && |"finished_at_utc"| == 15
    ensures "state" != "error"
  {
    assert "state"[0] == 's' && "error"[0] == 'e';
  }
}
