/**
  The GET and POST handlers of `/api/v1/config/core`, and what posting back the answer of a GET does.
 */
module ConfigApi {
  import opened Wrappers
  import opened Text
  import opened Csv
  import opened ChimeFile
  import opened Configuration
  import opened Json
  import opened JsonPrint
  import JsonParser
  import Wpa

  datatype ApplyStatus = ApplyStatus(jobId: nat, state: string, startedAt: string, finishedAt: string, error: string)

  // ------------------------------------------------------------------- GET

  function TextField(key: string, s: string): (f: Field)
    ensures f.key == key
  {
    Field(key, JsonString(s), JsonGrammar.StringTree(EscapesOf(s)), String(Sanitized(s)))
  }

  function FlagField(key: string, b: bool): (f: Field)
    ensures f.key == key
  {
    Field(key, JsonBool(b), if b then JsonGrammar.TrueTree else JsonGrammar.FalseTree, Bool(b))
  }

  function NumberField(key: string, n: int): (f: Field)
    ensures f.key == key
  {
    Field(key, JsonNumber(n), JsonGrammar.NumberTree(NumeralOf(n)), Number(n as real))
  }

  function TopicsField(key: string, topics: seq<string>): (f: Field)
    ensures f.key == key
  {
    Field(key, ListText(Quoted(topics)), ListTree(StringEntries(topics)), Array(Strings(SanitizedAll(topics))))
  }

  function ApplyFields(a: ApplyStatus): seq<Field> {
    [ NumberField("job_id", a.jobId), TextField("state", a.state), TextField("started_at_utc", a.startedAt),
      TextField("finished_at_utc", a.finishedAt), TextField("error", a.error) ]
  }

  ghost function ApplyField(key: string, a: ApplyStatus): (f: Field)
    ensures f.key == key
  {
    Field(key, ObjectText(ApplyFields(a)), JsonGrammar.ObjectTree("", MembersOf(ApplyFields(a))),
          Object(Built(ApplyFields(a), map[])))
  }

  const ANSWER_KEYS: seq<string> := [
    "wifi_ssid", "wifi_password_set", "mqtt_host", "mqtt_port", "mqtt_client_id", "mqtt_username",
    "mqtt_password_set", "mqtt_tls_enabled", "mqtt_tls_validate_certificate", "mqtt_tls_ca_file",
    "mqtt_tls_cert_file", "mqtt_tls_key_file", "mqtt_topics", "ring_topic", "notification_success_sound_path",
    "notification_failure_sound_path", "volume_bell", "volume_notifications", "volume_other", "apply"
  ]

  /** The members of the answer, in the order in which they are appended to the body. */
  ghost function AnswerFields(s: Snapshot, a: ApplyStatus): (fields: seq<Field>)
    ensures |fields| == 20
  {
    var c := s.config;
    [ TextField("wifi_ssid", c.wifiSsid),
      FlagField("wifi_password_set", s.wifiPasswordSet),
      TextField("mqtt_host", c.mqttHost),
      NumberField("mqtt_port", c.mqttPort),
      TextField("mqtt_client_id", c.mqttClientId),
      TextField("mqtt_username", c.mqttUsername),
      FlagField("mqtt_password_set", s.mqttPasswordSet),
      FlagField("mqtt_tls_enabled", c.mqttTlsEnabled),
      FlagField("mqtt_tls_validate_certificate", c.mqttTlsValidateCertificate),
      TextField("mqtt_tls_ca_file", c.mqttTlsCaFile),
      TextField("mqtt_tls_cert_file", c.mqttTlsCertFile),
      TextField("mqtt_tls_key_file", c.mqttTlsKeyFile),
      TopicsField("mqtt_topics", c.mqttTopics),
      TextField("ring_topic", c.ringTopic),
      TextField("notification_success_sound_path", c.successSoundPath),
      TextField("notification_failure_sound_path", c.failureSoundPath),
      NumberField("volume_bell", c.volumeBell),
      NumberField("volume_notifications", c.volumeNotifications),
      NumberField("volume_other", c.volumeOther),
      ApplyField("apply", a) ]
  }

  ghost function AnswerBody(s: Snapshot, a: ApplyStatus): string {
    ObjectText(AnswerFields(s, a))
  }

  /** A member as a handler appends it: key and finished value text. */
  datatype Pair = Pair(key: string, text: string)

  function PairText(p: Pair): string {
    "\"" + p.key + "\":" + p.text
  }

  function PairTexts(pairs: seq<Pair>): (r: seq<string>)
    ensures |r| == |pairs| && forall i | 0 <= i < |r| :: r[i] == PairText(pairs[i])
  {
    seq(|pairs|, i requires 0 <= i < |pairs| => PairText(pairs[i]))
  }

  function PairOf(f: Field): Pair {
    Pair(f.key, f.text)
  }

  function PairsOf(fields: seq<Field>): (pairs: seq<Pair>)
    ensures |pairs| == |fields| && forall i | 0 <= i < |pairs| :: pairs[i] == PairOf(fields[i])
  {
    seq(|fields|, i requires 0 <= i < |fields| => PairOf(fields[i]))
  }

  /** The appends that build an object, member by member. */
  method AppendMembers(pairs: seq<Pair>) returns (body: string)
    ensures body == "{" + JoinCsv(PairTexts(pairs)) + "}"
  {
    ghost var texts := PairTexts(pairs);
    body := "{";
    for i := 0 to |pairs|
      invariant body == "{" + JoinCsv(texts[..i])
    {
      assert texts[..i + 1][..i] == texts[..i];
      if i > 0 {
        body := body + ",";
      }
      body := body + ("\"" + pairs[i].key + "\":" + pairs[i].text);
    }
    assert texts[..|pairs|] == texts;
    body := body + "}";
  }

  lemma PairTextsAreFieldTexts(fields: seq<Field>)
    ensures PairTexts(PairsOf(fields)) == FieldTexts(fields)
  {
  }

  method SerializeApplyStatus(a: ApplyStatus) returns (output: string)
    ensures output == ObjectText(ApplyFields(a))
  {
    hide EscapedText, IntToString, JoinCsv;
    var state := JsonEscape(a.state);
    var started := JsonEscape(a.startedAt);
    var finished := JsonEscape(a.finishedAt);
    var error := JsonEscape(a.error);
    var pairs := [
      Pair("job_id", IntToString(a.jobId)), Pair("state", "\"" + state + "\""),
      Pair("started_at_utc", "\"" + started + "\""), Pair("finished_at_utc", "\"" + finished + "\""),
      Pair("error", "\"" + error + "\"")
    ];
    output := AppendMembers(pairs);
    assert pairs == PairsOf(ApplyFields(a));
    PairTextsAreFieldTexts(ApplyFields(a));
  }

  method Quote(s: string) returns (text: string)
    ensures text == JsonString(s)
  {
    var escaped := JsonEscape(s);
    text := "\"" + escaped + "\"";
  }

  /** The body that both handlers answer with. */
  method SerializeSnapshot(s: Snapshot, a: ApplyStatus) returns (body: string)
    ensures body == AnswerBody(s, a)
  {
    hide EscapedText, IntToString, JsonString, Quoted, ListText, FieldText, PairText, JoinCsv;
    var c := s.config;
    var ssid := Quote(c.wifiSsid);
    var host := Quote(c.mqttHost);
    var clientId := Quote(c.mqttClientId);
    var username := Quote(c.mqttUsername);
    var caFile := Quote(c.mqttTlsCaFile);
    var certFile := Quote(c.mqttTlsCertFile);
    var keyFile := Quote(c.mqttTlsKeyFile);
    var topics := SerializeTopics(c.mqttTopics);
    var ringTopic := Quote(c.ringTopic);
    var success := Quote(c.successSoundPath);
    var failure := Quote(c.failureSoundPath);
    var apply := SerializeApplyStatus(a);
    var pairs := [
      Pair("wifi_ssid", ssid), Pair("wifi_password_set", JsonBool(s.wifiPasswordSet)), Pair("mqtt_host", host),
      Pair("mqtt_port", JsonNumber(c.mqttPort)), Pair("mqtt_client_id", clientId), Pair("mqtt_username", username),
      Pair("mqtt_password_set", JsonBool(s.mqttPasswordSet)), Pair("mqtt_tls_enabled", JsonBool(c.mqttTlsEnabled)),
      Pair("mqtt_tls_validate_certificate", JsonBool(c.mqttTlsValidateCertificate)),
      Pair("mqtt_tls_ca_file", caFile), Pair("mqtt_tls_cert_file", certFile), Pair("mqtt_tls_key_file", keyFile),
      Pair("mqtt_topics", topics), Pair("ring_topic", ringTopic),
      Pair("notification_success_sound_path", success), Pair("notification_failure_sound_path", failure),
      Pair("volume_bell", JsonNumber(c.volumeBell)), Pair("volume_notifications", JsonNumber(c.volumeNotifications)),
      Pair("volume_other", JsonNumber(c.volumeOther)), Pair("apply", apply)
    ];
    body := AppendMembers(pairs);
    assert pairs == PairsOf(AnswerFields(s, a));
    PairTextsAreFieldTexts(AnswerFields(s, a));
  }

  datatype Response = Response(status: int, body: string)

  method HandleGetCoreConfig(store: ConfigStore, a: ApplyStatus) returns (r: Response)
    ensures r.status == 200 || r.status == 500
    ensures store.chime.None? ==> r.status == 500
    ensures r.status == 200 ==> r.body == AnswerBody(SnapshotOf(Lines(store.chime.value), WpaLines(store.wpa)), a)
  {
    hide SnapshotOf, AnswerBody;
    var loaded := store.LoadCoreConfig();
    if loaded.Err? {
      var message := Quote(loaded.error);
      return Response(500, "{\"error\":\"load_failed\",\"message\":" + message + "}");
    }
    var body := SerializeSnapshot(loaded.value, a);
    return Response(200, body);
  }

  // ------------------------------------------------ the answer is parsed back

  /** Tells the answer's keys, and the two password keys of a request, apart. */
  function KeyNumber(k: string): int {
    match |k|
    case 5 => 19
    case 9 => if k[5] == 's' then 0 else if k[5] == 'h' then 2 else 3
    case 10 => 13
    case 11 => if k[0] == 'm' then 12 else 16
    case 12 => 18
    case 13 => if k[0] == 'w' then 20 else if k[5] == 'u' then 5 else 21
    case 14 => 4
    case 16 => if k[9] == 'e' then 7 else 9
    case 17 => if k[0] == 'w' then 1 else if k[5] == 'p' then 6 else 11
    case 18 => 10
    case 20 => 17
    case 29 => 8
    case 31 => if k[13] == 's' then 14 else 15
    case _ => -1
  }

  lemma KeyNumbers0()
    ensures |ANSWER_KEYS| == 20 && forall i | 0 <= i < 3 :: KeyNumber(ANSWER_KEYS[i]) == i && SafeKey(ANSWER_KEYS[i])
  {
    assert KeyNumber(ANSWER_KEYS[0]) == 0 && KeyNumber(ANSWER_KEYS[1]) == 1 && KeyNumber(ANSWER_KEYS[2]) == 2;
  }

  lemma KeyNumbers1()
    ensures |ANSWER_KEYS| == 20 && forall i | 3 <= i < 6 :: KeyNumber(ANSWER_KEYS[i]) == i && SafeKey(ANSWER_KEYS[i])
  {
    assert KeyNumber(ANSWER_KEYS[3]) == 3 && KeyNumber(ANSWER_KEYS[4]) == 4 && KeyNumber(ANSWER_KEYS[5]) == 5;
  }

  lemma KeyNumbers2()
    ensures |ANSWER_KEYS| == 20 && forall i | 6 <= i < 8 :: KeyNumber(ANSWER_KEYS[i]) == i && SafeKey(ANSWER_KEYS[i])
  {
    assert KeyNumber(ANSWER_KEYS[6]) == 6 && KeyNumber(ANSWER_KEYS[7]) == 7;
  }

  lemma KeyNumbers3()
    ensures |ANSWER_KEYS| == 20 && forall i | 8 <= i < 10 :: KeyNumber(ANSWER_KEYS[i]) == i && SafeKey(ANSWER_KEYS[i])
  {
    assert KeyNumber(ANSWER_KEYS[8]) == 8 && KeyNumber(ANSWER_KEYS[9]) == 9;
  }

  lemma KeyNumbers4()
    ensures |ANSWER_KEYS| == 20 && forall i | 10 <= i < 13 :: KeyNumber(ANSWER_KEYS[i]) == i && SafeKey(ANSWER_KEYS[i])
  {
    assert KeyNumber(ANSWER_KEYS[10]) == 10 && KeyNumber(ANSWER_KEYS[11]) == 11 && KeyNumber(ANSWER_KEYS[12]) == 12;
  }

  lemma KeyNumbers5()
    ensures |ANSWER_KEYS| == 20 && forall i | 13 <= i < 14 :: KeyNumber(ANSWER_KEYS[i]) == i && SafeKey(ANSWER_KEYS[i])
  {
    assert KeyNumber(ANSWER_KEYS[13]) == 13;
  }

  lemma KeyNumbers6()
    ensures |ANSWER_KEYS| == 20 && forall i | 14 <= i < 15 :: KeyNumber(ANSWER_KEYS[i]) == i && SafeKey(ANSWER_KEYS[i])
  {
    assert KeyNumber(ANSWER_KEYS[14]) == 14;
  }

  lemma KeyNumbers7()
    ensures |ANSWER_KEYS| == 20 && forall i | 15 <= i < 16 :: KeyNumber(ANSWER_KEYS[i]) == i && SafeKey(ANSWER_KEYS[i])
  {
    assert KeyNumber(ANSWER_KEYS[15]) == 15;
  }

  lemma KeyNumbers8()
    ensures |ANSWER_KEYS| == 20 && forall i | 16 <= i < 18 :: KeyNumber(ANSWER_KEYS[i]) == i && SafeKey(ANSWER_KEYS[i])
  {
    assert KeyNumber(ANSWER_KEYS[16]) == 16 && KeyNumber(ANSWER_KEYS[17]) == 17;
  }

  lemma KeyNumbers9()
    ensures |ANSWER_KEYS| == 20 && forall i | 18 <= i < 20 :: KeyNumber(ANSWER_KEYS[i]) == i && SafeKey(ANSWER_KEYS[i])
  {
    assert KeyNumber(ANSWER_KEYS[18]) == 18 && KeyNumber(ANSWER_KEYS[19]) == 19;
  }

  lemma AnswerKeysAreDistinct()
    ensures |ANSWER_KEYS| == 20
    ensures forall i | 0 <= i < 20 :: SafeKey(ANSWER_KEYS[i]) && KeyNumber(ANSWER_KEYS[i]) == i
  {
    hide SafeKey, KeyNumber;
    KeyNumbers0();
    KeyNumbers1();
    KeyNumbers2();
    KeyNumbers3();
    KeyNumbers4();
    KeyNumbers5();
    KeyNumbers6();
    KeyNumbers7();
    KeyNumbers8();
    KeyNumbers9();
  }

  lemma AnswerKeysOfFields(s: Snapshot, a: ApplyStatus)
    ensures |ANSWER_KEYS| == 20 && forall i | 0 <= i < 20 :: AnswerFields(s, a)[i].key == ANSWER_KEYS[i]
  {
    hide TextField, FlagField, NumberField, TopicsField, ApplyField;
  }

  predicate SmallNumber(n: int) {
    -0x1_0000_0000 < n < 0x1_0000_0000_0000_0000
  }

  lemma SmallNumbersAreSmall()
    ensures PowerOf2(64) == 0x1_0000_0000_0000_0000
  {
    hide PowerOf2;
    TwoToTheOne();
    PowerOf2Sum(1, 1);
    PowerOf2Sum(2, 2);
    PowerOf2Sum(4, 4);
    PowerOf2Sum(8, 8);
    PowerOf2Sum(16, 16);
    PowerOf2Sum(32, 32);
  }

  lemma PowerOf2Sum(a: nat, b: nat)
    ensures PowerOf2(a + b) == PowerOf2(a) * PowerOf2(b)
  {
    if b > 0 {
      PowerOf2Sum(a, b - 1);
    }
  }

  lemma TextFieldOk(key: string, s: string)
    requires SafeKey(key)
    ensures FieldOk(TextField(key, s))
  {
    StringIsPrinted(s);
  }

  lemma FlagFieldOk(key: string, b: bool)
    requires SafeKey(key)
    ensures FieldOk(FlagField(key, b))
  {
    BoolIsPrinted(b);
  }

  lemma NumberFieldOk(key: string, n: int)
    requires SafeKey(key) && SmallNumber(n)
    ensures FieldOk(NumberField(key, n))
  {
    hide PowerOf2, Printed, NumeralOf;
    SmallNumbersAreSmall();
    NumberIsPrinted(n);
  }

  lemma TopicsFieldOk(key: string, topics: seq<string>)
    requires SafeKey(key)
    ensures FieldOk(TopicsField(key, topics))
  {
    TopicsArePrinted(topics);
  }

  lemma ApplyKeysAreSafe()
    ensures SafeKey("job_id") && SafeKey("state") && SafeKey("error")
    ensures SafeKey("started_at_utc") && SafeKey("finished_at_utc")
  {
  }

  lemma ApplyFieldOk(key: string, a: ApplyStatus)
    requires SafeKey(key) && SmallNumber(a.jobId)
    ensures FieldOk(ApplyField(key, a))
  {
    hide TextField, NumberField, FieldOk, Built, MembersOf, ObjectText, SafeKey;
    ApplyKeysAreSafe();
    NumberFieldOk("job_id", a.jobId);
    TextFieldOk("state", a.state);
    TextFieldOk("started_at_utc", a.startedAt);
    TextFieldOk("finished_at_utc", a.finishedAt);
    TextFieldOk("error", a.error);
    ObjectIsPrinted(ApplyFields(a));
    ObjectFieldOk(key, ApplyFields(a));
  }

  lemma ObjectFieldOk(key: string, fields: seq<Field>)
    requires SafeKey(key) && fields != []
    requires Printed(ObjectText(fields), JsonGrammar.ObjectTree("", MembersOf(fields)), Object(Built(fields, map[])))
    ensures FieldOk(Field(key, ObjectText(fields), JsonGrammar.ObjectTree("", MembersOf(fields)),
                          Object(Built(fields, map[]))))
  {
  }

  ghost predicate PrintableNumbers(s: Snapshot, a: ApplyStatus) {
    && SmallNumber(s.config.mqttPort) && SmallNumber(s.config.volumeBell)
    && SmallNumber(s.config.volumeNotifications) && SmallNumber(s.config.volumeOther) && SmallNumber(a.jobId)
  }

  lemma AnswerFieldsOk0(s: Snapshot, a: ApplyStatus)
    requires PrintableNumbers(s, a)
    ensures forall i | 0 <= i < 4 :: FieldOk(AnswerFields(s, a)[i])
  {
    hide TextField, NumberField, FlagField, TopicsField, ApplyField, FieldOk, SafeKey, KeyNumber;
    AnswerKeysAreDistinct();
    var c := s.config;
    TextFieldOk(ANSWER_KEYS[0], c.wifiSsid);
    FlagFieldOk(ANSWER_KEYS[1], s.wifiPasswordSet);
    TextFieldOk(ANSWER_KEYS[2], c.mqttHost);
    NumberFieldOk(ANSWER_KEYS[3], c.mqttPort);
  }

  lemma AnswerFieldsOk1(s: Snapshot, a: ApplyStatus)
    requires PrintableNumbers(s, a)
    ensures forall i | 4 <= i < 9 :: FieldOk(AnswerFields(s, a)[i])
  {
    hide TextField, NumberField, FlagField, TopicsField, ApplyField, FieldOk, SafeKey, KeyNumber;
    AnswerKeysAreDistinct();
    var c := s.config;
    TextFieldOk(ANSWER_KEYS[4], c.mqttClientId);
    TextFieldOk(ANSWER_KEYS[5], c.mqttUsername);
    FlagFieldOk(ANSWER_KEYS[6], s.mqttPasswordSet);
    FlagFieldOk(ANSWER_KEYS[7], c.mqttTlsEnabled);
    FlagFieldOk(ANSWER_KEYS[8], c.mqttTlsValidateCertificate);
  }

  lemma AnswerFieldsOk2(s: Snapshot, a: ApplyStatus)
    requires PrintableNumbers(s, a)
    ensures forall i | 9 <= i < 15 :: FieldOk(AnswerFields(s, a)[i])
  {
    hide TextField, NumberField, FlagField, TopicsField, ApplyField, FieldOk, SafeKey, KeyNumber;
    AnswerKeysAreDistinct();
    var c := s.config;
    TextFieldOk(ANSWER_KEYS[9], c.mqttTlsCaFile);
    TextFieldOk(ANSWER_KEYS[10], c.mqttTlsCertFile);
    TextFieldOk(ANSWER_KEYS[11], c.mqttTlsKeyFile);
    TopicsFieldOk(ANSWER_KEYS[12], c.mqttTopics);
    TextFieldOk(ANSWER_KEYS[13], c.ringTopic);
    TextFieldOk(ANSWER_KEYS[14], c.successSoundPath);
  }

  lemma AnswerFieldsOk3(s: Snapshot, a: ApplyStatus)
    requires PrintableNumbers(s, a)
    ensures forall i | 15 <= i < 20 :: FieldOk(AnswerFields(s, a)[i])
  {
    hide TextField, NumberField, FlagField, TopicsField, ApplyField, FieldOk, SafeKey, KeyNumber;
    AnswerKeysAreDistinct();
    var c := s.config;
    TextFieldOk(ANSWER_KEYS[15], c.failureSoundPath);
    NumberFieldOk(ANSWER_KEYS[16], c.volumeBell);
    NumberFieldOk(ANSWER_KEYS[17], c.volumeNotifications);
    NumberFieldOk(ANSWER_KEYS[18], c.volumeOther);
    ApplyFieldOk(ANSWER_KEYS[19], a);
  }

  lemma AnswerFieldsOk(s: Snapshot, a: ApplyStatus)
    requires PrintableNumbers(s, a)
    ensures FieldsOk(AnswerFields(s, a))
  {
    hide AnswerFields, FieldOk;
    AnswerFieldsOk0(s, a);
    AnswerFieldsOk1(s, a);
    AnswerFieldsOk2(s, a);
    AnswerFieldsOk3(s, a);
  }

  ghost function AnswerObject(s: Snapshot, a: ApplyStatus): map<string, Json> {
    Built(AnswerFields(s, a), map[])
  }

  /** The answer of a GET is parsed back to an object with exactly the printed members. */
  lemma AnswerParses(s: Snapshot, a: ApplyStatus)
    requires PrintableNumbers(s, a)
    ensures ParseJson(AnswerBody(s, a)) == ParseResult.Success(Object(AnswerObject(s, a)))
  {
    hide ParseJson, AnswerFields, Built, MembersOf, ObjectText, FieldsOk;
    AnswerFieldsOk(s, a);
    ObjectIsPrinted(AnswerFields(s, a));
    PrintedParses(ObjectText(AnswerFields(s, a)), JsonGrammar.ObjectTree("", MembersOf(AnswerFields(s, a))),
                  Object(Built(AnswerFields(s, a), map[])));
  }

  lemma AnswerMembers(s: Snapshot, a: ApplyStatus)
    ensures |ANSWER_KEYS| == 20
    ensures forall i | 0 <= i < 20 ::
              ANSWER_KEYS[i] in AnswerObject(s, a) && AnswerObject(s, a)[ANSWER_KEYS[i]] == AnswerFields(s, a)[i].value
    ensures forall k | KeyNumber(k) >= 20 :: k !in AnswerObject(s, a)
  {
    hide AnswerFields, Built, SafeKey, KeyNumber;
    AnswerKeysAreDistinct();
    AnswerKeysOfFields(s, a);
    BuiltAt(AnswerFields(s, a), map[]);
  }

  // ------------------------------------------------------------------- POST

  /** The text of a string member; None if it is missing or of another type. */
  function TextAt(o: map<string, Json>, key: string): Option<string> {
    if key in o && o[key].String? then Some(o[key].text) else None
  }

  function FlagAt(o: map<string, Json>, key: string): Option<bool> {
    if key in o && o[key].Bool? then Some(o[key].b) else None
  }

  const INT_MIN: int := -0x8000_0000
  const INT_MAX: int := 0x7fff_ffff

  /** Only numbers with an exact `int` value are taken. */
  function IntAt(o: map<string, Json>, key: string): Option<int> {
    if key in o && o[key].Number? && o[key].value.Floor as real == o[key].value
       && INT_MIN <= o[key].value.Floor <= INT_MAX
    then Some(o[key].value.Floor) else None
  }

  predicate AllStrings(items: seq<Json>) {
    forall i | 0 <= i < |items| :: items[i].String?
  }

  function Texts(items: seq<Json>): (texts: seq<string>)
    requires AllStrings(items)
    ensures |texts| == |items| && forall i | 0 <= i < |texts| :: texts[i] == items[i].text
  {
    seq(|items|, i requires 0 <= i < |items| => items[i].text)
  }

  function ListAt(o: map<string, Json>, key: string): Option<seq<string>> {
    if key in o && o[key].Array? && AllStrings(o[key].items) then Some(Texts(o[key].items)) else None
  }

  /** What each reader takes: a member of its type, with the value that it has; of numbers the integers in range. */
  lemma MembersAreTyped(o: map<string, Json>, key: string, text: string, flag: bool, n: int, list: seq<string>)
    ensures TextAt(o, key) == Some(text) <==> key in o && o[key] == String(text)
    ensures FlagAt(o, key) == Some(flag) <==> key in o && o[key] == Bool(flag)
    ensures IntAt(o, key) == Some(n) <==> key in o && o[key] == Number(n as real) && -0x8000_0000 <= n < 0x8000_0000
    ensures ListAt(o, key) == Some(list) <==> key in o && o[key] == Array(Strings(list))
  {
    if key in o && o[key] == Array(Strings(list)) {
      assert Texts(o[key].items) == list;
    }
    if ListAt(o, key) == Some(list) {
      assert o[key].items == Strings(list);
    }
  }

  predicate OptionalTextOk(o: map<string, Json>, key: string) {
    key in o ==> o[key].String?
  }

  method ReadRequiredString(o: map<string, Json>, key: string, errors: seq<ValidationError>)
    returns (value: Option<string>, errors': seq<ValidationError>)
    ensures value == TextAt(o, key)
    ensures FieldsOf(errors') == FieldsOf(errors) + If(value.None?, key)
    ensures MessagesFit(errors) ==> MessagesFit(errors')
  {
    if key !in o {
      return None, Reported(errors, key, " is required");
    }
    if !o[key].String? {
      return None, Reported(errors, key, " must be a string");
    }
    return Some(o[key].text), errors;
  }

  method ReadRequiredInt(o: map<string, Json>, key: string, errors: seq<ValidationError>)
    returns (value: Option<int>, errors': seq<ValidationError>)
    ensures value == IntAt(o, key)
    ensures FieldsOf(errors') == FieldsOf(errors) + If(value.None?, key)
    ensures MessagesFit(errors) ==> MessagesFit(errors')
  {
    if key !in o {
      return None, Reported(errors, key, " is required");
    }
    if !o[key].Number? {
      return None, Reported(errors, key, " must be a number");
    }
    var rounded := o[key].value.Floor;
    if rounded as real != o[key].value || rounded < INT_MIN || rounded > INT_MAX {
      return None, Reported(errors, key, " must be an integer");
    }
    return Some(rounded), errors;
  }

  method ReadRequiredBool(o: map<string, Json>, key: string, errors: seq<ValidationError>)
    returns (value: Option<bool>, errors': seq<ValidationError>)
    ensures value == FlagAt(o, key)
    ensures FieldsOf(errors') == FieldsOf(errors) + If(value.None?, key)
    ensures MessagesFit(errors) ==> MessagesFit(errors')
  {
    if key !in o {
      return None, Reported(errors, key, " is required");
    }
    if !o[key].Bool? {
      return None, Reported(errors, key, " must be a boolean");
    }
    return Some(o[key].b), errors;
  }

  /** Items that are not strings are left out and reported one by one. */
  method ReadRequiredStringArray(o: map<string, Json>, key: string, errors: seq<ValidationError>)
    returns (value: Option<seq<string>>, errors': seq<ValidationError>)
    ensures ListAt(o, key).Some? ==> value == ListAt(o, key)
    ensures FieldsOf(errors') == FieldsOf(errors) + If(ListAt(o, key).None?, key)
    ensures MessagesFit(errors) ==> MessagesFit(errors')
  {
    hide FieldsOf, MessagesFit;
    if key !in o {
      return None, Reported(errors, key, " is required");
    }
    if !o[key].Array? {
      return None, Reported(errors, key, " must be an array");
    }
    var items := o[key].items;
    var output: seq<string> := [];
    errors' := errors;
    for i := 0 to |items|
      invariant |errors'| >= |errors| && (MessagesFit(errors) ==> MessagesFit(errors'))
      invariant FieldsOf(errors') == FieldsOf(errors) + If(|errors'| > |errors|, key)
      invariant |errors'| == |errors| <==> forall j | 0 <= j < i :: items[j].String?
      invariant |errors'| == |errors| ==> errors' == errors
      invariant |errors'| == |errors| ==> |output| == i && forall j | 0 <= j < i :: output[j] == items[j].text
    {
      if !items[i].String? {
        errors' := Reported(errors', key, "[" + IntToString(i) + "] must be a string");
        continue;
      }
      output := output + [items[i].text];
    }
    assert AllStrings(items) ==> output == Texts(items);
    value := Some(output);
  }

  method ReadOptionalString(o: map<string, Json>, key: string, errors: seq<ValidationError>)
    returns (value: Option<string>, errors': seq<ValidationError>)
    ensures value == TextAt(o, key)
    ensures FieldsOf(errors') == FieldsOf(errors) + If(!OptionalTextOk(o, key), key)
    ensures MessagesFit(errors) ==> MessagesFit(errors')
  {
    if key !in o {
      return None, errors;
    }
    if !o[key].String? {
      return None, Reported(errors, key, " must be a string");
    }
    return Some(o[key].text), errors;
  }

  /** Every required member is there and every member that is read has the right type. */
  predicate WellTyped(o: map<string, Json>) {
    && TextAt(o, "wifi_ssid").Some? && TextAt(o, "mqtt_host").Some? && IntAt(o, "mqtt_port").Some?
    && TextAt(o, "mqtt_client_id").Some? && TextAt(o, "mqtt_username").Some?
    && FlagAt(o, "mqtt_tls_enabled").Some? && FlagAt(o, "mqtt_tls_validate_certificate").Some?
    && TextAt(o, "mqtt_tls_ca_file").Some? && TextAt(o, "mqtt_tls_cert_file").Some?
    && TextAt(o, "mqtt_tls_key_file").Some? && ListAt(o, "mqtt_topics").Some? && TextAt(o, "ring_topic").Some?
    && OptionalTextOk(o, "notification_success_sound_path") && OptionalTextOk(o, "notification_failure_sound_path")
    && IntAt(o, "volume_bell").Some? && IntAt(o, "volume_notifications").Some? && IntAt(o, "volume_other").Some?
    && OptionalTextOk(o, "wifi_password") && OptionalTextOk(o, "mqtt_password")
  }

  /** The members that are missing or mistyped. */
  function TypeFaults(o: map<string, Json>): set<string> {
    {} +
    If(TextAt(o, "wifi_ssid").None?, "wifi_ssid") +
    If(TextAt(o, "mqtt_host").None?, "mqtt_host") +
    If(IntAt(o, "mqtt_port").None?, "mqtt_port") +
    If(TextAt(o, "mqtt_client_id").None?, "mqtt_client_id") +
    If(TextAt(o, "mqtt_username").None?, "mqtt_username") +
    If(FlagAt(o, "mqtt_tls_enabled").None?, "mqtt_tls_enabled") +
    If(FlagAt(o, "mqtt_tls_validate_certificate").None?, "mqtt_tls_validate_certificate") +
    If(TextAt(o, "mqtt_tls_ca_file").None?, "mqtt_tls_ca_file") +
    If(TextAt(o, "mqtt_tls_cert_file").None?, "mqtt_tls_cert_file") +
    If(TextAt(o, "mqtt_tls_key_file").None?, "mqtt_tls_key_file") +
    If(ListAt(o, "mqtt_topics").None?, "mqtt_topics") +
    If(TextAt(o, "ring_topic").None?, "ring_topic") +
    If(!OptionalTextOk(o, "notification_success_sound_path"), "notification_success_sound_path") +
    If(!OptionalTextOk(o, "notification_failure_sound_path"), "notification_failure_sound_path") +
    If(IntAt(o, "volume_bell").None?, "volume_bell") +
    If(IntAt(o, "volume_notifications").None?, "volume_notifications") +
    If(IntAt(o, "volume_other").None?, "volume_other") +
    If(!OptionalTextOk(o, "wifi_password"), "wifi_password") +
    If(!OptionalTextOk(o, "mqtt_password"), "mqtt_password")
  }

  lemma WellTypedHasNoFaults(o: map<string, Json>)
    ensures TypeFaults(o) == {} <==> WellTyped(o)
  {
    hide TextAt, IntAt, FlagAt, ListAt, OptionalTextOk;
  }

  function Or(value: Option<string>, default: string): string {
    if value.Some? then value.value else default
  }

  /** The request a well-typed object asks for; missing sound paths stay as they are. */
  function Posted(o: map<string, Json>, success: string, failure: string): SaveRequest
    requires WellTyped(o)
  {
    SaveRequest(
      CoreConfig(
        wifiSsid := TextAt(o, "wifi_ssid").value,
        mqttHost := TextAt(o, "mqtt_host").value,
        mqttPort := IntAt(o, "mqtt_port").value,
        mqttClientId := TextAt(o, "mqtt_client_id").value,
        mqttUsername := TextAt(o, "mqtt_username").value,
        mqttPassword := "",
        mqttTlsEnabled := FlagAt(o, "mqtt_tls_enabled").value,
        mqttTlsValidateCertificate := FlagAt(o, "mqtt_tls_validate_certificate").value,
        mqttTlsCaFile := TextAt(o, "mqtt_tls_ca_file").value,
        mqttTlsCertFile := TextAt(o, "mqtt_tls_cert_file").value,
        mqttTlsKeyFile := TextAt(o, "mqtt_tls_key_file").value,
        mqttTopics := ListAt(o, "mqtt_topics").value,
        ringTopic := TextAt(o, "ring_topic").value,
        successSoundPath := Or(TextAt(o, "notification_success_sound_path"), success),
        failureSoundPath := Or(TextAt(o, "notification_failure_sound_path"), failure),
        volumeBell := IntAt(o, "volume_bell").value,
        volumeNotifications := IntAt(o, "volume_notifications").value,
        volumeOther := IntAt(o, "volume_other").value),
      TextAt(o, "wifi_password"),
      TextAt(o, "mqtt_password"))
  }

  datatype PostResult =
    | BadJson(error: string)
    | BadPayload
    | Rejected(errors: seq<ValidationError>)
    | SaveFailed(error: string)
    | Applied(snapshot: Snapshot)

  /** The reader calls of the POST handler, in their order. */
  method ReadRequest(o: map<string, Json>) returns (errors: seq<ValidationError>, request: SaveRequest,
                                                    success: Option<string>, failure: Option<string>)
    ensures errors == [] <==> WellTyped(o)
    ensures FieldsOf(errors) == TypeFaults(o) && MessagesFit(errors)
    ensures WellTyped(o) ==> request == Posted(o, "", "")
    ensures WellTyped(o) ==> success == TextAt(o, "notification_success_sound_path")
    ensures WellTyped(o) ==> failure == TextAt(o, "notification_failure_sound_path")
  {
    hide TextAt, IntAt, FlagAt, ListAt, OptionalTextOk, FieldsOf, MessagesFit, If;
    NothingReported();
    errors := [];
    var ssid, host, port, clientId, username, tlsEnabled, tlsValidate;
    ssid, errors := ReadRequiredString(o, "wifi_ssid", errors);
    host, errors := ReadRequiredString(o, "mqtt_host", errors);
    port, errors := ReadRequiredInt(o, "mqtt_port", errors);
    clientId, errors := ReadRequiredString(o, "mqtt_client_id", errors);
    username, errors := ReadRequiredString(o, "mqtt_username", errors);
    tlsEnabled, errors := ReadRequiredBool(o, "mqtt_tls_enabled", errors);
    tlsValidate, errors := ReadRequiredBool(o, "mqtt_tls_validate_certificate", errors);
    var caFile, certFile, keyFile, topics, ringTopic;
    caFile, errors := ReadRequiredString(o, "mqtt_tls_ca_file", errors);
    certFile, errors := ReadRequiredString(o, "mqtt_tls_cert_file", errors);
    keyFile, errors := ReadRequiredString(o, "mqtt_tls_key_file", errors);
    topics, errors := ReadRequiredStringArray(o, "mqtt_topics", errors);
    ringTopic, errors := ReadRequiredString(o, "ring_topic", errors);
    success, errors := ReadOptionalString(o, "notification_success_sound_path", errors);
    failure, errors := ReadOptionalString(o, "notification_failure_sound_path", errors);
    var bell, notifications, other, wifiPassword, mqttPassword;
    bell, errors := ReadRequiredInt(o, "volume_bell", errors);
    notifications, errors := ReadRequiredInt(o, "volume_notifications", errors);
    other, errors := ReadRequiredInt(o, "volume_other", errors);
    wifiPassword, errors := ReadOptionalString(o, "wifi_password", errors);
    mqttPassword, errors := ReadOptionalString(o, "mqtt_password", errors);
    NoFieldsNoErrors(errors);
    WellTypedHasNoFaults(o);
    assert errors == [] <==> WellTyped(o);
    if errors != [] {
      request := SaveRequest(CoreConfig("", "", 0, "", "", "", false, false, "", "", "", [], "", "", "", 0, 0, 0),
          None, None);
      return;
    }
    var config := CoreConfig(
      ssid.value, host.value, port.value, clientId.value, username.value, "", tlsEnabled.value, tlsValidate.value,
      caFile.value, certFile.value, keyFile.value, topics.value, ringTopic.value,
      Or(success, ""), Or(failure, ""), bell.value, notifications.value, other.value);
    request := SaveRequest(config, wifiPassword, mqttPassword);
  }

  function ResultOf(o: Outcome): PostResult {
    match o
    case Success(s) => Applied(s)
    case Invalid(errors) => Rejected(errors)
    case Failed(e) => SaveFailed(e)
  }

  /** What a POST may do to the files: nothing, unless its body is a well-typed object, and then what a save does. */
  ghost predicate PostEffect(chime: Option<string>, wpa: Option<string>, body: string,
                             chime': Option<string>, wpa': Option<string>, r: PostResult) {
    match ParseJson(body)
    case Failure(e) => r == BadJson(e) && chime' == chime && wpa' == wpa
    case Success(v) =>
      if !v.Object? then r == BadPayload && chime' == chime && wpa' == wpa
      else if !WellTyped(v.fields) then
        r.Rejected? && r.errors != [] && FieldsOf(r.errors) == TypeFaults(v.fields) && chime' == chime && wpa' == wpa
      else if r.SaveFailed? && chime' == chime && wpa' == wpa then true
      else
        exists o: Outcome, request: SaveRequest ::
          && SaveEffect(chime, wpa, request, chime', wpa', o)
          && Requests(v.fields, chime, wpa, request)
          && r == ResultOf(o)
  }

  /** The request of the object, with sound paths that it leaves out taken from the loaded configuration. */
  ghost predicate Requests(o: map<string, Json>, chime: Option<string>, wpa: Option<string>, request: SaveRequest)
    requires WellTyped(o)
  {
    if TextAt(o, "notification_success_sound_path").Some? && TextAt(o, "notification_failure_sound_path").Some?
    then request == Posted(o, "", "")
    else
      && chime.Some?
      && var existing := SnapshotOf(Lines(chime.value), WpaLines(wpa)).config;
         request == Posted(o, existing.successSoundPath, existing.failureSoundPath)
  }

  method HandlePostCoreConfig(store: ConfigStore, body: string) returns (r: PostResult)
    modifies store
    ensures PostEffect(old(store.chime), old(store.wpa), body, store.chime, store.wpa, r)
  {
    hide ParseJson, WellTyped, SaveEffect, SnapshotOf, TextAt, FieldsOf, TypeFaults, MessagesFit;
    var parsed := JsonParser.ParseText(body);
    if parsed.Failure? {
      return BadJson(parsed.error);
    }
    if !parsed.value.Object? {
      return BadPayload;
    }
    var o := parsed.value.fields;
    var errors, request, success, failure := ReadRequest(o);
    if errors != [] {
      return Rejected(errors);
    }
    if success.None? || failure.None? {
      var loaded := store.LoadCoreConfig();
      if loaded.Err? {
        return SaveFailed(loaded.error);
      }
      var existing := loaded.value.config;
      request := request.(config := request.config.(
        successSoundPath := if success.Some? then success.value else existing.successSoundPath,
        failureSoundPath := if failure.Some? then failure.value else existing.failureSoundPath));
    }
    assert Requests(o, store.chime, store.wpa, request);
    ghost var chime, wpa := store.chime, store.wpa;
    var saved := store.SaveCoreConfig(request);
    match saved {
      case Invalid(e) => r := Rejected(e);
      case Failed(e) => r := SaveFailed(e);
      case Success(s) => r := Applied(s);
    }
    assert SaveEffect(chime, wpa, request, store.chime, store.wpa, saved);
  }

  // -------------------------------------------------- the responses of a POST

  function ErrorFields(e: ValidationError): seq<Field> {
    [TextField("field", e.field), TextField("message", e.message)]
  }

  ghost function ErrorEntry(e: ValidationError): Entry {
    Entry(ObjectText(ErrorFields(e)), JsonGrammar.ObjectTree("", MembersOf(ErrorFields(e))), ErrorValue(e))
  }

  ghost function ErrorEntries(errors: seq<ValidationError>): (r: seq<Entry>)
    ensures |r| == |errors| && forall i | 0 <= i < |r| :: r[i] == ErrorEntry(errors[i])
  {
    seq(|errors|, i requires 0 <= i < |errors| => ErrorEntry(errors[i]))
  }

  /** What a client reads from one printed error. */
  function ErrorValue(e: ValidationError): Json {
    Object(map["field" := String(Sanitized(e.field)), "message" := String(Sanitized(e.message))])
  }

  function ErrorValues(errors: seq<ValidationError>): (r: seq<Json>)
    ensures |r| == |errors| && forall i | 0 <= i < |r| :: r[i] == ErrorValue(errors[i])
  {
    seq(|errors|, i requires 0 <= i < |errors| => ErrorValue(errors[i]))
  }

  ghost function ErrorsField(key: string, errors: seq<ValidationError>): Field {
    Field(key, ListText(EntryTexts(ErrorEntries(errors))), ListTree(ErrorEntries(errors)), Array(ErrorValues(errors)))
  }

  method SerializeError(e: ValidationError) returns (text: string)
    ensures text == ObjectText(ErrorFields(e))
  {
    hide EscapedText, JoinCsv, EscapesOf, Sanitized;
    var field := Quote(e.field);
    var message := Quote(e.message);
    text := AppendMembers([Pair("field", field), Pair("message", message)]);
    assert PairsOf(ErrorFields(e)) == [Pair("field", field), Pair("message", message)];
    PairTextsAreFieldTexts(ErrorFields(e));
  }

  method SerializeValidationErrors(errors: seq<ValidationError>) returns (body: string)
    ensures body == ListText(EntryTexts(ErrorEntries(errors)))
  {
    hide ErrorFields, MembersOf, ErrorValue, ObjectText;
    ghost var texts := EntryTexts(ErrorEntries(errors));
    body := "[";
    for i := 0 to |errors|
      invariant body == "[" + JoinCsv(texts[..i])
    {
      assert texts[..i + 1][..i] == texts[..i];
      if i > 0 {
        body := body + ",";
      }
      var error := SerializeError(errors[i]);
      body := body + error;
    }
    assert texts[..|errors|] == texts;
    body := body + "]";
  }

  /** The members of each response. */
  ghost function PostFields(r: PostResult, a: ApplyStatus): seq<Field> {
    match r
    case BadJson(error) => [TextField("error", "invalid_json"), TextField("message", error)]
    case BadPayload => [TextField("error", "invalid_payload"), TextField("message", "payload must be an object")]
    case Rejected(errors) => [TextField("error", "validation_failed"), ErrorsField("validation_errors", errors)]
    case SaveFailed(error) => [TextField("error", "save_failed"), TextField("message", error)]
    case Applied(s) => AnswerFields(s, a)
  }

  function PostStatus(r: PostResult): int {
    match r
    case Applied(_) => 200
    case SaveFailed(_) => 500
    case _ => 400
  }

  /** What a client reads from each response. */
  ghost function PostValue(r: PostResult, a: ApplyStatus): Json {
    match r
    case BadJson(error) => Refusal("invalid_json", error)
    case BadPayload => Refusal("invalid_payload", "payload must be an object")
    case Rejected(errors) =>
      Object(map["error" := String("validation_failed"), "validation_errors" := Array(ErrorValues(errors))])
    case SaveFailed(error) => Refusal("save_failed", error)
    case Applied(s) => Object(AnswerObject(s, a))
  }

  function Refusal(error: string, message: string): Json {
    Object(map["error" := String(error), "message" := String(Sanitized(message))])
  }

  method SerializeRefusal(error: string, message: string) returns (body: string)
    ensures body == ObjectText([TextField("error", error), TextField("message", message)])
  {
    hide EscapedText, JoinCsv, EscapesOf, Sanitized;
    var code := Quote(error);
    var text := Quote(message);
    body := AppendMembers([Pair("error", code), Pair("message", text)]);
    ghost var fields := [TextField("error", error), TextField("message", message)];
    assert PairsOf(fields) == [Pair("error", code), Pair("message", text)];
    PairTextsAreFieldTexts(fields);
  }

  method RespondToPost(r: PostResult, a: ApplyStatus) returns (response: Response)
    ensures response == Response(PostStatus(r), ObjectText(PostFields(r, a)))
  {
    hide TextField, AnswerFields, ObjectText, ErrorEntries;
    var body;
    match r {
      case BadJson(error) => body := SerializeRefusal("invalid_json", error);
      case BadPayload => body := SerializeRefusal("invalid_payload", "payload must be an object");
      case Rejected(errors) => body := SerializeRejection(errors);
      case SaveFailed(error) => body := SerializeRefusal("save_failed", error);
      case Applied(s) => body := SerializeSnapshot(s, a);
    }
    return Response(PostStatus(r), body);
  }

  method SerializeRejection(errors: seq<ValidationError>) returns (body: string)
    ensures body == ObjectText([TextField("error", "validation_failed"), ErrorsField("validation_errors", errors)])
  {
    hide EscapedText, JoinCsv, EscapesOf, Sanitized, ErrorEntries, ListTree, ListText;
    var code := Quote("validation_failed");
    var list := SerializeValidationErrors(errors);
    body := AppendMembers([Pair("error", code), Pair("validation_errors", list)]);
    ghost var fields := [TextField("error", "validation_failed"), ErrorsField("validation_errors", errors)];
    assert PairsOf(fields) == [Pair("error", code), Pair("validation_errors", list)];
    PairTextsAreFieldTexts(fields);
  }

  lemma SafeTextStays(s: string)
    requires SafeKey(s)
    ensures Sanitized(s) == s
  {
  }

  lemma ResponseKeysAreSafe()
    ensures SafeKey("error") && SafeKey("message") && SafeKey("field") && SafeKey("validation_errors")
    ensures |"error"| == 5 && |"message"| == 7 && |"field"| == 5 && |"validation_errors"| == 17 && "error" != "field"
  {
    assert "error"[0] == 'e' && "field"[0] == 'f';
  }

  lemma ErrorCodesAreSafe()
    ensures SafeKey("invalid_json") && SafeKey("invalid_payload") && SafeKey("validation_failed") &&
            SafeKey("save_failed")
  {
  }

  lemma TwoMembersArePrinted(a: Field, b: Field)
    requires FieldOk(a) && FieldOk(b) && a.key != b.key
    ensures var fields := [a, b];
            Printed(ObjectText(fields), JsonGrammar.ObjectTree("", MembersOf(fields)),
                    Object(map[a.key := a.value, b.key := b.value]))
  {
    hide FieldOk, ObjectText, MembersOf, Printed;
    var fields := [a, b];
    ObjectIsPrinted(fields);
    assert fields[1..] == [b] && [b][1..] == [];
    assert Built([b], map[a.key := a.value]) == map[a.key := a.value][b.key := b.value];
    assert Built(fields, map[]) == map[a.key := a.value, b.key := b.value];
  }

  lemma ErrorIsPrinted(e: ValidationError)
    ensures EntryOk(ErrorEntry(e))
  {
    hide FieldOk, Printed, SafeKey, Sanitized, ObjectText, MembersOf, JsonString, EscapesOf;
    ResponseKeysAreSafe();
    TextFieldOk("field", e.field);
    TextFieldOk("message", e.message);
    TwoMembersArePrinted(TextField("field", e.field), TextField("message", e.message));
  }

  lemma ErrorsArePrinted(key: string, errors: seq<ValidationError>)
    requires SafeKey(key)
    ensures FieldOk(ErrorsField(key, errors))
  {
    hide SafeKey, ErrorEntry, EntryOk, ErrorValue, ListText, ListTree, Printed;
    var entries := ErrorEntries(errors);
    forall i | 0 <= i < |entries| ensures EntryOk(entries[i]) && entries[i].value == ErrorValue(errors[i]) {
      ErrorIsPrinted(errors[i]);
      ValueOfError(errors[i]);
    }
    ListIsPrinted(entries);
    assert EntryValues(entries) == ErrorValues(errors);
  }

  lemma ValueOfError(e: ValidationError)
    ensures ErrorEntry(e).value == ErrorValue(e)
  {
  }

  lemma RefusalIsPrinted(error: string, message: string)
    requires SafeKey(error)
    ensures var fields := [TextField("error", error), TextField("message", message)];
            Printed(ObjectText(fields), JsonGrammar.ObjectTree("", MembersOf(fields)), Refusal(error, message))
  {
    hide FieldOk, Printed, SafeKey, Sanitized, ObjectText, MembersOf, JsonString, EscapesOf;
    ResponseKeysAreSafe();
    TextFieldOk("error", error);
    TextFieldOk("message", message);
    SafeTextStays(error);
    TwoMembersArePrinted(TextField("error", error), TextField("message", message));
  }

  lemma RejectionIsPrinted(errors: seq<ValidationError>)
    ensures var fields := [TextField("error", "validation_failed"), ErrorsField("validation_errors", errors)];
            Printed(ObjectText(fields), JsonGrammar.ObjectTree("", MembersOf(fields)),
                    PostValue(Rejected(errors), ApplyStatus(0, "", "", "", "")))
  {
    hide FieldOk, Printed, SafeKey, Sanitized, ObjectText, MembersOf, JsonString, EscapesOf, ListText, ListTree,
         ErrorEntries, ErrorValues;
    ResponseKeysAreSafe();
    ErrorCodesAreSafe();
    TextFieldOk("error", "validation_failed");
    ErrorsArePrinted("validation_errors", errors);
    SafeTextStays("validation_failed");
    TwoMembersArePrinted(TextField("error", "validation_failed"), ErrorsField("validation_errors", errors));
  }

  /** Every response of a POST is JSON that a client reads as the result, each error with field and message. */
  lemma PostResponseParses(r: PostResult, a: ApplyStatus)
    requires r.Applied? ==> PrintableNumbers(r.snapshot, a)
    ensures ParseJson(ObjectText(PostFields(r, a))) == ParseResult.Success(PostValue(r, a))
  {
    hide ParseJson, AnswerFields, AnswerObject, ObjectText, MembersOf, Printed, TextField, ErrorsField, Refusal,
         PrintableNumbers, SafeKey;
    ErrorCodesAreSafe();
    var fields := PostFields(r, a);
    match r {
      case BadJson(error) => RefusalIsPrinted("invalid_json", error);
      case BadPayload => RefusalIsPrinted("invalid_payload", "payload must be an object");
      case Rejected(errors) => RejectionIsPrinted(errors);
      case SaveFailed(error) => RefusalIsPrinted("save_failed", error);
      case Applied(s) => AnswerParses(s, a);
    }
    if !r.Applied? {
      PrintedParses(ObjectText(fields), JsonGrammar.ObjectTree("", MembersOf(fields)), PostValue(r, a));
    }
  }

  // ---------------------------------------------------------- GET, then POST

  /** What survives printing: control characters without an escape become '?'. */
  function SanitizedConfig(c: CoreConfig): CoreConfig {
    c.(wifiSsid := Sanitized(c.wifiSsid),
       mqttHost := Sanitized(c.mqttHost),
       mqttClientId := Sanitized(c.mqttClientId),
       mqttUsername := Sanitized(c.mqttUsername),
       mqttTlsCaFile := Sanitized(c.mqttTlsCaFile),
       mqttTlsCertFile := Sanitized(c.mqttTlsCertFile),
       mqttTlsKeyFile := Sanitized(c.mqttTlsKeyFile),
       mqttTopics := SanitizedAll(c.mqttTopics),
       ringTopic := Sanitized(c.ringTopic),
       successSoundPath := Sanitized(c.successSoundPath),
       failureSoundPath := Sanitized(c.failureSoundPath))
  }

  /** The request that posting back an answer makes: the same configuration, no passwords. */
  function Repost(c: CoreConfig): SaveRequest {
    SaveRequest(SanitizedConfig(c).(mqttPassword := ""), None, None)
  }

  lemma PasswordKeys()
    ensures KeyNumber("wifi_password") == 20 && KeyNumber("mqtt_password") == 21
  {
  }

  lemma TextIsRead(o: map<string, Json>, key: string, s: string)
    requires key in o && o[key] == String(Sanitized(s))
    ensures TextAt(o, key) == Some(Sanitized(s)) && OptionalTextOk(o, key)
  {
  }

  lemma NumberIsRead(o: map<string, Json>, key: string, n: int)
    requires key in o && o[key] == Number(n as real) && INT_MIN <= n <= INT_MAX
    ensures IntAt(o, key) == Some(n)
  {
  }

  lemma TopicsAreRead(o: map<string, Json>, key: string, topics: seq<string>)
    requires key in o && o[key] == Array(Strings(SanitizedAll(topics)))
    ensures ListAt(o, key) == Some(SanitizedAll(topics))
  {
    hide SanitizedAll;
    assert Texts(o[key].items) == SanitizedAll(topics);
  }

  ghost predicate IntRange(c: CoreConfig) {
    && INT_MIN <= c.mqttPort <= INT_MAX && INT_MIN <= c.volumeBell <= INT_MAX
    && INT_MIN <= c.volumeNotifications <= INT_MAX && INT_MIN <= c.volumeOther <= INT_MAX
  }

  lemma BrokerIsRead(s: Snapshot, a: ApplyStatus)
    requires IntRange(s.config)
    ensures var o, c := AnswerObject(s, a), s.config;
            && TextAt(o, "wifi_ssid") == Some(Sanitized(c.wifiSsid))
            && TextAt(o, "mqtt_host") == Some(Sanitized(c.mqttHost))
            && IntAt(o, "mqtt_port") == Some(c.mqttPort)
            && TextAt(o, "mqtt_client_id") == Some(Sanitized(c.mqttClientId))
            && TextAt(o, "mqtt_username") == Some(Sanitized(c.mqttUsername))
  {
    hide AnswerObject, TextAt, IntAt, KeyNumber, Sanitized, ApplyField, TopicsField, FlagField,
         JsonString, JsonNumber, EscapesOf, NumeralOf;
    var o, c := AnswerObject(s, a), s.config;
    AnswerMembers(s, a);
    TextIsRead(o, ANSWER_KEYS[0], c.wifiSsid);
    TextIsRead(o, ANSWER_KEYS[2], c.mqttHost);
    NumberIsRead(o, ANSWER_KEYS[3], c.mqttPort);
    TextIsRead(o, ANSWER_KEYS[4], c.mqttClientId);
    TextIsRead(o, ANSWER_KEYS[5], c.mqttUsername);
  }

  lemma TlsIsRead(s: Snapshot, a: ApplyStatus)
    ensures var o, c := AnswerObject(s, a), s.config;
            && FlagAt(o, "mqtt_tls_enabled") == Some(c.mqttTlsEnabled)
            && FlagAt(o, "mqtt_tls_validate_certificate") == Some(c.mqttTlsValidateCertificate)
            && TextAt(o, "mqtt_tls_ca_file") == Some(Sanitized(c.mqttTlsCaFile))
            && TextAt(o, "mqtt_tls_cert_file") == Some(Sanitized(c.mqttTlsCertFile))
            && TextAt(o, "mqtt_tls_key_file") == Some(Sanitized(c.mqttTlsKeyFile))
  {
    hide AnswerObject, TextAt, KeyNumber, Sanitized, ApplyField, TopicsField, NumberField, JsonString, JsonBool,
         EscapesOf;
    var o, c := AnswerObject(s, a), s.config;
    AnswerMembers(s, a);
    assert FlagAt(o, ANSWER_KEYS[7]) == Some(c.mqttTlsEnabled);
    assert FlagAt(o, ANSWER_KEYS[8]) == Some(c.mqttTlsValidateCertificate);
    TextIsRead(o, ANSWER_KEYS[9], c.mqttTlsCaFile);
    TextIsRead(o, ANSWER_KEYS[10], c.mqttTlsCertFile);
    TextIsRead(o, ANSWER_KEYS[11], c.mqttTlsKeyFile);
  }

  lemma SoundsAreRead(s: Snapshot, a: ApplyStatus)
    requires IntRange(s.config)
    ensures var o, c := AnswerObject(s, a), s.config;
            && ListAt(o, "mqtt_topics") == Some(SanitizedAll(c.mqttTopics))
            && TextAt(o, "ring_topic") == Some(Sanitized(c.ringTopic))
            && TextAt(o, "notification_success_sound_path") == Some(Sanitized(c.successSoundPath))
            && TextAt(o, "notification_failure_sound_path") == Some(Sanitized(c.failureSoundPath))
            && OptionalTextOk(o, "notification_success_sound_path")
            && OptionalTextOk(o, "notification_failure_sound_path")
            && IntAt(o, "volume_bell") == Some(c.volumeBell)
            && IntAt(o, "volume_notifications") == Some(c.volumeNotifications)
            && IntAt(o, "volume_other") == Some(c.volumeOther)
  {
    hide AnswerObject, TextAt, IntAt, ListAt, KeyNumber, Sanitized, SanitizedAll, ApplyField, FlagField, OptionalTextOk,
         JsonString, JsonNumber, EscapesOf, NumeralOf, ListTree, Quoted, Strings;
    var o, c := AnswerObject(s, a), s.config;
    AnswerMembers(s, a);
    TopicsAreRead(o, ANSWER_KEYS[12], c.mqttTopics);
    TextIsRead(o, ANSWER_KEYS[13], c.ringTopic);
    TextIsRead(o, ANSWER_KEYS[14], c.successSoundPath);
    TextIsRead(o, ANSWER_KEYS[15], c.failureSoundPath);
    NumberIsRead(o, ANSWER_KEYS[16], c.volumeBell);
    NumberIsRead(o, ANSWER_KEYS[17], c.volumeNotifications);
    NumberIsRead(o, ANSWER_KEYS[18], c.volumeOther);
  }

  /** The POST readers rebuild the printed configuration from the answer's object. */
  lemma AnswerIsRead(s: Snapshot, a: ApplyStatus, success: string, failure: string)
    requires IntRange(s.config)
    ensures WellTyped(AnswerObject(s, a)) && Posted(AnswerObject(s, a), success, failure) == Repost(s.config)
  {
    hide AnswerObject, TextAt, IntAt, ListAt, FlagAt, OptionalTextOk, KeyNumber, Sanitized, SanitizedAll;
    AnswerMembers(s, a);
    PasswordKeys();
    AbsentKeys(AnswerObject(s, a));
    BrokerIsRead(s, a);
    TlsIsRead(s, a);
    SoundsAreRead(s, a);
  }

  lemma AbsentKeys(o: map<string, Json>)
    requires "wifi_password" !in o && "mqtt_password" !in o
    ensures TextAt(o, "wifi_password") == None && TextAt(o, "mqtt_password") == None
    ensures OptionalTextOk(o, "wifi_password") && OptionalTextOk(o, "mqtt_password")
  {
  }

  lemma SanitizedPlain(s: string)
    ensures LfFree(s) ==> LfFree(Sanitized(s))
    ensures PlainText(s) ==> PlainText(Sanitized(s))
    ensures PlainItem(s) ==> PlainItem(Sanitized(s))
    ensures s == "" <==> Sanitized(s) == ""
  {
    var t := Sanitized(s);
    assert forall i | 0 <= i < |s| ::
        (IsBlank(t[i]) <==> IsBlank(s[i])) && (t[i] == '\n' <==> s[i] == '\n') && (t[i] == ',' <==> s[i] == ',');
  }

  /** A loaded configuration can be stored again after printing and parsing. */
  lemma SanitizedIsStorable(c: CoreConfig, password: string)
    requires Storable(c) && InRange(c) && PlainText(password)
    ensures Storable(SanitizedConfig(c).(mqttPassword := password)) &&
            InRange(SanitizedConfig(c).(mqttPassword := password))
  {
    hide Sanitized, PlainText, PlainItem;
    SanitizedPlain(c.mqttHost);
    SanitizedPlain(c.mqttClientId);
    SanitizedPlain(c.mqttUsername);
    SanitizedPlain(c.mqttTlsCaFile);
    SanitizedPlain(c.mqttTlsCertFile);
    SanitizedPlain(c.mqttTlsKeyFile);
    SanitizedPlain(c.ringTopic);
    SanitizedPlain(c.successSoundPath);
    SanitizedPlain(c.failureSoundPath);
    forall i | 0 <= i < |c.mqttTopics|
      ensures PlainItem(SanitizedAll(c.mqttTopics)[i]) && LfFree(SanitizedAll(c.mqttTopics)[i])
    {
      SanitizedPlain(c.mqttTopics[i]);
    }
  }

  /** The answer shows the configuration as it is: no string has a control character that printing replaces. */
  ghost predicate ShownAsIs(c: CoreConfig) {
    SanitizedConfig(c) == c
  }

  /** A password is only kept together with a user name. */
  ghost predicate PasswordHasUser(c: CoreConfig) {
    c.mqttUsername == "" ==> c.mqttPassword == ""
  }

  lemma RepostedConfig(c: CoreConfig)
    ensures FullConfig(Repost(c), c) == c <==> ShownAsIs(c) && PasswordHasUser(c)
  {
    hide Sanitized, SanitizedAll;
    SanitizedPlain(c.mqttUsername);
  }

  /**
    Posting back what a GET returned: if the request is valid and a passphrase is stored, then saving it
    keeps that passphrase, and the configuration found afterwards is the one before - passwords
    included - if and only if every string is shown as it is and no password is stored without a user.
   */
  lemma RepostIsNoOp(chime: string, wpa: Option<string>)
    requires ValidRequest(Repost(SnapshotOf(Lines(chime), WpaLines(wpa)).config)) && StoredPsk(wpa) != ""
    ensures var before := SnapshotOf(Lines(chime), WpaLines(wpa));
            var full := FullConfig(Repost(before.config), before.config);
            var newWpa := NewWpa(wpa, full.wifiSsid, StoredPsk(wpa));
            && Wpa.ChosenPsk(None, StoredPsk(wpa)) == Ok(StoredPsk(wpa))
            && Wpa.Parsed(Lines(newWpa)).psk == StoredPsk(wpa)
            && (SnapshotOf(Lines(NewChime(chime, full)), Lines(newWpa)) == before
                <==> ShownAsIs(before.config) && PasswordHasUser(before.config))
  {
    hide ValidRequest, RawOf, Wpa.Parsed, Sanitized, SanitizedAll, ConfigFrom, Lines, NewChime, NewWpa, Storable,
         InRange, ShownAsIs, PasswordHasUser, WpaLines, Wpa.Base, SanitizedConfig;
    var before := SnapshotOf(Lines(chime), WpaLines(wpa));
    var c := before.config;
    var full := FullConfig(Repost(c), c);
    var psk := StoredPsk(wpa);
    LoadedIsStorable(Lines(chime), Wpa.Parsed(WpaLines(wpa)).ssid);
    LoadedSsidLfFree(wpa, chime);
    ResolvedIsPlain(Repost(c), c);
    SanitizedIsStorable(c, ResolvedPassword(Repost(c), c));
    SaveReloadsExactly(chime, wpa, full, psk);
    RepostedConfig(c);
    StoredPskIsLoaded(wpa);
  }

  lemma LoadedSsidLfFree(wpa: Option<string>, chime: string)
    ensures LfFree(SanitizedConfig(SnapshotOf(Lines(chime), WpaLines(wpa)).config).wifiSsid)
    ensures LfFree(StoredPsk(wpa))
  {
    hide RawOf, Wpa.Parsed, Lines, ConfigFrom;
    Wpa.ParsedLfFree(WpaLines(wpa));
    BaseIsLfFree(wpa);
    Wpa.ParsedLfFree(Wpa.Base(WpaLines(wpa)));
    SsidOfConfig(RawOf(Lines(chime)), Wpa.Parsed(WpaLines(wpa)).ssid);
    SanitizedPlain(Wpa.Parsed(WpaLines(wpa)).ssid);
  }

  lemma SsidOfConfig(raw: Raw, ssid: string)
    ensures ConfigFrom(raw, ssid).wifiSsid == ssid
  {
    hide WebInt, WebBool, OrDefault, SplitCsv;
  }

  lemma ResolvedIsPlain(r: SaveRequest, existing: CoreConfig)
    requires Storable(existing) && r.mqttPassword.None?
    ensures PlainText(ResolvedPassword(r, existing))
  {
  }

  /** A configuration with a stored password and this user name; everything else is plain. */
  function Sample(username: string): CoreConfig {
    CoreConfig("home", "broker", 1883, "chime", username, "secret", false, true, "", "", "", ["bell"], "ring",
               "ok.wav", "no.wav", 80, 70, 70)
  }

  lemma VisibleStays(s: string)
    requires forall i | 0 <= i < |s| :: s[i] >= ' '
    ensures Sanitized(s) == s
  {
  }

  lemma SampleIsReposted(username: string)
    ensures Repost(Sample(username)) == SaveRequest(Sample(Sanitized(username)).(mqttPassword := ""), None, None)
  {
    hide Sanitized;
    VisibleStays("home");
    VisibleStays("broker");
    VisibleStays("chime");
    VisibleStays("");
    VisibleStays("bell");
    VisibleStays("ring");
    VisibleStays("ok.wav");
    VisibleStays("no.wav");
    assert SanitizedAll(["bell"]) == ["bell"];
  }

  lemma SampleIsStorable(username: string)
    requires PlainText(username)
    ensures Storable(Sample(username)) && InRange(Sample(username))
  {
    assert PlainItem("bell") && LfFree("bell");
  }

  lemma SampleIsValid(username: string)
    requires |username| <= 128
    ensures ValidRequest(SaveRequest(Sample(username).(mqttPassword := ""), None, None))
  {
    TrimFixed("ok.wav");
    TrimFixed("no.wav");
  }

  const SAMPLE_PSK: string := "12345678"

  /** The two files in which a save leaves a storable sample. */
  lemma SampleFiles(username: string) returns (chime: string, wpa: string)
    requires PlainText(username)
    ensures SnapshotOf(Lines(chime), WpaLines(Some(wpa))).config == Sample(username)
    ensures StoredPsk(Some(wpa)) == SAMPLE_PSK
  {
    hide SnapshotOf, Storable, InRange, NewChime, NewWpa, StoredPsk, Sample, Wpa.Parsed, Lines;
    var c := Sample(username);
    SampleIsStorable(username);
    chime, wpa := NewChime("", c), NewWpa(None, c.wifiSsid, SAMPLE_PSK);
    assert LfFree(c.wifiSsid) by { SampleSsid(username); }
    SaveReloadsExactly("", None, c, SAMPLE_PSK);
    StoredPskIsLoaded(Some(wpa));
  }

  lemma SampleSsid(username: string)
    ensures Sample(username).wifiSsid == "home" && LfFree("home")
  {
  }

  /**
    Both failing sides of the condition are reachable by valid requests: a stored password without a user
    name is cleared, and a user name with a control character comes back changed, without its password.
   */
  lemma RepostCanChange(username: string) returns (chime: string, wpa: string)
    requires username == "" || username == "a\U{01}b"
    ensures var before := SnapshotOf(Lines(chime), WpaLines(Some(wpa)));
            var full := FullConfig(Repost(before.config), before.config);
            && ValidRequest(Repost(before.config)) && StoredPsk(Some(wpa)) != ""
            && before.config == Sample(username)
            && full == Sample(if username == "" then "" else "a?b").(mqttPassword := "")
            && SnapshotOf(Lines(NewChime(chime, full)),
                Lines(NewWpa(Some(wpa), full.wifiSsid, StoredPsk(Some(wpa))))) != before
  {
    hide SnapshotOf, Storable, InRange, NewChime, NewWpa, StoredPsk, ValidRequest, Wpa.Parsed, Lines, Repost,
         SanitizedConfig;
    assert Sanitized(username) == if username == "" then "" else "a?b";
    chime, wpa := SampleFiles(username);
    SampleIsReposted(username);
    SampleIsValid(Sanitized(username));
    RepostIsNoOp(chime, Some(wpa));
    RepostedConfig(Sample(username));
    assert SAMPLE_PSK != "";
  }

  /** The state and the answer of a session that GETs the configuration and POSTs the answer back. */
  method GetThenPost(store: ConfigStore, a: ApplyStatus) returns (shown: Response, r: PostResult)
    requires SmallNumber(a.jobId)
    modifies store
    ensures shown.status == 200 ||
            (shown.status == 500 && store.chime == old(store.chime) && store.wpa == old(store.wpa))
    ensures shown.status == 200 ==> old(store.chime).Some?
    ensures shown.status == 200 ==>
              var before := SnapshotOf(Lines(old(store.chime).value), WpaLines(old(store.wpa)));
              var request := Repost(before.config);
              && (!ValidRequest(request) || StoredPsk(old(store.wpa)) == "" ==>
                    !r.Applied? && store.chime == old(store.chime) && store.wpa == old(store.wpa))
              && (r.Applied? ==>
                    && store.chime.Some?
                    && r.snapshot == SnapshotOf(Lines(store.chime.value), WpaLines(store.wpa))
                    && Wpa.Parsed(WpaLines(store.wpa)).psk == StoredPsk(old(store.wpa))
                    && (r.snapshot == before <==> ShownAsIs(before.config) && PasswordHasUser(before.config)))
  {
    hide SnapshotOf, AnswerBody, ParseJson, ValidRequest, StoredPsk, ShownAsIs, PasswordHasUser, Repost, SaveEffect,
         Posted, WellTyped, TextAt;
    shown := HandleGetCoreConfig(store, a);
    r := BadPayload;
    if shown.status != 200 {
      return;
    }
    ghost var chime, wpa := store.chime, store.wpa;
    ghost var before := SnapshotOf(Lines(chime.value), WpaLines(wpa));
    AnswerIsPosted(chime.value, wpa, a);
    r := HandlePostCoreConfig(store, shown.body);
    PostedAnswer(chime.value, wpa, a, store.chime, store.wpa, r);
  }

  lemma AnswerIsPosted(chime: string, wpa: Option<string>, a: ApplyStatus)
    requires SmallNumber(a.jobId)
    ensures var before := SnapshotOf(Lines(chime), WpaLines(wpa));
            && ParseJson(AnswerBody(before, a)) == ParseResult.Success(Object(AnswerObject(before, a)))
            && WellTyped(AnswerObject(before, a))
            && forall success, failure :: Posted(AnswerObject(before, a), success, failure) == Repost(before.config)
  {
    hide ParseJson, AnswerBody, WellTyped, Posted, AnswerObject, RawOf, ConfigFrom, Lines, WpaLines, Wpa.Parsed;
    var before := SnapshotOf(Lines(chime), WpaLines(wpa));
    LoadedIsStorable(Lines(chime), Wpa.Parsed(WpaLines(wpa)).ssid);
    AnswerParses(before, a);
    forall success: string, failure: string
      ensures WellTyped(AnswerObject(before, a)) &&
              Posted(AnswerObject(before, a), success, failure) == Repost(before.config)
    {
      AnswerIsRead(before, a, success, failure);
    }
    AnswerIsRead(before, a, "", "");
  }

  /** Posting back what was shown: refused or failed, it changes nothing; accepted, it keeps what it can. */
  ghost predicate PostedBack(chime: string, wpa: Option<string>, chime': Option<string>, wpa': Option<string>,
      r: PostResult) {
    var before := SnapshotOf(Lines(chime), WpaLines(wpa));
    && (!ValidRequest(Repost(before.config)) || StoredPsk(wpa) == "" ==>
          !r.Applied? && chime' == Some(chime) && wpa' == wpa)
    && (r.Applied? ==>
          && chime'.Some?
          && r.snapshot == SnapshotOf(Lines(chime'.value), WpaLines(wpa'))
          && Wpa.Parsed(WpaLines(wpa')).psk == StoredPsk(wpa)
          && (r.snapshot == before <==> ShownAsIs(before.config) && PasswordHasUser(before.config)))
  }

  lemma PostedOutcome(chime: string, wpa: Option<string>, chime': Option<string>, wpa': Option<string>, o: Outcome)
    requires SaveEffect(Some(chime), wpa, Repost(SnapshotOf(Lines(chime), WpaLines(wpa)).config), chime', wpa', o)
    ensures PostedBack(chime, wpa, chime', wpa', ResultOf(o))
  {
    hide SnapshotOf, ValidRequest, StoredPsk, ShownAsIs, PasswordHasUser, Posted, Lines, NewChime, NewWpa, Wpa.Parsed,
         FullConfig;
    var before := SnapshotOf(Lines(chime), WpaLines(wpa));
    var request := Repost(before.config);
    ChosenPskIsNotEmpty(None, StoredPsk(wpa));
    if ValidRequest(request) && StoredPsk(wpa) != "" {
      RepostIsNoOp(chime, wpa);
      SsidOfFull(request, before.config);
    }
  }

  lemma PostedAnswer(chime: string, wpa: Option<string>, a: ApplyStatus, chime': Option<string>, wpa': Option<string>,
      r: PostResult)
    requires SmallNumber(a.jobId)
    requires PostEffect(Some(chime), wpa, AnswerBody(SnapshotOf(Lines(chime), WpaLines(wpa)), a), chime', wpa', r)
    ensures PostedBack(chime, wpa, chime', wpa', r)
  {
    hide SnapshotOf, AnswerBody, ParseJson, ValidRequest, StoredPsk, ShownAsIs, PasswordHasUser, Posted, WellTyped,
         TextAt, Lines, NewChime, NewWpa, Wpa.Parsed, FullConfig, SaveEffect;
    var before := SnapshotOf(Lines(chime), WpaLines(wpa));
    var request := Repost(before.config);
    AnswerIsPosted(chime, wpa, a);
    if r.SaveFailed? && chime' == Some(chime) && wpa' == wpa {
    } else {
      var o: Outcome, request': SaveRequest :|
        && SaveEffect(Some(chime), wpa, request', chime', wpa', o)
        && Requests(AnswerObject(before, a), Some(chime), wpa, request')
        && r == ResultOf(o);
      assert request' == request;
      PostedOutcome(chime, wpa, chime', wpa', o);
    }
  }

  lemma SsidOfFull(r: SaveRequest, existing: CoreConfig)
    ensures FullConfig(r, existing).wifiSsid == r.config.wifiSsid
  {
  }
}
