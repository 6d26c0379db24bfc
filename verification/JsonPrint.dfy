/**
  webd's JSON printers, and that the parser undoes them: what they print is the text of a syntax
  tree of RFC 8259 whose value is the printed one, strings with control characters replaced.
 */
module JsonPrint {
  import opened Text
  import opened Json
  import opened JsonGrammar
  import Csv
  import JsonRfc

  // ---------------------------------------------------------------- strings

  /** How `JsonEscape` writes one character. */
  function EscapeOf(c: char): StrChar {
    if c == '"' then Escape('"')
    else if c == '\\' then Escape('\\')
    else if c == '\U{08}' then Escape('b')
    else if c == '\U{0c}' then Escape('f')
    else if c == '\n' then Escape('n')
    else if c == '\r' then Escape('r')
    else if c == '\t' then Escape('t')
    else if c < ' ' then Plain('?')
    else Plain(c)
  }

  function EscapedText(s: string): string {
    if s == "" then "" else EscapedText(s[..|s| - 1]) + CharThen(EscapeOf(s[|s| - 1]), "")
  }

  method JsonEscape(input: string) returns (out: string)
    ensures out == EscapedText(input)
  {
    out := "";
    for i := 0 to |input|
      invariant out == EscapedText(input[..i])
    {
      assert input[..i + 1][..i] == input[..i];
      var c := input[i];
      if c == '"' {
        out := out + "\\\"";
      } else if c == '\\' {
        out := out + "\\\\";
      } else if c == '\U{08}' {
        out := out + "\\b";
      } else if c == '\U{0c}' {
        out := out + "\\f";
      } else if c == '\n' {
        out := out + "\\n";
      } else if c == '\r' {
        out := out + "\\r";
      } else if c == '\t' {
        out := out + "\\t";
      } else if c < ' ' {
        out := out + "?";
      } else {
        out := out + [c];
      }
    }
    assert input[..|input|] == input;
  }

  function JsonString(s: string): string {
    "\"" + EscapedText(s) + "\""
  }

  function JsonBool(b: bool): string {
    if b then "true" else "false"
  }

  function JsonNumber(n: int): string {
    IntToString(n)
  }

  /** The character that survives: control characters without an escape of their own become '?'. */
  function SafeChar(c: char): char {
    if c < ' ' && c != '\U{08}' && c != '\U{0c}' && c != '\n' && c != '\r' && c != '\t' then '?' else c
  }

  function Sanitized(s: string): (t: string)
    ensures |t| == |s| && forall i | 0 <= i < |s| :: t[i] == SafeChar(s[i])
  {
    seq(|s|, i requires 0 <= i < |s| => SafeChar(s[i]))
  }

  function EscapesOf(s: string): (chars: seq<StrChar>)
    ensures |chars| == |s| && forall i | 0 <= i < |s| :: chars[i] == EscapeOf(s[i])
  {
    seq(|s|, i requires 0 <= i < |s| => EscapeOf(s[i]))
  }

  lemma EscapeOfIsOk(c: char)
    ensures CharOk(EscapeOf(c), Ascii) && Meaning(EscapeOf(c)) == SafeChar(c)
  {
  }

  lemma EscapesAreOk(s: string)
    ensures CharsOk(EscapesOf(s), Ascii)
  {
    hide CharOk, EscapeOf;
    forall i | 0 <= i < |s| ensures CharOk(EscapesOf(s)[i], Ascii) {
      EscapeOfIsOk(s[i]);
    }
  }

  lemma CharThenIsAppend(ch: StrChar, post: string)
    ensures CharThen(ch, post) == CharThen(ch, "") + post
  {
  }

  lemma CharsThenSnoc(chars: seq<StrChar>, ch: StrChar, post: string)
    ensures CharsThen(chars + [ch], post) == CharsThen(chars, CharThen(ch, post))
  {
    hide CharThen;
    if chars == [] {
      assert chars + [ch] == [ch];
      assert [ch][1..] == [];
    } else {
      assert (chars + [ch])[1..] == chars[1..] + [ch];
      CharsThenSnoc(chars[1..], ch, post);
    }
  }

  lemma {:induction false} EscapedTextThen(s: string, post: string)
    ensures EscapedText(s) + post == CharsThen(EscapesOf(s), post)
    decreases |s|
  {
    hide CharThen, EscapeOf;
    if s == "" {
      assert EscapedText(s) + post == post;
    } else {
      var n := |s| - 1;
      var ch := EscapeOf(s[n]);
      assert EscapesOf(s) == EscapesOf(s[..n]) + [ch];
      CharsThenSnoc(EscapesOf(s[..n]), ch, post);
      CharThenIsAppend(ch, post);
      EscapedTextThen(s[..n], CharThen(ch, post));
      assert EscapedText(s[..n]) + (CharThen(ch, "") + post) == EscapedText(s) + post;
    }
  }

  lemma {:induction false} MeaningsAt(chars: seq<StrChar>, i: nat)
    requires i < |chars|
    ensures |Meanings(chars)| == |chars| && Meanings(chars)[i] == Meaning(chars[i])
  {
    hide Meaning;
    if |chars| > 1 {
      MeaningsAt(chars[1..], if i == 0 then 0 else i - 1);
    } else {
      assert chars[1..] == [];
    }
  }

  lemma MeaningsOfEscapes(s: string)
    ensures Meanings(EscapesOf(s)) == Sanitized(s)
  {
    hide EscapeOf, Meaning, Meanings;
    var chars := EscapesOf(s);
    assert |Meanings(chars)| == |s| by {
      if s != "" {
        MeaningsAt(chars, 0);
      } else {
        assert chars == [];
        EmptyMeanings();
      }
    }
    forall i | 0 <= i < |s| ensures Meanings(chars)[i] == Sanitized(s)[i] {
      MeaningsAt(chars, i);
      EscapeOfIsOk(s[i]);
    }
  }

  lemma EmptyMeanings()
    ensures Meanings([]) == ""
  {
  }

  // ------------------------------------------------------ texts of whole values

  /** `text` is how the tree is printed, whatever follows. */
  ghost predicate Prints(text: string, t: Tree) {
    forall post: string :: TreeThen(t, post) == text + post
  }

  /** A printed tree, ready for the parser: valid, with its numbers in range. */
  ghost predicate Printed(text: string, t: Tree, v: Json) {
    Prints(text, t) && TreeOk(t, Ascii) && NumbersFit(t) && ValueOf(t) == v
  }

  /** What is printed is parsed back; and if it is UTF-8, it is a text of the RFC with the same value. */
  lemma PrintedParses(text: string, t: Tree, v: Json)
    requires Printed(text, t, v)
    ensures ParseJson(text) == Success(v) && (JsonRfc.RfcDenotes(text, v) <==> JsonRfc.IsUtf8(text))
  {
    hide ParseJson, TreeThen, TreeOk, NumbersFit, ValueOf, JsonRfc.RfcDenotes, JsonRfc.IsUtf8;
    assert TreeThen(t, "") == text + "" == text;
    assert DocumentText("", t, "") == text;
    JsonRfc.AsciiTreeDenotes(t);
  }

  lemma StringIsPrinted(s: string)
    ensures Printed(JsonString(s), StringTree(EscapesOf(s)), String(Sanitized(s)))
  {
    hide Meanings, CharsThen, EscapeOf, CharOk;
    EscapesAreOk(s);
    MeaningsOfEscapes(s);
    forall post: string ensures TreeThen(StringTree(EscapesOf(s)), post) == JsonString(s) + post {
      EscapedTextThen(s, "\"" + post);
      assert "\"" + (EscapedText(s) + ("\"" + post)) == JsonString(s) + post;
    }
  }

  lemma BoolIsPrinted(b: bool)
    ensures Printed(JsonBool(b), if b then TrueTree else FalseTree, Bool(b))
  {
  }

  function NumeralOf(n: int): Numeral {
    Numeral(n < 0, NatToString(if n < 0 then -n else n), "", NoExponent)
  }

  lemma PositiveIsNotZero(n: nat)
    requires n > 0
    ensures NatToString(n) != "0"
  {
    DigitsOfNat(n);
    assert "0"[..0] == "";
    assert DigitsToNat("0") == 0;
  }

  lemma NoLeadingZero(n: nat)
    ensures WholeOk(NatToString(n))
  {
    if n >= 10 {
      NoLeadingZero(n / 10);
      PositiveIsNotZero(n / 10);
      assert NatToString(n)[0] == NatToString(n / 10)[0];
    }
  }

  lemma NumeralOfValue(n: int)
    ensures Readable(NumeralOf(n)) && NumeralValue(NumeralOf(n)) == n as real
  {
    var m: nat := if n < 0 then -n else n;
    assert NatToString(m) + "" == NatToString(m);
    DigitsOfNat(m);
    assert PowerOf10(0) == 1.0;
  }

  lemma PowerOf2Grows(a: nat, b: nat)
    requires a <= b
    ensures PowerOf2(a) <= PowerOf2(b)
  {
    if a < b {
      PowerOf2Grows(a, b - 1);
    }
  }

  lemma ProductGrows(a: nat, k: nat)
    requires k >= 1
    ensures a * k >= a
  {
  }

  lemma TwoToTheOne()
    ensures PowerOf2(1) == 2
  {
  }

  lemma OverflowIsHuge()
    ensures Overflow() >= PowerOf2(64)
  {
    hide PowerOf2;
    PowerOf2Grows(64, 970);
    PowerOf2Grows(1, 54);
    TwoToTheOne();
    ProductGrows(PowerOf2(970), PowerOf2(54) - 1);
  }

  /** Integers of up to 64 bits - all that webd prints - are far inside the range of a double. */
  lemma NumberIsPrinted(n: int)
    requires 0 - PowerOf2(64) < n < PowerOf2(64)
    ensures Printed(JsonNumber(n), NumberTree(NumeralOf(n)), Number(n as real))
  {
    hide NumeralValue, Overflow, PowerOf2, NatToString;
    var m: nat := if n < 0 then -n else n;
    NoLeadingZero(m);
    NumeralOfValue(n);
    OverflowIsHuge();
    forall post: string ensures TreeThen(NumberTree(NumeralOf(n)), post) == JsonNumber(n) + post {
      if n < 0 {
        assert "-" + (NatToString(m) + post) == JsonNumber(n) + post;
      } else {
        assert "" + (NatToString(m) + post) == JsonNumber(n) + post;
      }
    }
  }

  // ------------------------------------------------------------------- lists

  /** A printed value: its text, its tree and what it denotes. */
  datatype Entry = Entry(text: string, tree: Tree, value: Json)

  ghost predicate EntryOk(e: Entry) {
    Printed(e.text, e.tree, e.value)
  }

  ghost predicate EntriesOk(entries: seq<Entry>) {
    forall i | 0 <= i < |entries| :: EntryOk(entries[i])
  }

  function EntryTexts(entries: seq<Entry>): (r: seq<string>)
    ensures |r| == |entries| && forall i | 0 <= i < |r| :: r[i] == entries[i].text
  {
    seq(|entries|, i requires 0 <= i < |entries| => entries[i].text)
  }

  function EntryValues(entries: seq<Entry>): (r: seq<Json>)
    ensures |r| == |entries| && forall i | 0 <= i < |r| :: r[i] == entries[i].value
  {
    seq(|entries|, i requires 0 <= i < |entries| => entries[i].value)
  }

  function ListText(texts: seq<string>): string {
    "[" + Csv.JoinCsv(texts) + "]"
  }

  function ItemsOf(entries: seq<Entry>): Items
    requires entries != []
  {
    if |entries| == 1 then LastItem(entries[0].tree, "")
    else MoreItems(entries[0].tree, "", "", ItemsOf(entries[1..]))
  }

  function ListTree(entries: seq<Entry>): Tree {
    if entries == [] then EmptyArray("") else ArrayTree("", ItemsOf(entries))
  }

  lemma PrintsThen(text: string, t: Tree, post: string)
    requires Prints(text, t)
    ensures TreeThen(t, post) == text + post
  {
  }

  lemma JoinOne(text: string)
    ensures Csv.JoinCsv([text]) == text
  {
  }

  lemma TextsCons(entries: seq<Entry>)
    requires |entries| >= 2
    ensures Csv.JoinCsv(EntryTexts(entries)) == entries[0].text + "," + Csv.JoinCsv(EntryTexts(entries[1..]))
  {
    hide Csv.JoinCsv;
    assert EntryTexts(entries) == [entries[0].text] + EntryTexts(entries[1..]);
    Csv.JoinCsvCons(entries[0].text, EntryTexts(entries[1..]));
  }

  lemma {:induction false} ItemsPrinted(entries: seq<Entry>, post: string, before: seq<Json>)
    requires entries != [] && EntriesOk(entries)
    ensures ItemsThen(ItemsOf(entries), post) == Csv.JoinCsv(EntryTexts(entries)) + ("]" + post)
    ensures ItemsOk(ItemsOf(entries), Ascii) && ItemNumbersFit(ItemsOf(entries))
    ensures ItemValues(ItemsOf(entries), before) == before + EntryValues(entries)
    decreases |entries|
  {
    hide TreeThen, TreeOk, NumbersFit, ValueOf, Prints, Csv.JoinCsv;
    var e := entries[0];
    assert EntryOk(e);
    if |entries| == 1 {
      PrintsThen(e.text, e.tree, "" + ("]" + post));
      assert "" + ("]" + post) == "]" + post;
      assert EntryTexts(entries) == [e.text] && EntryValues(entries) == [e.value];
      JoinOne(e.text);
    } else {
      var rest := entries[1..];
      var tail := ItemsThen(ItemsOf(rest), post);
      PrintsThen(e.text, e.tree, "" + ("," + ("" + tail)));
      assert "" + ("," + ("" + tail)) == "," + tail;
      ItemsPrinted(rest, post, before + [e.value]);
      TextsCons(entries);
      assert EntryValues(entries) == [e.value] + EntryValues(rest);
      Regroup(before, [e.value], EntryValues(rest));
      assert e.text + ("," + (Csv.JoinCsv(EntryTexts(rest)) + ("]" + post)))
          == e.text + "," + Csv.JoinCsv(EntryTexts(rest)) + ("]" + post);
    }
  }

  lemma ListTextThen(entries: seq<Entry>, post: string)
    requires entries != [] && EntriesOk(entries)
    ensures TreeThen(ListTree(entries), post) == ListText(EntryTexts(entries)) + post
  {
    hide ItemsOf, Csv.JoinCsv, EntryOk, EntryTexts;
    ItemsPrinted(entries, post, []);
    assert "[" + ("" + (Csv.JoinCsv(EntryTexts(entries)) + ("]" + post))) == ListText(EntryTexts(entries)) + post;
  }

  lemma ListPrints(entries: seq<Entry>)
    requires entries != [] && EntriesOk(entries)
    ensures Prints(ListText(EntryTexts(entries)), ListTree(entries))
  {
    hide TreeThen, ListText, ListTree, EntriesOk, EntryTexts;
    forall post: string ensures TreeThen(ListTree(entries), post) == ListText(EntryTexts(entries)) + post {
      ListTextThen(entries, post);
    }
  }

  lemma ListIsOk(entries: seq<Entry>)
    requires entries != [] && EntriesOk(entries)
    ensures TreeOk(ListTree(entries), Ascii) && NumbersFit(ListTree(entries))
    ensures ValueOf(ListTree(entries)) == Array(EntryValues(entries))
  {
    hide ItemsOf, ItemsOk, ItemNumbersFit, ItemValues, EntriesOk, EntryTexts, Csv.JoinCsv;
    ItemsPrinted(entries, "", []);
    assert [] + EntryValues(entries) == EntryValues(entries);
  }

  lemma SomeArePrinted(entries: seq<Entry>)
    requires entries != [] && EntriesOk(entries)
    ensures Printed(ListText(EntryTexts(entries)), ListTree(entries), Array(EntryValues(entries)))
  {
    hide Prints, TreeOk, NumbersFit, ValueOf, ListTree, ListText, EntriesOk;
    ListPrints(entries);
    ListIsOk(entries);
  }

  /** Printed values with commas between them, in brackets, form the array of these values. */
  lemma ListIsPrinted(entries: seq<Entry>)
    requires EntriesOk(entries)
    ensures Printed(ListText(EntryTexts(entries)), ListTree(entries), Array(EntryValues(entries)))
  {
    hide Printed, EntriesOk, ListText, ListTree;
    if entries == [] {
      NothingIsPrinted();
    } else {
      SomeArePrinted(entries);
    }
  }

  lemma NothingIsPrinted()
    ensures Printed(ListText(EntryTexts([])), ListTree([]), Array(EntryValues([])))
  {
    assert ListText(EntryTexts([])) == "[]";
    assert |EntryValues([])| == 0;
    forall post: string ensures TreeThen(EmptyArray(""), post) == "[]" + post {
      assert "[" + ("" + ("]" + post)) == "[]" + post;
    }
  }

  function Quoted(topics: seq<string>): (r: seq<string>)
    ensures |r| == |topics| && forall i | 0 <= i < |r| :: r[i] == JsonString(topics[i])
  {
    seq(|topics|, i requires 0 <= i < |topics| => JsonString(topics[i]))
  }

  method SerializeTopics(topics: seq<string>) returns (output: string)
    ensures output == ListText(Quoted(topics))
  {
    hide EscapedText;
    ghost var texts := Quoted(topics);
    output := "[";
    for i := 0 to |topics|
      invariant output == "[" + Csv.JoinCsv(texts[..i])
    {
      assert texts[..i + 1][..i] == texts[..i];
      if i > 0 {
        output := output + ",";
      }
      var escaped := JsonEscape(topics[i]);
      output := output + ("\"" + escaped + "\"");
    }
    assert texts[..|topics|] == texts;
    output := output + "]";
  }

  function SanitizedAll(topics: seq<string>): (r: seq<string>)
    ensures |r| == |topics| && forall i | 0 <= i < |r| :: r[i] == Sanitized(topics[i])
  {
    seq(|topics|, i requires 0 <= i < |topics| => Sanitized(topics[i]))
  }

  function Strings(texts: seq<string>): (r: seq<Json>)
    ensures |r| == |texts| && forall i | 0 <= i < |r| :: r[i] == String(texts[i])
  {
    seq(|texts|, i requires 0 <= i < |texts| => String(texts[i]))
  }

  function StringEntry(s: string): Entry {
    Entry(JsonString(s), StringTree(EscapesOf(s)), String(Sanitized(s)))
  }

  function StringEntries(topics: seq<string>): (r: seq<Entry>)
    ensures |r| == |topics| && forall i | 0 <= i < |r| :: r[i] == StringEntry(topics[i])
  {
    seq(|topics|, i requires 0 <= i < |topics| => StringEntry(topics[i]))
  }

  lemma TopicsArePrinted(topics: seq<string>)
    ensures Printed(ListText(Quoted(topics)), ListTree(StringEntries(topics)), Array(Strings(SanitizedAll(topics))))
  {
    hide Printed, JsonString, Sanitized, EscapesOf, ListText, ListTree;
    var entries := StringEntries(topics);
    forall i | 0 <= i < |entries| ensures EntryOk(entries[i]) {
      StringIsPrinted(topics[i]);
    }
    ListIsPrinted(entries);
    assert EntryTexts(entries) == Quoted(topics) && EntryValues(entries) == Strings(SanitizedAll(topics));
  }

  // ----------------------------------------------------------------- objects

  /** One member of a printed object; the printers write keys without escaping them. */
  datatype Field = Field(key: string, text: string, tree: Tree, value: Json)

  predicate SafeKey(key: string) {
    forall i | 0 <= i < |key| :: key[i] >= ' ' && key[i] != '"' && key[i] != '\\'
  }

  ghost predicate FieldOk(f: Field) {
    SafeKey(f.key) && Printed(f.text, f.tree, f.value)
  }

  ghost predicate FieldsOk(fields: seq<Field>) {
    forall i | 0 <= i < |fields| :: FieldOk(fields[i])
  }

  function FieldText(f: Field): string {
    "\"" + f.key + "\":" + f.text
  }

  function FieldTexts(fields: seq<Field>): (r: seq<string>)
    ensures |r| == |fields| && forall i | 0 <= i < |r| :: r[i] == FieldText(fields[i])
  {
    seq(|fields|, i requires 0 <= i < |fields| => FieldText(fields[i]))
  }

  function FieldsText(fields: seq<Field>): string {
    Csv.JoinCsv(FieldTexts(fields))
  }

  function ObjectText(fields: seq<Field>): string {
    "{" + FieldsText(fields) + "}"
  }

  lemma FieldsTextCons(fields: seq<Field>)
    requires fields != []
    ensures FieldsText(fields) ==
            if |fields| == 1 then FieldText(fields[0]) else FieldText(fields[0]) + "," + FieldsText(fields[1..])
  {
    hide Csv.JoinCsv, FieldText;
    if |fields| == 1 {
      assert FieldTexts(fields) == [FieldText(fields[0])];
      JoinOne(FieldText(fields[0]));
    } else {
      assert FieldTexts(fields) == [FieldText(fields[0])] + FieldTexts(fields[1..]);
      Csv.JoinCsvCons(FieldText(fields[0]), FieldTexts(fields[1..]));
    }
  }

  function KeyChars(key: string): (chars: seq<StrChar>)
    ensures |chars| == |key| && forall i | 0 <= i < |key| :: chars[i] == Plain(key[i])
  {
    seq(|key|, i requires 0 <= i < |key| => Plain(key[i]))
  }

  lemma {:induction false} KeyCharsThen(key: string, post: string)
    ensures CharsThen(KeyChars(key), post) == key + post
  {
    if key == "" {
      assert key + post == post;
    } else {
      assert KeyChars(key)[1..] == KeyChars(key[1..]);
      KeyCharsThen(key[1..], post);
      assert [key[0]] + (key[1..] + post) == key + post;
    }
  }

  lemma KeyMeaning(key: string)
    ensures Meanings(KeyChars(key)) == key
  {
    if key != "" {
      assert KeyChars(key)[1..] == KeyChars(key[1..]);
      KeyMeaning(key[1..]);
      assert key == [key[0]] + key[1..];
    }
  }

  function MemberOf(f: Field): Member {
    Member(KeyChars(f.key), "", "", f.tree)
  }

  function MembersOf(fields: seq<Field>): Members
    requires fields != []
  {
    if |fields| == 1 then LastMember(MemberOf(fields[0]), "")
    else MoreMembers(MemberOf(fields[0]), "", "", MembersOf(fields[1..]))
  }

  ghost function Built(fields: seq<Field>, before: map<string, Json>): map<string, Json> {
    if fields == [] then before else Built(fields[1..], before[fields[0].key := fields[0].value])
  }

  lemma MemberThenText(f: Field, post: string)
    requires FieldOk(f)
    ensures MemberThen(MemberOf(f), post) == FieldText(f) + post && MemberOk(MemberOf(f), Ascii)
  {
    hide TreeThen, CharsThen, TreeOk, NumbersFit, ValueOf;
    assert TreeThen(f.tree, post) == f.text + post;
    var tail := "\"" + ("" + (":" + ("" + TreeThen(f.tree, post))));
    KeyCharsThen(f.key, tail);
    assert "\"" + (f.key + tail) == FieldText(f) + post;
  }

  lemma {:induction false} MembersPrinted(fields: seq<Field>, post: string, before: map<string, Json>)
    requires fields != [] && FieldsOk(fields)
    ensures MembersThen(MembersOf(fields), post) == FieldsText(fields) + ("}" + post)
    ensures MembersOk(MembersOf(fields), Ascii) && MemberNumbersFit(MembersOf(fields))
    ensures MemberValues(MembersOf(fields), before) == Built(fields, before)
    decreases |fields|
  {
    hide TreeThen, TreeOk, NumbersFit, ValueOf, Prints, FieldText, MemberThen, MemberOk, SafeKey, FieldsText;
    FieldsTextCons(fields);
    var f := fields[0];
    assert FieldOk(f);
    KeyMeaning(f.key);
    if |fields| == 1 {
      MemberThenText(f, "" + ("}" + post));
      assert "" + ("}" + post) == "}" + post;
      assert fields[1..] == [];
    } else {
      var tail := MembersThen(MembersOf(fields[1..]), post);
      MemberThenText(f, "" + ("," + ("" + tail)));
      assert "" + ("," + ("" + tail)) == "," + tail;
      MembersPrinted(fields[1..], post, before[f.key := f.value]);
      assert FieldText(f) + ("," + (FieldsText(fields[1..]) + ("}" + post))) == FieldsText(fields) + ("}" + post);
    }
  }

  lemma ObjectTextThen(fields: seq<Field>, post: string)
    requires fields != [] && FieldsOk(fields)
    ensures TreeThen(ObjectTree("", MembersOf(fields)), post) == ObjectText(fields) + post
  {
    hide MembersOf, FieldsText, FieldOk;
    MembersPrinted(fields, post, map[]);
    assert "{" + ("" + (FieldsText(fields) + ("}" + post))) == ObjectText(fields) + post;
  }

  lemma ObjectPrints(fields: seq<Field>)
    requires fields != [] && FieldsOk(fields)
    ensures Prints(ObjectText(fields), ObjectTree("", MembersOf(fields)))
  {
    hide TreeThen, MembersOf, ObjectText, FieldsOk;
    forall post: string ensures TreeThen(ObjectTree("", MembersOf(fields)), post) == ObjectText(fields) + post {
      ObjectTextThen(fields, post);
    }
  }

  lemma ObjectIsOk(fields: seq<Field>)
    requires fields != [] && FieldsOk(fields)
    ensures var t := ObjectTree("", MembersOf(fields));
            TreeOk(t, Ascii) && NumbersFit(t) && ValueOf(t) == Object(Built(fields, map[]))
  {
    hide MembersOf, FieldsText, FieldsOk, MembersOk, MemberNumbersFit, MemberValues;
    MembersPrinted(fields, "", map[]);
  }

  lemma ObjectIsPrinted(fields: seq<Field>)
    requires fields != [] && FieldsOk(fields)
    ensures Printed(ObjectText(fields), ObjectTree("", MembersOf(fields)), Object(Built(fields, map[])))
  {
    hide Prints, TreeOk, NumbersFit, ValueOf, MembersOf, ObjectText, FieldsOk, Built;
    ObjectPrints(fields);
    ObjectIsOk(fields);
  }

  ghost predicate DistinctFields(fields: seq<Field>) {
    forall i, j | 0 <= i < j < |fields| :: fields[i].key != fields[j].key
  }

  /** In a built object every key has the value it was printed with, and there are no other keys. */
  lemma {:induction false} BuiltAt(fields: seq<Field>, before: map<string, Json>)
    requires DistinctFields(fields)
    ensures forall i | 0 <= i < |fields| ::
              fields[i].key in Built(fields, before) && Built(fields, before)[fields[i].key] == fields[i].value
    ensures forall k | forall i | 0 <= i < |fields| :: fields[i].key != k ::
              (k in Built(fields, before) <==> k in before) && (k in before ==> Built(fields, before)[k] == before[k])
    decreases |fields|
  {
    if fields != [] {
      var rest := fields[1..];
      var before' := before[fields[0].key := fields[0].value];
      BuiltAt(rest, before');
      assert forall i | 0 <= i < |rest| :: rest[i] == fields[i + 1];
      assert forall i | 0 <= i < |rest| :: rest[i].key != fields[0].key;
      forall i | 0 <= i < |fields|
        ensures fields[i].key in Built(fields, before) && Built(fields, before)[fields[i].key] == fields[i].value
      {
        if i > 0 {
          assert rest[i - 1] == fields[i];
        }
      }
    }
  }
}
