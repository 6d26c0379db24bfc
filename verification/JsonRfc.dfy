/**
  The parser against RFC 8259: which texts it shares with the RFC, and which of their values.  The text of a
  string is defined here apart from the parser, as the UTF-8 bytes of its characters (sections 7 and 8.1).
 */
module JsonRfc {
  import opened Text
  import opened Json
  import opened JsonGrammar

  // -------------------------------------------------- escapes, found by a scan

  /**
    Every unicode escape of a text is of this level.  The scan goes from left to right; any other character
    after a backslash is skipped with it, so a `u` after an escaped backslash does not count.
   */
  predicate Escapes(s: string, level: Level) {
    if s == "" then true
    else if s[0] != '\\' then Escapes(s[1..], level)
    else if |s| == 1 then true
    else if s[1] != 'u' then Escapes(s[2..], level)
    else |s| >= 6 && HexOk(s[2..6], level) && Escapes(s[6..], level)
  }

  lemma {:induction false} AsciiEscapesAreStrict(s: string)
    requires Escapes(s, Ascii)
    ensures Escapes(s, Strict)
    decreases |s|
  {
    if s != "" {
      if s[0] != '\\' {
        AsciiEscapesAreStrict(s[1..]);
      } else if |s| > 1 {
        AsciiEscapesAreStrict(if s[1] != 'u' then s[2..] else s[6..]);
      }
    }
  }

  ghost predicate NoBackslash(s: string) {
    forall i | 0 <= i < |s| :: s[i] != '\\'
  }

  lemma {:induction false} EscapesAfter(a: string, b: string, level: Level)
    requires NoBackslash(a)
    ensures Escapes(a + b, level) <==> Escapes(b, level)
  {
    if a == "" {
      assert a + b == b;
    } else {
      assert (a + b)[1..] == a[1..] + b;
      EscapesAfter(a[1..], b, level);
    }
  }

  lemma EscapesAfterWs(ws: string, b: string, level: Level)
    requires WsOk(ws)
    ensures Escapes(ws + b, level) <==> Escapes(b, level)
  {
    hide Escapes;
    assert NoBackslash(ws) by {
      forall i | 0 <= i < |ws| ensures ws[i] != '\\' {
        assert IsWs(ws[i]);
      }
    }
    EscapesAfter(ws, b, level);
  }

  lemma EscapesOfChar(ch: StrChar, post: string, level: Level)
    requires CharOk(ch, Loose)
    ensures Escapes(CharThen(ch, post), level) <==> CharOk(ch, level) && Escapes(post, level)
  {
    hide HexCode;
    var s := CharThen(ch, post);
    match ch
    case Plain(c) => assert s[1..] == post;
    case Escape(e) => assert s[2..] == post;
    case Unicode(hex) => assert s[2..6] == hex && s[6..] == post;
  }

  lemma {:induction false} EscapesOfChars(chars: seq<StrChar>, post: string, level: Level)
    requires CharsOk(chars, Loose)
    ensures Escapes(CharsThen(chars, post), level) <==> CharsOk(chars, level) && Escapes(post, level)
    decreases |chars|
  {
    hide Escapes, CharThen, CharOk;
    if chars != [] {
      assert CharOk(chars[0], Loose);
      EscapesOfChar(chars[0], CharsThen(chars[1..], post), level);
      EscapesOfChars(chars[1..], post, level);
      assert chars == [chars[0]] + chars[1..];
    }
  }

  lemma EscapesOfString(chars: seq<StrChar>, post: string, level: Level)
    requires CharsOk(chars, Loose)
    ensures Escapes(StringThen(chars, post), level) <==> CharsOk(chars, level) && Escapes(post, level)
  {
    hide Escapes, CharsThen, CharsOk;
    EscapesAfter("\"", CharsThen(chars, "\"" + post), level);
    EscapesOfChars(chars, "\"" + post, level);
    EscapesAfter("\"", post, level);
  }

  lemma DigitsHaveNoBackslash(digits: string)
    requires AllDigits(digits)
    ensures NoBackslash(digits)
  {
  }

  lemma EscapesOfNumeral(n: Numeral, post: string, level: Level)
    requires NumeralOk(n)
    ensures Escapes(NumeralThen(n, post), level) <==> Escapes(post, level)
  {
    hide Escapes, AllDigits;
    var s2 := ExponentThen(n.exponent, post);
    var s1 := FractionThen(n.fraction, s2);
    DigitsHaveNoBackslash(n.whole);
    DigitsHaveNoBackslash(n.fraction);
    EscapesAfter(if n.negative then "-" else "", n.whole + s1, level);
    EscapesAfter(n.whole, s1, level);
    EscapesAfter(".", n.fraction + s2, level);
    EscapesAfter(n.fraction, s2, level);
    if n.exponent.Exponent? {
      var x := n.exponent;
      DigitsHaveNoBackslash(x.digits);
      EscapesAfter([x.mark], x.sign + (x.digits + post), level);
      EscapesAfter(x.sign, x.digits + post, level);
      EscapesAfter(x.digits, post, level);
    }
  }

  /** The scan finds exactly the trees that are strict. */
  lemma {:induction false} EscapesOfTree(t: Tree, post: string, level: Level)
    requires TreeOk(t, Loose)
    ensures Escapes(TreeThen(t, post), level) <==> TreeOk(t, level) && Escapes(post, level)
    decreases t, 1
  {
    hide Escapes, NumeralThen, StringThen, CharsOk, NumeralOk, WsOk;
    match t
    case NullTree => EscapesAfter("null", post, level);
    case TrueTree => EscapesAfter("true", post, level);
    case FalseTree => EscapesAfter("false", post, level);
    case NumberTree(n) => EscapesOfNumeral(n, post, level);
    case StringTree(chars) => EscapesOfString(chars, post, level);
    case EmptyArray(inner) =>
      EscapesAfter("[", inner + ("]" + post), level);
      EscapesAfterWs(inner, "]" + post, level);
      EscapesAfter("]", post, level);
    case ArrayTree(lead, items) =>
      EscapesAfter("[", lead + ItemsThen(items, post), level);
      EscapesAfterWs(lead, ItemsThen(items, post), level);
      EscapesOfItems(items, post, level);
    case EmptyObject(inner) =>
      EscapesAfter("{", inner + ("}" + post), level);
      EscapesAfterWs(inner, "}" + post, level);
      EscapesAfter("}", post, level);
    case ObjectTree(lead, members) =>
      EscapesAfter("{", lead + MembersThen(members, post), level);
      EscapesAfterWs(lead, MembersThen(members, post), level);
      EscapesOfMembers(members, post, level);
  }

  lemma {:induction false} EscapesOfItems(items: Items, post: string, level: Level)
    requires ItemsOk(items, Loose)
    ensures Escapes(ItemsThen(items, post), level) <==> ItemsOk(items, level) && Escapes(post, level)
    decreases items, 0
  {
    hide Escapes, TreeThen, TreeOk, WsOk;
    match items
    case LastItem(v, after) =>
      EscapesOfTree(v, after + ("]" + post), level);
      EscapesAfterWs(after, "]" + post, level);
      EscapesAfter("]", post, level);
    case MoreItems(v, after, before, rest) =>
      EscapesOfTree(v, after + ("," + (before + ItemsThen(rest, post))), level);
      EscapesAfterWs(after, "," + (before + ItemsThen(rest, post)), level);
      EscapesAfter(",", before + ItemsThen(rest, post), level);
      EscapesAfterWs(before, ItemsThen(rest, post), level);
      EscapesOfItems(rest, post, level);
  }

  lemma EscapesOfMember(m: Member, post: string, level: Level)
    requires MemberOk(m, Loose)
    ensures Escapes(MemberThen(m, post), level) <==> MemberOk(m, level) && Escapes(post, level)
    decreases m, 0
  {
    hide Escapes, TreeThen, TreeOk, StringThen, CharsOk, WsOk;
    var value := TreeThen(m.value, post);
    EscapesOfString(m.key, m.beforeColon + (":" + (m.afterColon + value)), level);
    EscapesAfterWs(m.beforeColon, ":" + (m.afterColon + value), level);
    EscapesAfter(":", m.afterColon + value, level);
    EscapesAfterWs(m.afterColon, value, level);
    EscapesOfTree(m.value, post, level);
  }

  lemma {:induction false} EscapesOfMembers(members: Members, post: string, level: Level)
    requires MembersOk(members, Loose)
    ensures Escapes(MembersThen(members, post), level) <==> MembersOk(members, level) && Escapes(post, level)
    decreases members, 0
  {
    hide Escapes, MemberThen, MemberOk, WsOk;
    match members
    case LastMember(m, after) =>
      EscapesOfMember(m, after + ("}" + post), level);
      EscapesAfterWs(after, "}" + post, level);
      EscapesAfter("}", post, level);
    case MoreMembers(m, after, before, rest) =>
      EscapesOfMember(m, after + ("," + (before + MembersThen(rest, post))), level);
      EscapesAfterWs(after, "," + (before + MembersThen(rest, post)), level);
      EscapesAfter(",", before + MembersThen(rest, post), level);
      EscapesAfterWs(before, MembersThen(rest, post), level);
      EscapesOfMembers(rest, post, level);
  }

  lemma EscapesOfDocument(before: string, t: Tree, after: string, level: Level)
    requires DocumentOk(before, t, after, Loose)
    ensures Escapes(DocumentText(before, t, after), level) <==> TreeOk(t, level)
  {
    hide TreeThen, TreeOk, WsOk, NumbersFit;
    EscapesAfterWs(before, TreeThen(t, after), level);
    EscapesOfTree(t, after, level);
    EscapesAfterWs(after, "", level);
    assert after + "" == after;
  }

  // ------------------------------------------------------------- acceptance

  /** The length of a UTF-8 sequence by its first byte; 0 if none begins with it (section 4 of RFC 3629). */
  function Utf8Length(c: char): nat {
    if c as int < 0x80 then 1
    else if 0xC2 <= c as int < 0xE0 then 2
    else if 0xE0 <= c as int < 0xF0 then 3
    else if 0xF0 <= c as int < 0xF5 then 4
    else 0
  }

  predicate IsTail(c: char) {
    0x80 <= c as int < 0xC0
  }

  /** Tail bytes, without overlong forms, surrogates and codes past 0x10FFFF. */
  predicate TailsOk(s: string)
    requires |s| >= 2
  {
    && (forall i | 1 <= i < |s| :: IsTail(s[i]))
    && (s[0] as int == 0xE0 ==> s[1] as int >= 0xA0) && (s[0] as int == 0xED ==> (s[1] as int) < 0xA0)
    && (s[0] as int == 0xF0 ==> s[1] as int >= 0x90) && (s[0] as int == 0xF4 ==> (s[1] as int) < 0x90)
  }

  predicate IsUtf8(s: string) {
    s == "" ||
    var n := Utf8Length(s[0]);
    0 < n <= |s| && (n == 1 || TailsOk(s[..n])) && IsUtf8(s[n..])
  }

  lemma {:induction false} SevenBitsAreUtf8(s: string)
    requires forall i | 0 <= i < |s| :: s[i] as int < 0x80
    ensures IsUtf8(s)
  {
    if s != "" {
      SevenBitsAreUtf8(s[1..]);
    }
  }

  /** JSON-text of section 2 in UTF-8 (section 8.1), with numbers in the range of a double. */
  ghost predicate IsRfcText(s: string) {
    IsUtf8(s) && exists before, t, after :: DocumentOk(before, t, after, Strict) && s == DocumentText(before, t, after)
  }

  /** Every text of RFC 8259 is accepted, whatever its unicode escapes. */
  lemma RfcTextsAreAccepted(s: string)
    requires IsRfcText(s)
    ensures ParseJson(s).Success?
  {
    hide ParseJson, TreeOk, TreeThen, ValueOf, NumbersFit;
    var before, t, after :| DocumentOk(before, t, after, Strict) && s == DocumentText(before, t, after);
    TreeIsLoose(t, Strict);
    DocumentParses(before, t, after);
  }

  /**
    Exactly which accepted texts are the RFC's: those in UTF-8 whose unicode escapes all have four hexadecimal
    digits.
   */
  lemma ParserIsExact(s: string)
    ensures IsRfcText(s) <==> ParseJson(s).Success? && Escapes(s, Strict) && IsUtf8(s)
  {
    hide ParseJson, TreeOk, DocumentText, ValueOf, NumbersFit, Escapes, IsUtf8;
    if ParseJson(s).Success? && Escapes(s, Strict) && IsUtf8(s) {
      var before, t, after := ParsedDocument(s);
      EscapesOfDocument(before, t, after, Strict);
      assert DocumentOk(before, t, after, Strict) && s == DocumentText(before, t, after);
    }
    if IsRfcText(s) {
      var before, t, after :| DocumentOk(before, t, after, Strict) && s == DocumentText(before, t, after);
      RfcTextsAreAccepted(s);
      TreeIsLoose(t, Strict);
      EscapesOfDocument(before, t, after, Strict);
    }
  }

  // -------------------------------------------------- the text of an RFC string

  /** UTF-8 of a code point. */
  function Utf8(code: nat): (bytes: string)
    ensures if code < 0x80 then bytes == [code as char] else |bytes| >= 2
    ensures code >= 0x1_0000 ==> |bytes| == 4
  {
    if code < 0x80 then [code as char]
    else if code < 0x800 then [(0xC0 + code / 64) as char, (0x80 + code % 64) as char]
    else if code < 0x1_0000 then
      [(0xE0 + code / 4096) as char, (0x80 + code / 64 % 64) as char, (0x80 + code % 64) as char]
    else
      [ (0xF0 + code / 0x4_0000 % 8) as char, (0x80 + code / 4096 % 64) as char,
        (0x80 + code / 64 % 64) as char, (0x80 + code % 64) as char ]
  }

  lemma Utf8IsUtf8(code: nat)
    requires code < 0xD800 || 0xE000 <= code < 0x11_0000
    ensures IsUtf8(Utf8(code))
  {
    hide IsUtf8;
    var s := Utf8(code);
    assert Utf8Length(s[0]) == |s|;
    assert s[..|s|] == s;
    OneSequence(s);
  }

  lemma OneSequence(s: string)
    requires s != "" && Utf8Length(s[0]) == |s| && (|s| == 1 || TailsOk(s))
    ensures IsUtf8(s)
  {
    assert s[..|s|] == s && s[|s|..] == "";
  }

  /** The two-character escapes of section 7 and their code points. */
  function RfcEscape(e: char): char {
    if e == 'b' then 0x08 as char
    else if e == 'f' then 0x0C as char
    else if e == 'n' then 0x0A as char
    else if e == 'r' then 0x0D as char
    else if e == 't' then 0x09 as char
    else e
  }

  predicate HighSurrogate(code: nat) {
    0xD800 <= code < 0xDC00
  }

  predicate LowSurrogate(code: nat) {
    0xDC00 <= code < 0xE000
  }

  /**
    The bytes that section 7 gives a string: a unicode escape names a code point, two of them a surrogate
    pair.  For a surrogate on its own, which section 8.2 leaves open, the same bytes are formed.
   */
  function RfcText(chars: seq<StrChar>): string {
    if chars == [] then ""
    else
      match chars[0]
      case Plain(c) => [c] + RfcText(chars[1..])
      case Escape(e) => [RfcEscape(e)] + RfcText(chars[1..])
      case Unicode(hex) =>
        var code := HexNumber(hex);
        if HighSurrogate(code) && |chars| > 1 && chars[1].Unicode? && LowSurrogate(HexNumber(chars[1].hex)) then
          Utf8(0x1_0000 + (code - 0xD800) * 0x400 + (HexNumber(chars[1].hex) - 0xDC00)) + RfcText(chars[2..])
        else
          Utf8(code) + RfcText(chars[1..])
  }

  lemma {:induction false} AsciiIsReadAsRfc(chars: seq<StrChar>)
    requires CharsOk(chars, Ascii)
    ensures RfcText(chars) == Meanings(chars)
  {
    hide HexCode, HexNumber;
    if chars != [] {
      assert CharOk(chars[0], Ascii);
      if chars[0].Unicode? {
        HexDigitsAreRead(chars[0].hex);
      }
      AsciiIsReadAsRfc(chars[1..]);
    }
  }

  lemma {:induction false} MeaningsLength(chars: seq<StrChar>)
    ensures |Meanings(chars)| == |chars|
  {
    if chars != [] {
      MeaningsLength(chars[1..]);
    }
  }

  /** A character from 0x80 on takes more than the one byte that the parser writes for it. */
  lemma {:induction false} RfcTextIsLonger(chars: seq<StrChar>)
    requires CharsOk(chars, Strict)
    ensures |RfcText(chars)| >= |chars|
    ensures !CharsOk(chars, Ascii) ==> |RfcText(chars)| > |chars|
    decreases |chars|
  {
    hide HexNumber, Utf8;
    if chars != [] {
      assert CharOk(chars[0], Strict);
      assert chars == [chars[0]] + chars[1..];
      RfcTextIsLonger(chars[1..]);
      if |chars| > 1 {
        assert CharsOk(chars[2..], Strict) by {
          forall i | 0 <= i < |chars[2..]| ensures CharOk(chars[2..][i], Strict) {
            assert chars[2..][i] == chars[i + 2];
          }
        }
        RfcTextIsLonger(chars[2..]);
      }
    }
  }

  /** A string is read as the RFC's text if and only if every unicode escape in it is below 0x80. */
  lemma StringIsReadAsRfc(chars: seq<StrChar>)
    requires CharsOk(chars, Strict)
    ensures Meanings(chars) == RfcText(chars) <==> CharsOk(chars, Ascii)
  {
    hide Meanings, RfcText;
    if CharsOk(chars, Ascii) {
      AsciiIsReadAsRfc(chars);
    } else {
      RfcTextIsLonger(chars);
      MeaningsLength(chars);
    }
  }

  // ------------------------------------------------------------------ values

  /** The value that the RFC gives a text; of repeated names, which section 4 leaves open, the last one counts. */
  ghost function RfcValueOf(t: Tree): Json {
    match t
    case NullTree => Null
    case TrueTree => Bool(true)
    case FalseTree => Bool(false)
    case NumberTree(n) => if Readable(n) then Number(NumeralValue(n)) else Null
    case StringTree(chars) => String(RfcText(chars))
    case EmptyArray(_) => Array([])
    case ArrayTree(_, items) => Array(RfcItems(items, []))
    case EmptyObject(_) => Object(map[])
    case ObjectTree(_, members) => Object(RfcMembers(members, map[]))
  }

  ghost function RfcItems(items: Items, before: seq<Json>): seq<Json> {
    match items
    case LastItem(v, _) => before + [RfcValueOf(v)]
    case MoreItems(v, _, _, rest) => RfcItems(rest, before + [RfcValueOf(v)])
  }

  ghost function RfcMembers(members: Members, before: map<string, Json>): map<string, Json> {
    match members
    case LastMember(m, _) => before[RfcText(m.key) := RfcValueOf(m.value)]
    case MoreMembers(m, _, _, rest) => RfcMembers(rest, before[RfcText(m.key) := RfcValueOf(m.value)])
  }

  ghost predicate RfcDenotes(s: string, v: Json) {
    IsUtf8(s) && exists before, t, after ::
      DocumentOk(before, t, after, Strict) && s == DocumentText(before, t, after) && RfcValueOf(t) == v
  }

  /** Every string of the tree, names included, has the RFC's text for the parser. */
  ghost predicate ReadAsRfc(t: Tree) {
    match t
    case StringTree(chars) => Meanings(chars) == RfcText(chars)
    case ArrayTree(_, items) => ItemsReadAsRfc(items)
    case ObjectTree(_, members) => MembersReadAsRfc(members)
    case _ => true
  }

  ghost predicate ItemsReadAsRfc(items: Items) {
    match items
    case LastItem(v, _) => ReadAsRfc(v)
    case MoreItems(v, _, _, rest) => ReadAsRfc(v) && ItemsReadAsRfc(rest)
  }

  ghost predicate MembersReadAsRfc(members: Members) {
    match members
    case LastMember(m, _) => Meanings(m.key) == RfcText(m.key) && ReadAsRfc(m.value)
    case MoreMembers(m, _, _, rest) =>
      Meanings(m.key) == RfcText(m.key) && ReadAsRfc(m.value) && MembersReadAsRfc(rest)
  }

  lemma {:induction false} TreeIsReadAsRfc(t: Tree)
    requires TreeOk(t, Strict)
    ensures ReadAsRfc(t) <==> TreeOk(t, Ascii)
    ensures ReadAsRfc(t) ==> RfcValueOf(t) == ValueOf(t)
    decreases t, 1
  {
    hide CharsOk, Meanings, RfcText;
    match t
    case StringTree(chars) => StringIsReadAsRfc(chars);
    case ArrayTree(_, items) => ItemsAreReadAsRfc(items, []);
    case ObjectTree(_, members) => MembersAreReadAsRfc(members, map[]);
    case _ =>
  }

  lemma {:induction false} ItemsAreReadAsRfc(items: Items, before: seq<Json>)
    requires ItemsOk(items, Strict)
    ensures ItemsReadAsRfc(items) <==> ItemsOk(items, Ascii)
    ensures ItemsReadAsRfc(items) ==> RfcItems(items, before) == ItemValues(items, before)
    decreases items, 0
  {
    hide TreeOk, ReadAsRfc, RfcValueOf, ValueOf;
    TreeIsReadAsRfc(items.value);
    if items.MoreItems? {
      ItemsAreReadAsRfc(items.rest, before + [ValueOf(items.value)]);
    }
  }

  lemma {:induction false} MembersAreReadAsRfc(members: Members, before: map<string, Json>)
    requires MembersOk(members, Strict)
    ensures MembersReadAsRfc(members) <==> MembersOk(members, Ascii)
    ensures MembersReadAsRfc(members) ==> RfcMembers(members, before) == MemberValues(members, before)
    decreases members, 0
  {
    hide TreeOk, ReadAsRfc, RfcValueOf, ValueOf, CharsOk, Meanings, RfcText;
    StringIsReadAsRfc(members.m.key);
    TreeIsReadAsRfc(members.m.value);
    if members.MoreMembers? {
      MembersAreReadAsRfc(members.rest, before[Meanings(members.m.key) := ValueOf(members.m.value)]);
    }
  }

  /** A text of the RFC all of whose strings have the RFC's text for the parser. */
  ghost predicate IsReadAsRfc(s: string) {
    IsUtf8(s) && exists before, t, after ::
      DocumentOk(before, t, after, Strict) && s == DocumentText(before, t, after) && ReadAsRfc(t)
  }

  /** Exactly when the strings of an accepted text are the RFC's: in UTF-8, with every unicode escape below 0x80. */
  lemma StringsAreExact(s: string)
    ensures IsReadAsRfc(s) <==> ParseJson(s).Success? && Escapes(s, Ascii) && IsUtf8(s)
  {
    hide ParseJson, TreeOk, DocumentText, ReadAsRfc, NumbersFit, Escapes;
    if ParseJson(s).Success? && Escapes(s, Ascii) && IsUtf8(s) {
      var before, t, after := ParsedDocument(s);
      AsciiEscapesAreStrict(s);
      EscapesOfDocument(before, t, after, Strict);
      EscapesOfDocument(before, t, after, Ascii);
      TreeIsReadAsRfc(t);
      assert DocumentOk(before, t, after, Strict) && s == DocumentText(before, t, after) && ReadAsRfc(t);
    }
    if IsReadAsRfc(s) {
      var before, t, after :|
        DocumentOk(before, t, after, Strict) && s == DocumentText(before, t, after) && ReadAsRfc(t);
      RfcTextsAreAccepted(s);
      TreeIsLoose(t, Strict);
      TreeIsReadAsRfc(t);
      EscapesOfDocument(before, t, after, Ascii);
    }
  }

  /** Then the whole value is the RFC's, too. */
  lemma AsciiTextsAreExact(s: string, v: Json)
    requires Escapes(s, Ascii)
    ensures ParseJson(s) == Success(v) && IsUtf8(s) <==> RfcDenotes(s, v)
  {
    hide ParseJson, TreeOk, DocumentText, ReadAsRfc, RfcValueOf, ValueOf, NumbersFit, Escapes;
    AsciiEscapesAreStrict(s);
    if ParseJson(s) == Success(v) && IsUtf8(s) {
      var before, t, after := ParsedDocument(s);
      EscapesOfDocument(before, t, after, Strict);
      EscapesOfDocument(before, t, after, Ascii);
      TreeIsReadAsRfc(t);
      assert DocumentOk(before, t, after, Strict) && s == DocumentText(before, t, after) && RfcValueOf(t) == v;
    }
    if RfcDenotes(s, v) {
      var before, t, after :|
        DocumentOk(before, t, after, Strict) && s == DocumentText(before, t, after) && RfcValueOf(t) == v;
      TreeIsLoose(t, Strict);
      EscapesOfDocument(before, t, after, Ascii);
      TreeIsReadAsRfc(t);
      DocumentParses(before, t, after);
    }
  }

  lemma AsciiTreeDenotes(t: Tree)
    requires TreeOk(t, Ascii) && NumbersFit(t)
    ensures var s := DocumentText("", t, "");
            ParseJson(s) == Success(ValueOf(t)) && (RfcDenotes(s, ValueOf(t)) <==> IsUtf8(s))
  {
    hide ParseJson, RfcDenotes, DocumentText, TreeOk, ValueOf, NumbersFit, Escapes;
    var s := DocumentText("", t, "");
    TreeIsLoose(t, Ascii);
    DocumentParses("", t, "");
    EscapesOfDocument("", t, "", Ascii);
    AsciiTextsAreExact(s, ValueOf(t));
  }

  /** For a UTF-8 text that is a string the value is the RFC's if and only if every unicode escape is below 0x80. */
  lemma StringTextIsExact(s: string, x: string)
    requires ParseJson(s) == Success(String(x)) && Escapes(s, Strict) && IsUtf8(s)
    ensures RfcDenotes(s, String(x)) <==> Escapes(s, Ascii)
  {
    hide ParseJson, DocumentText, TreeOk, NumbersFit, Escapes, Meanings, RfcText, CharsOk;
    if Escapes(s, Ascii) {
      AsciiTextsAreExact(s, String(x));
    }
    if RfcDenotes(s, String(x)) {
      var before, t, after :|
        DocumentOk(before, t, after, Strict) && s == DocumentText(before, t, after) && RfcValueOf(t) == String(x);
      TreeIsLoose(t, Strict);
      DocumentParses(before, t, after);
      TreeIsReadAsRfc(t);
      EscapesOfDocument(before, t, after, Ascii);
    }
  }

  /** No unicode escape at all, by the same scan. */
  predicate NoUnicodeEscape(s: string) {
    if |s| < 2 then true
    else if s[0] != '\\' then NoUnicodeEscape(s[1..])
    else s[1] != 'u' && NoUnicodeEscape(s[2..])
  }

  lemma {:induction false} NoUnicodeEscapeIsAscii(s: string)
    requires NoUnicodeEscape(s)
    ensures Escapes(s, Ascii)
    decreases |s|
  {
    if |s| >= 2 {
      NoUnicodeEscapeIsAscii(if s[0] != '\\' then s[1..] else s[2..]);
    } else if |s| == 1 {
      assert s[1..] == "";
    }
  }

  /** For UTF-8 without a unicode escape nothing but RFC 8259 is accepted, all of it is, and with its values. */
  lemma PlainTextsAreExact(s: string, v: Json)
    requires NoUnicodeEscape(s) && IsUtf8(s)
    ensures ParseJson(s) == Success(v) <==> RfcDenotes(s, v)
  {
    hide ParseJson, RfcDenotes, Escapes, NoUnicodeEscape;
    NoUnicodeEscapeIsAscii(s);
    AsciiTextsAreExact(s, v);
  }

  // --------------------------------------------------------------- witnesses

  lemma SignedHexIsRead()
    ensures HexCode("+041") == 0x41
  {
    var hex := "+041";
    IndexOfIs(hex, '\0', 4);
    assert CStr(hex) == hex && SkipSpace(hex) == hex && hex[1..] == "041";
    assert SkipHexPrefix("041", 16) == "041";
    ReadDigitsStep("041", 0);
    assert "041"[1..] == "41" && "41"[1..] == "1" && "1"[1..] == "";
    ReadDigitsStep("41", 0);
    ReadDigitsStep("1", 4);
    assert ReadDigits("", 16, 0x41) == (0x41, "");
  }

  const SIGNED_ESCAPE: string := "\"\\u+041\""

  lemma SignedEscapeIsParsed()
    ensures ParseChars(SIGNED_ESCAPE[1..], "") == Parsed("A", "")
  {
    hide HexCode;
    SignedHexIsRead();
    var s := SIGNED_ESCAPE[1..];
    assert s[2..6] == "+041" && s[6..] == "\"";
    assert "\""[1..] == "";
    assert "" + ['A'] == "A";
  }

  /** Outside the RFC and yet accepted: strtol takes a sign for a digit. */
  lemma LooseUnicodeEscape()
    ensures ParseJson(SIGNED_ESCAPE) == Success(String("A")) && !IsRfcText(SIGNED_ESCAPE)
  {
    hide ParseChars, IsRfcText;
    SignedEscapeIsParsed();
    assert !Escapes(SIGNED_ESCAPE, Strict) by {
      var s := SIGNED_ESCAPE[1..];
      assert s[0] == '\\' && s[1] == 'u' && s[2..6][0] == '+';
      assert !IsHexDigit('+');
    }
    ParserIsExact(SIGNED_ESCAPE);
  }

  /** A string of one byte that is no UTF-8. */
  const RAW_BYTE: string := ['"', 0xFF as char, '"']

  /** Outside the RFC and yet accepted: bytes from 0x80 on are not looked at. */
  lemma RawByteIsAccepted()
    ensures ParseJson(RAW_BYTE) == Success(String([0xFF as char])) && !IsRfcText(RAW_BYTE)
  {
    var c := 0xFF as char;
    var rest := RAW_BYTE[1..];
    assert rest == [c, '"'] && rest[1..] == "\"" && rest[1..][1..] == "";
    assert "" + [c] == [c];
    assert ParseChars(rest, "") == Parsed([c], "");
    assert rest[0] == c && Utf8Length(c) == 0;
    assert !IsUtf8(rest);
    assert RAW_BYTE[0] == '"' && Utf8Length('"') == 1;
    assert !IsUtf8(RAW_BYTE);
  }

  const ACCENT_ESCAPE: string := "\"\\u00e9\""
  const ACCENT: Tree := StringTree([Unicode("00e9")])

  lemma AccentNumber()
    ensures IsHex4("00e9") && HexNumber("00e9") == 0xE9 && HexCode("00e9") == 0xE9
  {
    HexNumber4("00e9");
    HexDigitsAreRead("00e9");
  }

  lemma AccentText()
    ensures CharsOk([Unicode("00e9")], Strict) && ACCENT_ESCAPE == DocumentText("", ACCENT, "")
    ensures Meanings([Unicode("00e9")]) == "?" && RfcText([Unicode("00e9")]) == [0xC3 as char, 0xA9 as char]
  {
    hide HexNumber, HexCode;
    AccentNumber();
    var chars := [Unicode("00e9")];
    assert chars[1..] == [];
    assert CharsThen(chars, "\"") == "\\u" + ("00e9" + "\"");
    assert "\"" + "" == "\"";
  }

  lemma AccentIsShared()
    ensures IsRfcText(ACCENT_ESCAPE) && ParseJson(ACCENT_ESCAPE) == Success(String("?"))
    ensures RfcDenotes(ACCENT_ESCAPE, String([0xC3 as char, 0xA9 as char]))
  {
    hide ParseJson, DocumentText, CharsOk, Meanings, RfcText, IsHex4, HexNumber, IsUtf8;
    AccentText();
    SevenBitsAreUtf8(ACCENT_ESCAPE);
    assert DocumentOk("", ACCENT, "", Strict);
    TreeIsLoose(ACCENT, Strict);
    DocumentParses("", ACCENT, "");
  }

  /** Shared with the RFC and yet with another value: the parser writes `?` for every character from 0x80 on. */
  lemma AccentIsLost()
    ensures IsRfcText(ACCENT_ESCAPE) && ParseJson(ACCENT_ESCAPE) == Success(String("?"))
    ensures RfcDenotes(ACCENT_ESCAPE, String([0xC3 as char, 0xA9 as char])) && !RfcDenotes(ACCENT_ESCAPE, String("?"))
  {
    hide ParseJson, IsRfcText, RfcDenotes, Escapes, IsUtf8;
    AccentIsShared();
    ParserIsExact(ACCENT_ESCAPE);
    assert !Escapes(ACCENT_ESCAPE, Ascii) by { AccentIsNotAscii(); }
    StringTextIsExact(ACCENT_ESCAPE, "?");
  }

  lemma AccentIsNotAscii()
    ensures !Escapes(ACCENT_ESCAPE, Ascii)
  {
    hide Escapes, DocumentText, HexNumber, HexCode;
    AccentNumber();
    AccentText();
    assert CharOk(Unicode("00e9"), Loose) && !CharOk(Unicode("00e9"), Ascii);
    assert !CharsOk([Unicode("00e9")], Ascii) by { assert !CharOk([Unicode("00e9")][0], Ascii); }
    TreeIsLoose(ACCENT, Strict);
    EscapesOfDocument("", ACCENT, "", Ascii);
  }

  const SHADOWED: Tree := ObjectTree("",
    MoreMembers(Member([Plain('a')], "", "", ACCENT), "", "",
                LastMember(Member([Plain('a')], "", "", StringTree([Plain('x')])), "")))

  lemma ShadowedTree()
    ensures TreeOk(SHADOWED, Strict) && !TreeOk(SHADOWED, Ascii) && NumbersFit(SHADOWED)
    ensures ValueOf(SHADOWED) == RfcValueOf(SHADOWED)
  {
    hide HexNumber, HexCode;
    AccentNumber();
    var name := [Plain('a')];
    assert name[1..] == [] && [Plain('x')][1..] == [];
    assert CharsOk(name, Strict) && CharsOk([Plain('x')], Strict);
    assert CharsOk([Unicode("00e9")], Strict) && !CharOk([Unicode("00e9")][0], Ascii);
    assert Meanings(name) == RfcText(name);
  }

  lemma OneCharThen(ch: StrChar, post: string)
    ensures TreeThen(StringTree([ch]), post) == "\"" + CharThen(ch, "\"" + post)
  {
    assert [ch][1..] == [] && CharsThen([], "\"" + post) == "\"" + post;
    assert CharsThen([ch], "\"" + post) == CharThen(ch, "\"" + post);
  }

  lemma MemberAThen(v: Tree, post: string)
    ensures MemberThen(Member([Plain('a')], "", "", v), post) == "\"a\":" + TreeThen(v, post)
  {
    hide TreeThen;
    assert [Plain('a')][1..] == [];
    var tail := "\"" + ("" + (":" + ("" + TreeThen(v, post))));
    assert CharsThen([Plain('a')], tail) == "a" + tail;
    assert "\"" + ("a" + tail) == "\"a\":" + TreeThen(v, post);
  }

  const LAST_X: string := "\"a\":\"x\"}"

  lemma LastXThen()
    ensures MembersThen(LastMember(Member([Plain('a')], "", "", StringTree([Plain('x')])), ""), "") == LAST_X
  {
    hide MemberThen, StringThen;
    OneCharThen(Plain('x'), "}");
    MemberAThen(StringTree([Plain('x')]), "}");
    assert "" + ("}" + "") == "}";
  }

  lemma FirstAccentThen(rest: Members)
    ensures MembersThen(MoreMembers(Member([Plain('a')], "", "", ACCENT), "", "", rest), "")
         == "\"a\":\"\\u00e9\"," + MembersThen(rest, "")
  {
    hide MemberThen, StringThen;
    var tail := MembersThen(rest, "");
    OneCharThen(Unicode("00e9"), "," + tail);
    MemberAThen(ACCENT, "," + tail);
    assert "" + ("," + ("" + tail)) == "," + tail;
    assert "\"a\":" + ("\"" + ("\\u" + ("00e9" + ("\"" + ("," + tail))))) == "\"a\":\"\\u00e9\"," + tail;
  }

  lemma ShadowedText()
    ensures IsUtf8(DocumentText("", SHADOWED, ""))
  {
    hide IsUtf8, MembersThen;
    LastXThen();
    FirstAccentThen(LastMember(Member([Plain('a')], "", "", StringTree([Plain('x')])), ""));
    var text := "{\"a\":\"\\u00e9\"," + LAST_X;
    assert DocumentText("", SHADOWED, "") == text;
    SevenBitsAreUtf8(text);
  }

  /** The value as a whole can still be the RFC's: when the string is that of a member that a later one replaces. */
  lemma ShadowedEscape() returns (s: string, v: Json)
    ensures ParseJson(s) == Success(v) && RfcDenotes(s, v) && !Escapes(s, Ascii)
  {
    hide ParseJson, DocumentText, TreeOk, NumbersFit, Escapes, ValueOf, RfcValueOf, IsUtf8;
    ShadowedTree();
    ShadowedText();
    s, v := DocumentText("", SHADOWED, ""), ValueOf(SHADOWED);
    assert DocumentOk("", SHADOWED, "", Strict);
    TreeIsLoose(SHADOWED, Strict);
    DocumentParses("", SHADOWED, "");
    EscapesOfDocument("", SHADOWED, "", Ascii);
  }
}
