/**
  The grammar of RFC 8259, sections 2 to 7, as syntax trees together with the texts they stand for,
  and the proof that the parser accepts exactly these texts and returns the values they denote.
  A `...Then` function gives the text of a tree followed by `post`.
 */
module JsonGrammar {
  import opened Text
  import opened Json

  // ---------------------------------------------------------------- numbers

  function ExponentThen(x: Exponent, post: string): string {
    match x
    case NoExponent => post
    case Exponent(mark, sign, digits) => [mark] + (sign + (digits + post))
  }

  function FractionThen(fraction: string, post: string): string {
    if fraction == "" then post else "." + (fraction + post)
  }

  function NumeralThen(n: Numeral, post: string): string {
    (if n.negative then "-" else "") + (n.whole + FractionThen(n.fraction, ExponentThen(n.exponent, post)))
  }

  ghost predicate WholeOk(whole: string) {
    AllDigits(whole) && whole != "" && (whole[0] == '0' ==> whole == "0")
  }

  ghost predicate ExponentOk(x: Exponent) {
    x.Exponent? ==>
      && (x.mark == 'e' || x.mark == 'E')
      && (x.sign == "" || x.sign == "+" || x.sign == "-")
      && AllDigits(x.digits) && x.digits != ""
  }

  /** Section 6: no leading zero, at least one digit after a point and after an exponent mark. */
  ghost predicate NumeralOk(n: Numeral) {
    WholeOk(n.whole) && AllDigits(n.fraction) && ExponentOk(n.exponent)
  }

  /** What may follow a number without becoming part of it. */
  predicate EndsNumber(post: string) {
    post == "" || (!IsDigit(post[0]) && post[0] != '.' && post[0] != 'e' && post[0] != 'E')
  }

  lemma {:induction false} SkipDigitsThen(digits: string, post: string)
    requires AllDigits(digits) && (post == "" || !IsDigit(post[0]))
    ensures SkipDigits(digits + post) == post && TakeDigits(digits + post) == digits
  {
    if digits == "" {
      assert digits + post == post;
    } else {
      assert (digits + post)[1..] == digits[1..] + post;
      SkipDigitsThen(digits[1..], post);
      assert SkipDigits(digits + post) == post;
    }
    assert (digits + post)[..|digits|] == digits;
  }

  lemma TakeThenSkip(s: string)
    ensures s == TakeDigits(s) + SkipDigits(s)
  {
  }

  lemma WholeScans(whole: string, post: string)
    requires WholeOk(whole) && (post == "" || !IsDigit(post[0]))
    ensures ScanWhole(whole + post) == Parsed(whole, post)
  {
    SkipDigitsThen(whole, post);
    if whole[0] == '0' {
      assert (whole + post)[1..] == post;
    }
  }

  lemma FractionScans(fraction: string, post: string)
    requires AllDigits(fraction) && (post == "" || (!IsDigit(post[0]) && post[0] != '.'))
    ensures ScanFraction(FractionThen(fraction, post)) == Parsed(fraction, post)
  {
    if fraction != "" {
      var s := FractionThen(fraction, post);
      assert s[1..] == fraction + post;
      SkipDigitsThen(fraction, post);
    }
  }

  lemma SignScans(sign: string, t: string)
    requires sign == "" || sign == "+" || sign == "-"
    requires t != "" && t[0] != '+' && t[0] != '-'
    ensures ScanSign(sign + t) == (sign, t)
  {
    if sign == "" {
      assert sign + t == t;
    } else {
      assert (sign + t)[1..] == t;
    }
  }

  lemma ExponentScans(x: Exponent, post: string)
    requires ExponentOk(x) && EndsNumber(post)
    ensures ScanExponent(ExponentThen(x, post)) == Parsed(x, post)
  {
    if x.Exponent? {
      hide SkipDigits, ScanSign;
      var t := x.digits + post;
      assert t[0] == x.digits[0] && IsDigit(x.digits[0]);
      assert ExponentThen(x, post)[1..] == x.sign + t;
      SignScans(x.sign, t);
      SkipDigitsThen(x.digits, post);
    }
  }

  lemma NumeralScans(n: Numeral, post: string)
    requires NumeralOk(n) && EndsNumber(post)
    ensures ScanNumeral(NumeralThen(n, post)) == Parsed(n, post)
  {
    hide ScanWhole, ScanFraction, ScanExponent;
    var s2 := ExponentThen(n.exponent, post);
    var s1 := FractionThen(n.fraction, s2);
    var s := NumeralThen(n, post);
    assert if n.negative then s[0] == '-' && s[1..] == n.whole + s1 else s == n.whole + s1;
    assert !n.negative ==> IsDigit(n.whole[0]);
    WholeScans(n.whole, s1);
    FractionScans(n.fraction, s2);
    ExponentScans(n.exponent, post);
  }

  lemma ScannedSign(s: string)
    ensures var (sign, t) := ScanSign(s); s == sign + t && (sign == "" || sign == "+" || sign == "-")
  {
    if s != "" {
      assert s == [s[0]] + s[1..];
    }
  }

  lemma TakenDigits(s: string)
    requires s != "" && IsDigit(s[0])
    ensures TakeDigits(s) != ""
  {
  }

  lemma ScannedExponent(s: string)
    requires ScanExponent(s).Parsed?
    ensures var p := ScanExponent(s); ExponentOk(p.value) && s == ExponentThen(p.value, p.rest)
  {
    hide SkipDigits, TakeDigits, ScanSign;
    if ScanExponent(s).value.Exponent? {
      var (sign, t) := ScanSign(s[1..]);
      ScannedSign(s[1..]);
      TakeThenSkip(t);
      TakenDigits(t);
      assert s == [s[0]] + s[1..];
    }
  }

  lemma ScannedFraction(s: string)
    requires ScanFraction(s).Parsed?
    ensures var p := ScanFraction(s); AllDigits(p.value) && s == FractionThen(p.value, p.rest)
  {
    if s != "" && s[0] == '.' {
      TakeThenSkip(s[1..]);
      assert s == "." + s[1..];
      assert s[1..][0] == (TakeDigits(s[1..]) + SkipDigits(s[1..]))[0];
    }
  }

  lemma ScannedWhole(s: string)
    requires ScanWhole(s).Parsed?
    ensures var p := ScanWhole(s); WholeOk(p.value) && s == p.value + p.rest
  {
    TakeThenSkip(s);
    assert s == [s[0]] + s[1..];
  }

  lemma ScannedNumeral(s: string)
    requires ScanNumeral(s).Parsed?
    ensures var p := ScanNumeral(s); NumeralOk(p.value) && s == NumeralThen(p.value, p.rest)
  {
    hide ScanWhole, ScanFraction, ScanExponent;
    var t := if s != "" && s[0] == '-' then s[1..] else s;
    ScannedWhole(t);
    var s1 := ScanWhole(t).rest;
    ScannedFraction(s1);
    ScannedExponent(ScanFraction(s1).rest);
    assert s == (if s != "" && s[0] == '-' then "-" else "") + t;
  }

  // ---------------------------------------------------------------- strings

  datatype StrChar = Plain(c: char) | Escape(e: char) | Unicode(hex: string)

  predicate IsHexDigit(c: char) {
    IsDigit(c) || 'a' <= c <= 'f' || 'A' <= c <= 'F'
  }

  predicate IsHex4(hex: string) {
    |hex| == 4 && forall i | 0 <= i < 4 :: IsHexDigit(hex[i])
  }

  function HexDigit(c: char): (d: nat)
    ensures d < 16
  {
    if IsDigit(c) then c as int - '0' as int
    else if 'a' <= c <= 'f' then 10 + (c as int - 'a' as int)
    else if 'A' <= c <= 'F' then 10 + (c as int - 'A' as int)
    else 0
  }

  /** The number that hexadecimal digits denote, base 16. */
  function HexNumber(hex: string): nat {
    if hex == "" then 0 else 16 * HexNumber(hex[..|hex| - 1]) + HexDigit(hex[|hex| - 1])
  }

  /**
    How much is asked of a unicode escape.  Loose: the parser takes it, that is, strtol reads the four
    characters completely as a non-negative number.  Strict: four hexadecimal digits (section 7).  Ascii:
    they also name a character below 0x80.
   */
  datatype Level = Loose | Strict | Ascii

  predicate HexOk(hex: string, level: Level) {
    && |hex| == 4
    && match level
       case Loose => HexCode(hex) >= 0
       case Strict => IsHex4(hex)
       case Ascii => IsHex4(hex) && HexNumber(hex) < 0x80
  }

  /** Section 7. */
  ghost predicate CharOk(ch: StrChar, level: Level) {
    match ch
    case Plain(c) => c >= ' ' && c != '"' && c != '\\'
    case Escape(e) => IsEscape(e)
    case Unicode(hex) => HexOk(hex, level)
  }

  ghost predicate CharsOk(chars: seq<StrChar>, level: Level) {
    forall i | 0 <= i < |chars| :: CharOk(chars[i], level)
  }

  function CharThen(ch: StrChar, post: string): string {
    match ch
    case Plain(c) => [c] + post
    case Escape(e) => ['\\', e] + post
    case Unicode(hex) => "\\u" + (hex + post)
  }

  function CharsThen(chars: seq<StrChar>, post: string): string {
    if chars == [] then post else CharThen(chars[0], CharsThen(chars[1..], post))
  }

  function StringThen(chars: seq<StrChar>, post: string): string {
    "\"" + CharsThen(chars, "\"" + post)
  }

  function Meaning(ch: StrChar): char {
    match ch
    case Plain(c) => c
    case Escape(e) => if IsEscape(e) then EscapeMeaning(e) else e
    case Unicode(hex) => if HexCode(hex) >= 0 then CodeChar(HexCode(hex)) else '?'
  }

  function Meanings(chars: seq<StrChar>): string {
    if chars == [] then "" else [Meaning(chars[0])] + Meanings(chars[1..])
  }

  lemma CharParses(ch: StrChar, post: string, out: string)
    requires CharOk(ch, Loose)
    ensures ParseChars(CharThen(ch, post), out) == ParseChars(post, out + [Meaning(ch)])
  {
    var s := CharThen(ch, post);
    match ch
    case Plain(c) => assert s[1..] == post;
    case Escape(e) => assert s[2..] == post;
    case Unicode(hex) => assert s[2..6] == hex && s[6..] == post;
  }

  lemma {:induction false} CharsParse(chars: seq<StrChar>, post: string, out: string)
    requires CharsOk(chars, Loose)
    ensures ParseChars(CharsThen(chars, "\"" + post), out) == Parsed(out + Meanings(chars), post)
    decreases |chars|
  {
    hide CharThen, Meaning, CharOk;
    if chars == [] {
      assert ("\"" + post)[1..] == post;
      assert out + "" == out;
    } else {
      assert CharOk(chars[0], Loose);
      assert CharsOk(chars[1..], Loose);
      CharParses(chars[0], CharsThen(chars[1..], "\"" + post), out);
      CharsParse(chars[1..], post, out + [Meaning(chars[0])]);
      assert out + [Meaning(chars[0])] + Meanings(chars[1..]) == out + Meanings(chars);
    }
  }

  lemma StringParses(chars: seq<StrChar>, post: string)
    requires CharsOk(chars, Loose)
    ensures ParseString(StringThen(chars, post)) == Parsed(Meanings(chars), post)
  {
    assert StringThen(chars, post)[1..] == CharsThen(chars, "\"" + post);
    CharsParse(chars, post, "");
    assert "" + Meanings(chars) == Meanings(chars);
  }

  /** One step of the loop over the characters, read backwards. */
  lemma ParsedChar(s: string, out: string) returns (ch: StrChar, tail: string)
    requires s != "" && s[0] != '"' && ParseChars(s, out).Parsed?
    ensures CharOk(ch, Loose) && s == CharThen(ch, tail) && |tail| < |s|
    ensures ParseChars(s, out) == ParseChars(tail, out + [Meaning(ch)])
  {
    hide HexCode;
    if s[0] != '\\' {
      ch, tail := Plain(s[0]), s[1..];
    } else if IsEscape(s[1]) {
      ch, tail := Escape(s[1]), s[2..];
    } else {
      ch, tail := Unicode(s[2..6]), s[6..];
      assert s == "\\u" + (s[2..6] + s[6..]);
    }
  }

  lemma {:induction false} ParsedChars(s: string, out: string) returns (chars: seq<StrChar>)
    requires ParseChars(s, out).Parsed?
    ensures var p := ParseChars(s, out);
            CharsOk(chars, Loose) && s == CharsThen(chars, "\"" + p.rest) && p.value == out + Meanings(chars)
    decreases |s|
  {
    hide CharThen, Meaning, CharOk;
    var rest := ParseChars(s, out).rest;
    if s[0] == '"' {
      chars := [];
      assert s == "\"" + rest;
      assert out + "" == out;
    } else {
      var ch, tail := ParsedChar(s, out);
      var more := ParsedChars(tail, out + [Meaning(ch)]);
      chars := [ch] + more;
      assert chars[1..] == more;
      assert out + [Meaning(ch)] + Meanings(more) == out + Meanings(chars);
    }
  }

  lemma ParsedString(s: string) returns (chars: seq<StrChar>)
    requires ParseString(s).Parsed?
    ensures var p := ParseString(s);
            CharsOk(chars, Loose) && s == StringThen(chars, p.rest) && p.value == Meanings(chars)
  {
    chars := ParsedChars(s[1..], "");
    assert s == "\"" + s[1..];
    assert "" + Meanings(chars) == Meanings(chars);
  }

  // ------------------------------------------------------------- whitespace

  ghost predicate WsOk(ws: string) {
    forall i | 0 <= i < |ws| :: IsWs(ws[i])
  }

  lemma {:induction false} SkipWsThen(ws: string, post: string)
    requires WsOk(ws) && (post == "" || !IsWs(post[0]))
    ensures SkipWs(ws + post) == post
  {
    if ws == "" {
      assert ws + post == post;
    } else {
      assert (ws + post)[1..] == ws[1..] + post;
      SkipWsThen(ws[1..], post);
    }
  }

  lemma {:induction false} SkippedWs(s: string) returns (ws: string)
    ensures WsOk(ws) && s == ws + SkipWs(s)
  {
    if s != "" && IsWs(s[0]) {
      var rest := s[1..];
      var more := SkippedWs(rest);
      ws := [s[0]] + more;
      assert s == [s[0]] + rest;
      assert SkipWs(s) == SkipWs(rest);
      assert [s[0]] + (more + SkipWs(rest)) == ws + SkipWs(rest);
    } else {
      ws := "";
    }
  }

  // ------------------------------------------------------------ whole values

  datatype Tree =
    | NullTree | TrueTree | FalseTree
    | NumberTree(numeral: Numeral)
    | StringTree(chars: seq<StrChar>)
    | EmptyArray(inner: string)
    | ArrayTree(lead: string, items: Items)
    | EmptyObject(inner: string)
    | ObjectTree(lead: string, members: Members)

  /** The elements of an array, each with the whitespace around its comma, up to the bracket. */
  datatype Items =
    | LastItem(value: Tree, after: string)
    | MoreItems(value: Tree, after: string, before: string, rest: Items)

  datatype Member = Member(key: seq<StrChar>, beforeColon: string, afterColon: string, value: Tree)

  datatype Members =
    | LastMember(m: Member, after: string)
    | MoreMembers(m: Member, after: string, before: string, rest: Members)

  ghost predicate TreeOk(t: Tree, level: Level) {
    match t
    case NumberTree(n) => NumeralOk(n)
    case StringTree(chars) => CharsOk(chars, level)
    case EmptyArray(inner) => WsOk(inner)
    case ArrayTree(lead, items) => WsOk(lead) && ItemsOk(items, level)
    case EmptyObject(inner) => WsOk(inner)
    case ObjectTree(lead, members) => WsOk(lead) && MembersOk(members, level)
    case _ => true
  }

  ghost predicate ItemsOk(items: Items, level: Level) {
    match items
    case LastItem(v, after) => TreeOk(v, level) && WsOk(after)
    case MoreItems(v, after, before, rest) => TreeOk(v, level) && WsOk(after) && WsOk(before) && ItemsOk(rest, level)
  }

  ghost predicate MembersOk(members: Members, level: Level) {
    match members
    case LastMember(m, after) => MemberOk(m, level) && WsOk(after)
    case MoreMembers(m, after, before, rest) =>
      MemberOk(m, level) && WsOk(after) && WsOk(before) && MembersOk(rest, level)
  }

  ghost predicate MemberOk(m: Member, level: Level) {
    CharsOk(m.key, level) && WsOk(m.beforeColon) && WsOk(m.afterColon) && TreeOk(m.value, level)
  }

  function TreeThen(t: Tree, post: string): string {
    match t
    case NullTree => "null" + post
    case TrueTree => "true" + post
    case FalseTree => "false" + post
    case NumberTree(n) => NumeralThen(n, post)
    case StringTree(chars) => StringThen(chars, post)
    case EmptyArray(inner) => "[" + (inner + ("]" + post))
    case ArrayTree(lead, items) => "[" + (lead + ItemsThen(items, post))
    case EmptyObject(inner) => "{" + (inner + ("}" + post))
    case ObjectTree(lead, members) => "{" + (lead + MembersThen(members, post))
  }

  function ItemsThen(items: Items, post: string): string {
    match items
    case LastItem(v, after) => TreeThen(v, after + ("]" + post))
    case MoreItems(v, after, before, rest) => TreeThen(v, after + ("," + (before + ItemsThen(rest, post))))
  }

  function MemberThen(m: Member, post: string): string {
    StringThen(m.key, m.beforeColon + (":" + (m.afterColon + TreeThen(m.value, post))))
  }

  function MembersThen(members: Members, post: string): string {
    match members
    case LastMember(m, after) => MemberThen(m, after + ("}" + post))
    case MoreMembers(m, after, before, rest) => MemberThen(m, after + ("," + (before + MembersThen(rest, post))))
  }

  /** Every number of the tree is within the range of a double. */
  ghost predicate NumbersFit(t: Tree) {
    match t
    case NumberTree(n) => Readable(n) && InDoubleRange(NumeralValue(n))
    case ArrayTree(_, items) => ItemNumbersFit(items)
    case ObjectTree(_, members) => MemberNumbersFit(members)
    case _ => true
  }

  ghost predicate ItemNumbersFit(items: Items) {
    match items
    case LastItem(v, _) => NumbersFit(v)
    case MoreItems(v, _, _, rest) => NumbersFit(v) && ItemNumbersFit(rest)
  }

  ghost predicate MemberNumbersFit(members: Members) {
    match members
    case LastMember(m, _) => NumbersFit(m.value)
    case MoreMembers(m, _, _, rest) => NumbersFit(m.value) && MemberNumbersFit(rest)
  }

  /** The value a tree denotes; of repeated keys the last one counts. */
  ghost function ValueOf(t: Tree): Json {
    match t
    case NullTree => Null
    case TrueTree => Bool(true)
    case FalseTree => Bool(false)
    case NumberTree(n) => if Readable(n) then Number(NumeralValue(n)) else Null
    case StringTree(chars) => String(Meanings(chars))
    case EmptyArray(_) => Array([])
    case ArrayTree(_, items) => Array(ItemValues(items, []))
    case EmptyObject(_) => Object(map[])
    case ObjectTree(_, members) => Object(MemberValues(members, map[]))
  }

  ghost function ItemValues(items: Items, before: seq<Json>): seq<Json> {
    match items
    case LastItem(v, _) => before + [ValueOf(v)]
    case MoreItems(v, _, _, rest) => ItemValues(rest, before + [ValueOf(v)])
  }

  ghost function MemberValues(members: Members, before: map<string, Json>): map<string, Json> {
    match members
    case LastMember(m, _) => before[Meanings(m.key) := ValueOf(m.value)]
    case MoreMembers(m, _, _, rest) => MemberValues(rest, before[Meanings(m.key) := ValueOf(m.value)])
  }

  // ---------------------------------------- every text of the grammar is parsed

  lemma TreeStart(t: Tree, level: Level, post: string)
    requires TreeOk(t, level)
    ensures TreeThen(t, post) != "" && !IsWs(TreeThen(t, post)[0])
    ensures TreeThen(t, post)[0] != ']' && TreeThen(t, post)[0] != '}'
  {
    match t
    case NumberTree(n) => assert IsDigit(n.whole[0]);
    case _ =>
  }

  lemma ItemsStart(items: Items, level: Level, post: string)
    requires ItemsOk(items, level)
    ensures ItemsThen(items, post) != "" && !IsWs(ItemsThen(items, post)[0]) && ItemsThen(items, post)[0] != ']'
  {
    hide TreeThen;
    match items
    case LastItem(v, after) => TreeStart(v, level, after + ("]" + post));
    case MoreItems(v, after, before, rest) =>
      TreeStart(v, level, after + ("," + (before + ItemsThen(rest, post))));
  }

  lemma MembersStart(members: Members, post: string)
    ensures MembersThen(members, post) != "" && MembersThen(members, post)[0] == '"'
  {
  }

  lemma WsEndsNumber(ws: string, post: string)
    requires WsOk(ws) && EndsNumber(post)
    ensures EndsNumber(ws + post)
  {
    if ws != "" {
      assert IsWs(ws[0]);
    }
  }

  lemma NumberParses(n: Numeral, post: string)
    requires NumeralOk(n) && InDoubleRange(NumeralValue(n)) && EndsNumber(post)
    ensures ParseValue(NumeralThen(n, post)) == Parsed(Number(NumeralValue(n)), post)
  {
    hide NumeralValue, InDoubleRange, ScanNumeral, ParseObject, ParseArray;
    NumeralScans(n, post);
    assert IsDigit(n.whole[0]);
    assert NumeralThen(n, post)[0] == if n.negative then '-' else n.whole[0];
  }

  lemma LiteralParses(post: string)
    ensures ParseValue("null" + post) == Parsed(Null, post)
    ensures ParseValue("true" + post) == Parsed(Bool(true), post)
    ensures ParseValue("false" + post) == Parsed(Bool(false), post)
  {
    hide ParseObject, ParseArray, ParseNumber, ParseString;
    assert ("null" + post)[..4] == "null" && ("null" + post)[4..] == post;
    assert ("true" + post)[..4] == "true" && ("true" + post)[4..] == post;
    assert ("false" + post)[..5] == "false" && ("false" + post)[5..] == post;
  }

  lemma StringValueParses(chars: seq<StrChar>, post: string)
    requires CharsOk(chars, Loose)
    ensures ParseValue(StringThen(chars, post)) == Parsed(String(Meanings(chars)), post)
  {
    hide ParseObject, ParseArray, ParseNumber, ParseString;
    StringParses(chars, post);
    assert StringThen(chars, post)[0] == '"';
  }

  lemma {:induction false} TreeParses(t: Tree, post: string)
    requires TreeOk(t, Loose) && NumbersFit(t) && EndsNumber(post)
    ensures ParseValue(TreeThen(t, post)) == Parsed(ValueOf(t), post)
    decreases t, 1
  {
    hide NumeralValue, InDoubleRange, ParseNumber, ParseString, ParseItems, ParseMembers, CharsOk, Meanings;
    match t
    case NullTree => LiteralParses(post);
    case TrueTree => LiteralParses(post);
    case FalseTree => LiteralParses(post);
    case NumberTree(n) => NumberParses(n, post);
    case StringTree(chars) => StringValueParses(chars, post);
    case EmptyArray(inner) =>
      assert TreeThen(t, post)[1..] == inner + ("]" + post);
      SkipWsThen(inner, "]" + post);
      assert ("]" + post)[1..] == post;
    case ArrayTree(lead, items) =>
      assert TreeThen(t, post)[1..] == lead + ItemsThen(items, post);
      ItemsStart(items, Loose, post);
      SkipWsThen(lead, ItemsThen(items, post));
      ItemsParse(items, post, []);
    case EmptyObject(inner) =>
      assert TreeThen(t, post)[1..] == inner + ("}" + post);
      SkipWsThen(inner, "}" + post);
      assert ("}" + post)[1..] == post;
    case ObjectTree(lead, members) =>
      assert TreeThen(t, post)[1..] == lead + MembersThen(members, post);
      MembersStart(members, post);
      SkipWsThen(lead, MembersThen(members, post));
      MembersParse(members, post, map[]);
  }

  lemma {:induction false} ItemsParse(items: Items, post: string, before: seq<Json>)
    requires ItemsOk(items, Loose) && ItemNumbersFit(items)
    ensures ParseItems(ItemsThen(items, post), before) == Parsed(Array(ItemValues(items, before)), post)
    decreases items, 0
  {
    hide ParseValue, TreeThen, ValueOf;
    ItemsStart(items, Loose, post);
    match items
    case LastItem(v, after) =>
      var tail := "]" + post;
      WsEndsNumber(after, tail);
      TreeParses(v, after + tail);
      SkipWsThen(after, tail);
      assert tail[1..] == post;
    case MoreItems(v, after, before', rest) =>
      var tail := "," + (before' + ItemsThen(rest, post));
      WsEndsNumber(after, tail);
      TreeParses(v, after + tail);
      SkipWsThen(after, tail);
      assert tail[1..] == before' + ItemsThen(rest, post);
      ItemsStart(rest, Loose, post);
      SkipWsThen(before', ItemsThen(rest, post));
      ItemsParse(rest, post, before + [ValueOf(v)]);
  }

  lemma {:induction false} MembersParse(members: Members, post: string, before: map<string, Json>)
    requires MembersOk(members, Loose) && MemberNumbersFit(members)
    ensures ParseMembers(MembersThen(members, post), before) == Parsed(Object(MemberValues(members, before)), post)
    decreases members, 0
  {
    hide ParseValue, ParseString, TreeThen, ValueOf, Meanings, CharsOk;
    MembersStart(members, post);
    var m := members.m;
    var tail := if members.LastMember? then "}" + post else "," + (members.before + MembersThen(members.rest, post));
    var post' := members.after + tail;
    assert MembersThen(members, post) == MemberThen(m, post');
    StringParses(m.key, m.beforeColon + (":" + (m.afterColon + TreeThen(m.value, post'))));
    SkipWsThen(m.beforeColon, ":" + (m.afterColon + TreeThen(m.value, post')));
    assert (":" + (m.afterColon + TreeThen(m.value, post')))[1..] == m.afterColon + TreeThen(m.value, post');
    TreeStart(m.value, Loose, post');
    SkipWsThen(m.afterColon, TreeThen(m.value, post'));
    WsEndsNumber(members.after, tail);
    TreeParses(m.value, post');
    SkipWsThen(members.after, tail);
    if members.LastMember? {
      assert tail[1..] == post;
    } else {
      assert tail[1..] == members.before + MembersThen(members.rest, post);
      MembersStart(members.rest, post);
      SkipWsThen(members.before, MembersThen(members.rest, post));
      MembersParse(members.rest, post, before[Meanings(m.key) := ValueOf(m.value)]);
    }
  }

  // ------------------------------------- every parsed text is of the grammar

  /** A value that is not an array or object. */
  lemma ParsedLeaf(s: string) returns (t: Tree)
    requires ParseValue(s).Parsed? && s[0] != '{' && s[0] != '['
    ensures TreeOk(t, Loose) && NumbersFit(t)
    ensures s == TreeThen(t, ParseValue(s).rest) && ValueOf(t) == ParseValue(s).value
  {
    hide NumeralValue, InDoubleRange, ScanNumeral, ParseString, ParseObject, ParseArray, CharsOk, Meanings;
    if s[0] == '"' {
      var chars := ParsedString(s);
      t := StringTree(chars);
    } else if s[0] == 't' {
      t := TrueTree;
      assert s == s[..4] + s[4..];
    } else if s[0] == 'f' {
      t := FalseTree;
      assert s == s[..5] + s[5..];
    } else if s[0] == 'n' {
      t := NullTree;
      assert s == s[..4] + s[4..];
    } else {
      ScannedNumeral(s);
      t := NumberTree(ScanNumeral(s).value);
    }
  }

  lemma ParsedNotEmpty(s: string)
    ensures ParseValue(s).Parsed? ==> s != ""
  {
    hide ParseObject, ParseArray, ParseString, ParseNumber, ParseLiteral;
  }

  lemma {:induction false} ParsedValue(s: string) returns (t: Tree)
    requires ParseValue(s).Parsed?
    ensures TreeOk(t, Loose) && NumbersFit(t)
    ensures s == TreeThen(t, ParseValue(s).rest) && ValueOf(t) == ParseValue(s).value
    decreases |s|, 2
  {
    hide ParseValue, TreeOk, NumbersFit, TreeThen, ValueOf;
    ParsedNotEmpty(s);
    if s[0] == '{' {
      t := ParsedObject(s);
    } else if s[0] == '[' {
      t := ParsedArray(s);
    } else {
      t := ParsedLeaf(s);
    }
  }

  lemma {:induction false} ParsedObject(s: string) returns (t: Tree)
    requires ParseValue(s).Parsed? && s[0] == '{'
    ensures TreeOk(t, Loose) && NumbersFit(t)
    ensures s == TreeThen(t, ParseValue(s).rest) && ValueOf(t) == ParseValue(s).value
    decreases |s|, 1
  {
    hide ParseArray, ParseMembers, ParseString, ParseNumber, ParseLiteral, NumeralThen, StringThen, NumeralOk, CharsOk,
         MembersOk, MembersThen, MemberValues, MemberNumbersFit, ItemsOk, ItemsThen, ItemValues, ItemNumbersFit;
    var rest := ParseValue(s).rest;
    var t1 := SkipWs(s[1..]);
    var lead := SkippedWs(s[1..]);
    assert s == "{" + s[1..];
    if t1 != "" && t1[0] == '}' {
      t := EmptyObject(lead);
      assert t1 == "}" + rest;
    } else {
      var members := ParsedMembers(t1, map[]);
      t := ObjectTree(lead, members);
    }
  }

  lemma {:induction false} ParsedArray(s: string) returns (t: Tree)
    requires ParseValue(s).Parsed? && s[0] == '['
    ensures TreeOk(t, Loose) && NumbersFit(t)
    ensures s == TreeThen(t, ParseValue(s).rest) && ValueOf(t) == ParseValue(s).value
    decreases |s|, 1
  {
    hide ParseObject, ParseItems, ParseString, ParseNumber, ParseLiteral, NumeralThen, StringThen, NumeralOk, CharsOk,
         MembersOk, MembersThen, MemberValues, MemberNumbersFit, ItemsOk, ItemsThen, ItemValues, ItemNumbersFit;
    var rest := ParseValue(s).rest;
    var t1 := SkipWs(s[1..]);
    var lead := SkippedWs(s[1..]);
    assert s == "[" + s[1..];
    if t1 != "" && t1[0] == ']' {
      t := EmptyArray(lead);
      assert t1 == "]" + rest;
    } else {
      var items := ParsedItems(t1, []);
      t := ArrayTree(lead, items);
    }
  }

  lemma {:induction false} ParsedItems(s: string, before: seq<Json>) returns (items: Items)
    requires ParseItems(s, before).Parsed?
    ensures ItemsOk(items, Loose) && ItemNumbersFit(items)
    ensures s == ItemsThen(items, ParseItems(s, before).rest)
    ensures ParseItems(s, before).value == Array(ItemValues(items, before))
    decreases |s|, 3
  {
    hide ParseValue, TreeOk, NumbersFit, TreeThen, ValueOf;
    var rest := ParseItems(s, before).rest;
    var t := ParsedValue(s);
    var afterValue := ParseValue(s).rest;
    var u := SkipWs(afterValue);
    var after := SkippedWs(afterValue);
    assert u == [u[0]] + u[1..];
    if u[0] == ']' {
      items := LastItem(t, after);
    } else {
      var next := SkipWs(u[1..]);
      var gap := SkippedWs(u[1..]);
      var more := ParsedItems(next, before + [ValueOf(t)]);
      items := MoreItems(t, after, gap, more);
    }
  }

  /** Key, colon and value of one member, given the tree of the value. */
  lemma ParsedKeyAndColon(s: string) returns (key: seq<StrChar>, beforeColon: string, afterColon: string, v: string)
    requires ParseString(s).Parsed?
    requires var t := SkipWs(ParseString(s).rest); t != "" && t[0] == ':'
    ensures v == SkipWs(SkipWs(ParseString(s).rest)[1..])
    ensures CharsOk(key, Loose) && WsOk(beforeColon) && WsOk(afterColon) && Meanings(key) == ParseString(s).value
    ensures s == StringThen(key, beforeColon + (":" + (afterColon + v)))
  {
    hide ParseString, CharsOk, Meanings, StringThen;
    key := ParsedString(s);
    var afterKey := ParseString(s).rest;
    beforeColon := SkippedWs(afterKey);
    var colon := SkipWs(afterKey);
    assert colon == [colon[0]] + colon[1..];
    afterColon := SkippedWs(colon[1..]);
    v := SkipWs(colon[1..]);
  }

  lemma {:induction false} ParsedMembers(s: string, before: map<string, Json>) returns (members: Members)
    requires ParseMembers(s, before).Parsed?
    ensures MembersOk(members, Loose) && MemberNumbersFit(members)
    ensures s == MembersThen(members, ParseMembers(s, before).rest)
    ensures ParseMembers(s, before).value == Object(MemberValues(members, before))
    decreases |s|, 1
  {
    hide ParseValue, ParseString, TreeOk, NumbersFit, TreeThen, ValueOf, CharsOk, Meanings, StringThen;
    var rest := ParseMembers(s, before).rest;
    var key, beforeColon, afterColon, v := ParsedKeyAndColon(s);
    var t := ParsedValue(v);
    var afterValue := ParseValue(v).rest;
    var u := SkipWs(afterValue);
    var after := SkippedWs(afterValue);
    assert u == [u[0]] + u[1..];
    var m := Member(key, beforeColon, afterColon, t);
    if u[0] == '}' {
      members := LastMember(m, after);
    } else {
      var next := SkipWs(u[1..]);
      var gap := SkippedWs(u[1..]);
      var more := ParsedMembers(next, before[Meanings(key) := ValueOf(t)]);
      members := MoreMembers(m, after, gap, more);
    }
  }

  // --------------------------------------------------------------- the theorem

  /** JSON-text of section 2: a value with whitespace on both sides. */
  ghost function DocumentText(before: string, t: Tree, after: string): string {
    before + TreeThen(t, after)
  }

  ghost predicate DocumentOk(before: string, t: Tree, after: string, level: Level) {
    WsOk(before) && TreeOk(t, level) && WsOk(after) && NumbersFit(t)
  }

  lemma DocumentParses(before: string, t: Tree, after: string)
    requires DocumentOk(before, t, after, Loose)
    ensures ParseJson(DocumentText(before, t, after)) == Success(ValueOf(t))
  {
    hide ParseValue, TreeThen, ValueOf, NumbersFit;
    TreeStart(t, Loose, after);
    SkipWsThen(before, TreeThen(t, after));
    assert after + "" == after;
    WsEndsNumber(after, "");
    TreeParses(t, after);
    SkipWsThen(after, "");
  }

  lemma ParsedDocument(s: string) returns (before: string, t: Tree, after: string)
    requires ParseJson(s).Success?
    ensures DocumentOk(before, t, after, Loose) && s == DocumentText(before, t, after)
    ensures ParseJson(s) == Success(ValueOf(t))
  {
    hide ParseValue, TreeThen, ValueOf, NumbersFit, TreeOk;
    before := SkippedWs(s);
    t := ParsedValue(SkipWs(s));
    var rest := ParseValue(SkipWs(s)).rest;
    after := SkippedWs(rest);
    assert after + "" == after;
  }

  /** A text as the parser accepts it, with the value that the parser gives it. */
  ghost predicate Denotes(s: string, v: Json) {
    exists before, t, after ::
      DocumentOk(before, t, after, Loose) && s == DocumentText(before, t, after) && ValueOf(t) == v
  }

  /** The parser succeeds with a value exactly on the texts that denote it. */
  lemma ParserAcceptsTheGrammar(s: string, v: Json)
    ensures ParseJson(s) == Success(v) <==> Denotes(s, v)
  {
    hide ParseJson, DocumentOk, DocumentText, ValueOf;
    if ParseJson(s) == Success(v) {
      var before, t, after := ParsedDocument(s);
      assert DocumentOk(before, t, after, Loose) && s == DocumentText(before, t, after) && ValueOf(t) == v;
    }
    if before, t, after :|
      DocumentOk(before, t, after, Loose) && s == DocumentText(before, t, after) && ValueOf(t) == v {
      DocumentParses(before, t, after);
    }
  }

  // --------------------------------------------------- levels of unicode escapes

  /** Four hexadecimal digits are read completely by strtol, as the number that they denote. */
  lemma HexDigitsAreRead(hex: string)
    requires IsHex4(hex)
    ensures HexCode(hex) == HexNumber(hex)
  {
    IndexOfIs(hex, '\0', 4);
    assert CStr(hex) == hex && SkipSpace(hex) == hex && SkipHexPrefix(hex, 16) == hex;
    assert forall i | 0 <= i < 4 :: DigitValue(hex[i]) == HexDigit(hex[i]) < 16;
    ReadDigits4(hex);
    HexNumber4(hex);
  }

  /** Four digits, most significant first. */
  function Digits4(hex: string): nat
    requires |hex| == 4
  {
    ((HexDigit(hex[0]) * 16 + HexDigit(hex[1])) * 16 + HexDigit(hex[2])) * 16 + HexDigit(hex[3])
  }

  lemma HexNumberSnoc(hex: string, c: char)
    ensures HexNumber(hex + [c]) == 16 * HexNumber(hex) + HexDigit(c)
  {
    assert (hex + [c])[..|hex|] == hex;
  }

  lemma HexNumber4(hex: string)
    requires |hex| == 4
    ensures HexNumber(hex) == Digits4(hex) < 0x1_0000
  {
    hide HexNumber, HexDigit;
    assert HexNumber("") == 0 by { HexNumberOfNothing(); }
    assert hex[..0] == "" && hex[..1] == hex[..0] + [hex[0]] && hex[..2] == hex[..1] + [hex[1]];
    assert hex[..3] == hex[..2] + [hex[2]] && hex == hex[..3] + [hex[3]];
    HexNumberSnoc(hex[..0], hex[0]);
    HexNumberSnoc(hex[..1], hex[1]);
    HexNumberSnoc(hex[..2], hex[2]);
    HexNumberSnoc(hex[..3], hex[3]);
  }

  lemma HexNumberOfNothing()
    ensures HexNumber("") == 0
  {
  }

  lemma ReadDigits4(hex: string)
    requires |hex| == 4 && forall i | 0 <= i < 4 :: DigitValue(hex[i]) == HexDigit(hex[i]) < 16
    ensures ReadDigits(hex, 16, 0) == (Digits4(hex), "")
  {
    var h1, h2, h3 := hex[1..], hex[2..], hex[3..];
    assert h1[1..] == h2 && h2[1..] == h3 && h3[1..] == "";
    ReadDigitsStep(hex, 0);
    ReadDigitsStep(h1, HexDigit(hex[0]));
    ReadDigitsStep(h2, HexDigit(hex[0]) * 16 + HexDigit(hex[1]));
    ReadDigitsStep(h3, (HexDigit(hex[0]) * 16 + HexDigit(hex[1])) * 16 + HexDigit(hex[2]));
  }

  lemma ReadDigitsStep(s: string, acc: nat)
    requires s != "" && 0 <= DigitValue(s[0]) < 16
    ensures ReadDigits(s, 16, acc) == ReadDigits(s[1..], 16, acc * 16 + DigitValue(s[0]))
  {
  }

  lemma CharsAreLoose(chars: seq<StrChar>, level: Level)
    requires CharsOk(chars, level)
    ensures CharsOk(chars, Loose)
  {
    hide HexCode, HexNumber;
    forall i | 0 <= i < |chars| ensures CharOk(chars[i], Loose) {
      assert CharOk(chars[i], level);
      if chars[i].Unicode? && level != Loose {
        HexDigitsAreRead(chars[i].hex);
      }
    }
  }

  lemma {:induction false} TreeIsLoose(t: Tree, level: Level)
    requires TreeOk(t, level)
    ensures TreeOk(t, Loose)
    decreases t, 1
  {
    hide CharsOk;
    match t
    case StringTree(chars) => CharsAreLoose(chars, level);
    case ArrayTree(_, items) => ItemsAreLoose(items, level);
    case ObjectTree(_, members) => MembersAreLoose(members, level);
    case _ =>
  }

  lemma {:induction false} ItemsAreLoose(items: Items, level: Level)
    requires ItemsOk(items, level)
    ensures ItemsOk(items, Loose)
    decreases items, 0
  {
    TreeIsLoose(items.value, level);
    if items.MoreItems? {
      ItemsAreLoose(items.rest, level);
    }
  }

  lemma {:induction false} MembersAreLoose(members: Members, level: Level)
    requires MembersOk(members, level)
    ensures MembersOk(members, Loose)
    decreases members, 0
  {
    CharsAreLoose(members.m.key, level);
    TreeIsLoose(members.m.value, level);
    if members.MoreMembers? {
      MembersAreLoose(members.rest, level);
    }
  }
}
