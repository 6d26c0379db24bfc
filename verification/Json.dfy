/**
  webd's JSON parser: the values it builds, the parser as a function on the rest of the input, and
  the recursive-descent class with its mutable cursor, which computes exactly that function.
  A number is kept as the exact decimal it denotes.
 */
module Json {
  import opened Text

  datatype Json =
    | Null
    | Bool(b: bool)
    | Number(value: real)
    | String(text: string)
    | Array(items: seq<Json>)
    | Object(fields: map<string, Json>)

  datatype Parse<+T> = Parsed(value: T, rest: string) | Failed(error: string)

  predicate IsWs(c: char) {
    c == ' ' || c == '\n' || c == '\r' || c == '\t'
  }

  function SkipWs(s: string): (r: string)
    ensures |r| <= |s| && (r == "" || !IsWs(r[0]))
  {
    if s != "" && IsWs(s[0]) then SkipWs(s[1..]) else s
  }

  // ---------------------------------------------------------------- numbers

  datatype Exponent = NoExponent | Exponent(mark: char, sign: string, digits: string)

  /** The parts of a number as they are written; an empty fraction means there is none. */
  datatype Numeral = Numeral(negative: bool, whole: string, fraction: string, exponent: Exponent)

  function SkipDigits(s: string): (r: string)
    ensures |r| <= |s| && (r == "" || !IsDigit(r[0]))
    ensures r == s[|s| - |r|..] && forall i | 0 <= i < |s| - |r| :: IsDigit(s[i])
  {
    if s != "" && IsDigit(s[0]) then SkipDigits(s[1..]) else s
  }

  predicate AllDigits(s: string) {
    forall i | 0 <= i < |s| :: IsDigit(s[i])
  }

  /** A maximal run of digits from the front. */
  function TakeDigits(s: string): (d: string)
    ensures AllDigits(d)
  {
    s[..|s| - |SkipDigits(s)|]
  }

  function ScanWhole(s: string): (p: Parse<string>)
    ensures p.Parsed? ==> |p.rest| < |s| && AllDigits(p.value)
    ensures p.Failed? ==> p.error == "invalid number"
  {
    if s == "" then Failed("invalid number")
    else if s[0] == '0' then Parsed("0", s[1..])
    else if !IsDigit(s[0]) then Failed("invalid number")
    else Parsed(TakeDigits(s), SkipDigits(s))
  }

  function ScanFraction(s: string): (p: Parse<string>)
    ensures p.Parsed? ==> |p.rest| <= |s| && AllDigits(p.value)
    ensures p.Failed? ==> p.error == "invalid number"
  {
    if s == "" || s[0] != '.' then Parsed("", s)
    else if |s| == 1 || !IsDigit(s[1]) then Failed("invalid number")
    else Parsed(TakeDigits(s[1..]), SkipDigits(s[1..]))
  }

  function ScanSign(s: string): (string, string) {
    if s != "" && (s[0] == '+' || s[0] == '-') then ([s[0]], s[1..]) else ("", s)
  }

  function ScanExponent(s: string): (p: Parse<Exponent>)
    ensures p.Parsed? ==> |p.rest| <= |s| && (p.value.Exponent? ==> AllDigits(p.value.digits))
    ensures p.Failed? ==> p.error == "invalid number"
  {
    if s == "" || (s[0] != 'e' && s[0] != 'E') then Parsed(NoExponent, s)
    else
      var (sign, t) := ScanSign(s[1..]);
      if t == "" || !IsDigit(t[0]) then Failed("invalid number")
      else Parsed(Exponent(s[0], sign, TakeDigits(t)), SkipDigits(t))
  }

  ghost predicate Readable(n: Numeral) {
    AllDigits(n.whole) && AllDigits(n.fraction) && (n.exponent.Exponent? ==> AllDigits(n.exponent.digits))
  }

  function ScanNumeral(s: string): (p: Parse<Numeral>)
    ensures p.Parsed? ==> |p.rest| < |s| && Readable(p.value)
  {
    var negative := s != "" && s[0] == '-';
    match ScanWhole(if negative then s[1..] else s)
    case Failed(e) => Failed(e)
    case Parsed(whole, s1) =>
      match ScanFraction(s1)
      case Failed(e) => Failed(e)
      case Parsed(fraction, s2) =>
        match ScanExponent(s2)
        case Failed(e) => Failed(e)
        case Parsed(exponent, s3) => Parsed(Numeral(negative, whole, fraction, exponent), s3)
  }

  /** Ten to any integer power. */
  function PowerOf10(e: int): real
    decreases if e < 0 then -e else e
  {
    if e == 0 then 1.0 else if e > 0 then 10.0 * PowerOf10(e - 1) else PowerOf10(e + 1) / 10.0
  }

  function ExponentValue(x: Exponent): int
    requires x.Exponent? ==> AllDigits(x.digits)
  {
    match x
    case NoExponent => 0
    case Exponent(_, sign, digits) => if sign == "-" then 0 - DigitsToNat(digits) else DigitsToNat(digits)
  }

  /** The decimal number that a numeral denotes. */
  function NumeralValue(n: Numeral): real
    requires Readable(n)
  {
    AllDigitsAppend(n.whole, n.fraction);
    var magnitude := DigitsToNat(n.whole + n.fraction) as real * PowerOf10(ExponentValue(n.exponent) - |n.fraction|);
    if n.negative then -magnitude else magnitude
  }

  lemma AllDigitsAppend(a: string, b: string)
    requires AllDigits(a) && AllDigits(b)
    ensures AllDigits(a + b)
  {
  }

  lemma PowerStep(e: int)
    ensures PowerOf10(0) == 1.0 && PowerOf10(e + 1) == 10.0 * PowerOf10(e)
  {
  }

  lemma TenTimes(x: real, y: real)
    ensures 10.0 * (x * y) == x * (10.0 * y)
  {
  }

  lemma {:induction false} PowersOf10(a: int, b: int)
    ensures PowerOf10(a + b) == PowerOf10(a) * PowerOf10(b)
    decreases if b < 0 then -b else b
  {
    hide PowerOf10;
    PowerStep(b);
    if b > 0 {
      PowersOf10(a, b - 1);
      PowerStep(a + (b - 1));
      PowerStep(b - 1);
      TenTimes(PowerOf10(a), PowerOf10(b - 1));
    } else if b < 0 {
      PowersOf10(a, b + 1);
      PowerStep(a + b);
      TenTimes(PowerOf10(a), PowerOf10(b));
    }
  }

  /** A whole number denotes itself, and a minus sign its negative. */
  lemma WholeIsItself(whole: string)
    requires AllDigits(whole)
    ensures NumeralValue(Numeral(false, whole, "", NoExponent)) == DigitsToNat(whole) as real
  {
    hide DigitsToNat, PowerOf10;
    PowerStep(0);
    assert whole + "" == whole;
  }

  lemma DigitsSnoc(digits: string, d: char)
    requires AllDigits(digits) && IsDigit(d)
    ensures AllDigits(digits + [d]) && DigitsToNat(digits + [d]) == 10 * DigitsToNat(digits) + (d as int - '0' as int)
  {
    assert (digits + [d])[..|digits|] == digits;
  }

  lemma ShiftedSum(n: int, d: int, p: real)
    ensures (10 * n + d) as real * p == n as real * (10.0 * p) + d as real * p
  {
    assert (10 * n + d) as real == 10.0 * n as real + d as real;
  }

  /** A further digit of the fraction counts a tenth of the place before it. */
  lemma FractionDigit(whole: string, fraction: string, d: char)
    requires AllDigits(whole) && AllDigits(fraction) && IsDigit(d)
    ensures AllDigits(fraction + [d])
    ensures NumeralValue(Numeral(false, whole, fraction + [d], NoExponent))
         == NumeralValue(Numeral(false, whole, fraction, NoExponent))
            + (d as int - '0' as int) as real * PowerOf10(-1 - |fraction|)
  {
    hide NumeralValue, DigitsToNat, PowerOf10;
    AllDigitsAppend(whole, fraction);
    var digits, e := whole + fraction, -1 - |fraction|;
    assert whole + (fraction + [d]) == digits + [d];
    DigitsSnoc(digits, d);
    ValueWithoutExponent(whole, fraction, digits, e + 1);
    ValueWithoutExponent(whole, fraction + [d], digits + [d], e);
    PowerStep(e);
    ShiftedSum(DigitsToNat(digits), d as int - '0' as int, PowerOf10(e));
  }

  lemma ValueWithoutExponent(whole: string, fraction: string, digits: string, e: int)
    requires AllDigits(whole) && AllDigits(fraction) && AllDigits(digits)
    requires digits == whole + fraction && e == -|fraction|
    ensures NumeralValue(Numeral(false, whole, fraction, NoExponent)) == DigitsToNat(digits) as real * PowerOf10(e)
  {
    hide DigitsToNat, PowerOf10;
  }

  lemma ThreeFactors(a: real, b: real, c: real)
    ensures a * (b * c) == (a * c) * b
  {
  }

  /** An exponent moves the point: to the right, or with a minus sign to the left; and a sign negates. */
  lemma ExponentMoves(n: Numeral, sign: string, digits: string)
    requires Readable(n) && n.exponent == NoExponent && !n.negative && AllDigits(digits)
    ensures NumeralValue(n.(exponent := Exponent('e', sign, digits)))
         == NumeralValue(n) * PowerOf10(if sign == "-" then 0 - DigitsToNat(digits) else DigitsToNat(digits))
    ensures NumeralValue(n.(negative := true)) == -NumeralValue(n)
  {
    hide DigitsToNat, PowerOf10;
    AllDigitsAppend(n.whole, n.fraction);
    var e := if sign == "-" then 0 - DigitsToNat(digits) else DigitsToNat(digits);
    PowersOf10(e, -|n.fraction|);
    assert e + -|n.fraction| == e - |n.fraction| && 0 - |n.fraction| == -|n.fraction|;
    ThreeFactors(DigitsToNat(n.whole + n.fraction) as real, PowerOf10(e), PowerOf10(-|n.fraction|));
  }

  function PowerOf2(e: nat): (p: nat)
    ensures p >= 1
  {
    if e == 0 then 1 else 2 * PowerOf2(e - 1)
  }

  /** From this magnitude on, rounding to the nearest double gives infinity. */
  function Overflow(): (m: nat)
  {
    PowerOf2(970) * (PowerOf2(54) - 1)
  }

  predicate InDoubleRange(x: real) {
    -(Overflow() as real) < x < Overflow() as real
  }

  function ParseNumber(s: string): (p: Parse<real>)
    ensures p.Parsed? ==> |p.rest| < |s|
  {
    match ScanNumeral(s)
    case Failed(e) => Failed(e)
    case Parsed(n, rest) =>
      if InDoubleRange(NumeralValue(n)) then Parsed(NumeralValue(n), rest) else Failed("invalid number")
  }

  // ---------------------------------------------------------------- strings

  /** The one-character escapes. */
  function EscapeMeaning(c: char): (m: char)
    requires IsEscape(c)
  {
    match c
    case 'b' => '\U{08}'
    case 'f' => '\U{0c}'
    case 'n' => '\n'
    case 'r' => '\r'
    case 't' => '\t'
    case _ => c
  }

  predicate IsEscape(c: char) {
    c == '"' || c == '\\' || c == '/' || c == 'b' || c == 'f' || c == 'n' || c == 'r' || c == 't'
  }

  /** `strtol` over the four characters after backslash and u; None if it rejects them. */
  function HexCode(hex: string): int {
    var (code, rest) := Strtol(hex, 16);
    if rest != "" || code < 0 then -1 else code
  }

  function CodeChar(code: nat): char {
    if code < 0x80 then code as char else '?'
  }

  function ParseChars(s: string, out: string): (p: Parse<string>)
    ensures p.Parsed? ==> |p.rest| < |s|
    decreases |s|
  {
    if s == "" then Failed("unterminated string")
    else if s[0] == '"' then Parsed(out, s[1..])
    else if s[0] == '\\' then
      if |s| == 1 then Failed("invalid escape")
      else if IsEscape(s[1]) then ParseChars(s[2..], out + [EscapeMeaning(s[1])])
      else if s[1] == 'u' then
        if |s| < 6 || HexCode(s[2..6]) < 0 then Failed("invalid unicode escape")
        else ParseChars(s[6..], out + [CodeChar(HexCode(s[2..6]))])
      else Failed("unsupported escape sequence")
    else if s[0] < ' ' then Failed("control character in string")
    else ParseChars(s[1..], out + [s[0]])
  }

  function ParseString(s: string): (p: Parse<string>)
    ensures p.Parsed? ==> |p.rest| < |s|
  {
    if s == "" || s[0] != '"' then Failed("expected string") else ParseChars(s[1..], "")
  }

  // ----------------------------------------------------------------- values

  function ParseLiteral(s: string, literal: string, value: Json): (p: Parse<Json>)
    requires literal != ""
    ensures p.Parsed? ==> |p.rest| < |s|
  {
    if |literal| > |s| then Failed("unexpected end of json")
    else if s[..|literal|] != literal then Failed("invalid literal")
    else Parsed(value, s[|literal|..])
  }

  function ParseValue(s: string): (p: Parse<Json>)
    ensures p.Parsed? ==> |p.rest| < |s|
    decreases |s|, 2
  {
    if s == "" then Failed("unexpected end of json")
    else if s[0] == '{' then ParseObject(s)
    else if s[0] == '[' then ParseArray(s)
    else if s[0] == '"' then
      (match ParseString(s)
       case Failed(e) => Failed(e)
       case Parsed(text, rest) => Parsed(String(text), rest))
    else if s[0] == 't' then ParseLiteral(s, "true", Bool(true))
    else if s[0] == 'f' then ParseLiteral(s, "false", Bool(false))
    else if s[0] == 'n' then ParseLiteral(s, "null", Null)
    else if s[0] == '-' || IsDigit(s[0]) then
      (match ParseNumber(s)
       case Failed(e) => Failed(e)
       case Parsed(x, rest) => Parsed(Number(x), rest))
    else Failed("unexpected token")
  }

  function ParseObject(s: string): (p: Parse<Json>)
    requires s != ""
    ensures p.Parsed? ==> |p.rest| < |s|
    decreases |s|, 1
  {
    var t := SkipWs(s[1..]);
    if t != "" && t[0] == '}' then Parsed(Object(map[]), t[1..]) else ParseMembers(t, map[])
  }

  /** The loop of `ParseObject`; a repeated key keeps its last value. */
  function ParseMembers(s: string, fields: map<string, Json>): (p: Parse<Json>)
    ensures p.Parsed? ==> |p.rest| < |s|
    decreases |s|, 1
  {
    if s == "" then Failed("unterminated object")
    else
      match ParseString(s)
      case Failed(e) => Failed(e)
      case Parsed(key, afterKey) =>
        var t := SkipWs(afterKey);
        if t == "" || t[0] != ':' then Failed("expected ':' in object")
        else
          match ParseValue(SkipWs(t[1..]))
          case Failed(e) => Failed(e)
          case Parsed(v, afterValue) =>
            var u := SkipWs(afterValue);
            if u == "" then Failed("unterminated object")
            else if u[0] == '}' then Parsed(Object(fields[key := v]), u[1..])
            else if u[0] != ',' then Failed("expected ',' in object")
            else ParseMembers(SkipWs(u[1..]), fields[key := v])
  }

  function ParseArray(s: string): (p: Parse<Json>)
    requires s != ""
    ensures p.Parsed? ==> |p.rest| < |s|
    decreases |s|, 1
  {
    var t := SkipWs(s[1..]);
    if t != "" && t[0] == ']' then Parsed(Array([]), t[1..]) else ParseItems(t, [])
  }

  /** The loop of `ParseArray`. */
  function ParseItems(s: string, items: seq<Json>): (p: Parse<Json>)
    ensures p.Parsed? ==> |p.rest| < |s|
    decreases |s|, 3
  {
    if s == "" then Failed("unterminated array")
    else
      match ParseValue(s)
      case Failed(e) => Failed(e)
      case Parsed(v, afterValue) =>
        var u := SkipWs(afterValue);
        if u == "" then Failed("unterminated array")
        else if u[0] == ']' then Parsed(Array(items + [v]), u[1..])
        else if u[0] != ',' then Failed("expected ',' in array")
        else ParseItems(SkipWs(u[1..]), items + [v])
  }

  datatype ParseResult = Success(value: Json) | Failure(error: string)

  function ParseJson(s: string): ParseResult {
    match ParseValue(SkipWs(s))
    case Failed(e) => Failure(if e == "" then "invalid json" else e)
    case Parsed(v, rest) => if SkipWs(rest) == "" then Success(v) else Failure("unexpected trailing characters")
  }
}
