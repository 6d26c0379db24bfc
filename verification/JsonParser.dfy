/**
  The parser class of json.cpp: one cursor that every method advances.  Each method is proved to
  compute the parsing function of module `Json` on the rest of the input, so it terminates, never
  reads past the end, and leaves the cursor exactly behind what it accepted.
 */
module JsonParser {
  import opened Text
  import opened Json
  import opened JsonGrammar

  class Parser {
    const input: string
    var position: nat

    ghost predicate Valid()
      reads this
    {
      position <= |input|
    }

    function Rest(): (r: string)
      reads this
      requires Valid()
      ensures |r| == |input| - position
    {
      input[position..]
    }

    constructor (input: string)
      ensures Valid() && this.input == input && Rest() == input
    {
      this.input := input;
      this.position := 0;
    }

    predicate AtEnd()
      reads this
      requires Valid()
      ensures AtEnd() <==> Rest() == ""
    {
      position >= |input|
    }

    function Peek(): (c: char)
      reads this
      requires Valid() && !AtEnd()
      ensures c == Rest()[0]
    {
      input[position]
    }

    method Consume() returns (c: char)
      requires Valid() && !AtEnd()
      modifies this`position
      ensures Valid() && c == old(Rest())[0] && Rest() == old(Rest())[1..]
    {
      c := input[position];
      position := position + 1;
    }

    method SkipWhitespace()
      requires Valid()
      modifies this`position
      ensures Valid() && Rest() == SkipWs(old(Rest()))
    {
      while !AtEnd()
        invariant Valid() && SkipWs(Rest()) == SkipWs(old(Rest()))
        decreases |input| - position
      {
        var c := Peek();
        if c == ' ' || c == '\n' || c == '\r' || c == '\t' {
          var _ := Consume();
          continue;
        }
        break;
      }
    }

    /** How a method reports the outcome of a parsing function that ran on `before`. */
    ghost predicate Reports<T>(p: Parse<T>, ok: bool, value: T, error: string)
      reads this
    {
      && Valid()
      && match p
         case Parsed(v, rest) => ok && value == v && Rest() == rest
         case Failed(e) => !ok && error == e
    }

    // ------------------------------------------------------------- numbers

    method ConsumeDigits()
      requires Valid()
      modifies this`position
      ensures Valid() && Rest() == SkipDigits(old(Rest()))
      ensures old(position) <= position
    {
      while !AtEnd() && IsDigit(Peek())
        invariant Valid() && SkipDigits(Rest()) == SkipDigits(old(Rest())) && old(position) <= position
        decreases |input| - position
      {
        var _ := Consume();
      }
    }

    method ConsumeWhole() returns (ok: bool)
      requires Valid()
      modifies this`position
      ensures Valid() && old(position) <= position
      ensures var p := ScanWhole(old(Rest())); if p.Parsed? then ok && Rest() == p.rest else !ok
    {
      if AtEnd() {
        return false;
      }
      if Peek() == '0' {
        var _ := Consume();
      } else {
        if !IsDigit(Peek()) {
          return false;
        }
        ConsumeDigits();
      }
      ok := true;
    }

    method ConsumeFraction() returns (ok: bool)
      requires Valid()
      modifies this`position
      ensures Valid() && old(position) <= position
      ensures var p := ScanFraction(old(Rest())); if p.Parsed? then ok && Rest() == p.rest else !ok
    {
      if !AtEnd() && Peek() == '.' {
        var _ := Consume();
        if AtEnd() || !IsDigit(Peek()) {
          return false;
        }
        ConsumeDigits();
      }
      ok := true;
    }

    method ConsumeExponent() returns (ok: bool)
      requires Valid()
      modifies this`position
      ensures Valid() && old(position) <= position
      ensures var p := ScanExponent(old(Rest())); if p.Parsed? then ok && Rest() == p.rest else !ok
    {
      if !AtEnd() && (Peek() == 'e' || Peek() == 'E') {
        var _ := Consume();
        if !AtEnd() && (Peek() == '+' || Peek() == '-') {
          var _ := Consume();
        }
        if AtEnd() || !IsDigit(Peek()) {
          return false;
        }
        ConsumeDigits();
      }
      ok := true;
    }

    method ParseNumberAt() returns (ok: bool, value: real, error: string)
      requires Valid()
      modifies this`position
      ensures Reports(ParseNumber(old(Rest())), ok, value, error)
    {
      hide NumeralValue, InDoubleRange, ScanWhole, ScanFraction, ScanExponent;
      value, error := 0.0, "";
      var start := position;
      if !AtEnd() && Peek() == '-' {
        var _ := Consume();
      }
      var good := ConsumeWhole();
      if !good {
        return false, value, "invalid number";
      }
      good := ConsumeFraction();
      if !good {
        return false, value, "invalid number";
      }
      good := ConsumeExponent();
      if !good {
        return false, value, "invalid number";
      }
      assert input[start..position] == old(Rest())[..|old(Rest())| - |Rest()|];
      var num := input[start..position];
      LexemeScans(old(Rest()));
      var parsed := Strtod(num);
      if !InDoubleRange(parsed) {
        return false, value, "invalid number";
      }
      return true, parsed, "";
    }

    // ------------------------------------------------------------- strings

    method ParseStringAt() returns (ok: bool, value: string, error: string)
      requires Valid()
      modifies this`position
      ensures Reports(ParseString(old(Rest())), ok, value, error)
    {
      hide HexCode, IsEscape;
      value := "";
      if AtEnd() || Peek() != '"' {
        return false, value, "expected string";
      }
      var _ := Consume();
      var out := "";
      ghost var start := Rest();
      while !AtEnd()
        invariant Valid() && ParseChars(Rest(), out) == ParseChars(start, "")
        decreases |input| - position
      {
        ghost var s := Rest();
        var c := Consume();
        if c == '"' {
          return true, out, "";
        }
        if c == '\\' {
          if AtEnd() {
            return false, value, "invalid escape";
          }
          var esc := Consume();
          assert Rest() == s[2..];
          if IsEscape(esc) {
            out := out + [EscapeMeaning(esc)];
          } else if esc == 'u' {
            if position + 4 > |input| {
              return false, value, "invalid unicode escape";
            }
            var hex := input[position..position + 4];
            assert hex == s[2..6];
            var code := HexCode(hex);
            if code < 0 {
              return false, value, "invalid unicode escape";
            }
            position := position + 4;
            assert Rest() == s[6..];
            out := out + [CodeChar(code)];
          } else {
            return false, value, "unsupported escape sequence";
          }
          continue;
        }
        if c < ' ' {
          return false, value, "control character in string";
        }
        out := out + [c];
      }
      return false, value, "unterminated string";
    }

    // -------------------------------------------------------------- values

    method ParseLiteralAt(literal: string, value: Json) returns (ok: bool, out: Json, error: string)
      requires Valid() && literal != ""
      modifies this`position
      ensures Reports(ParseLiteral(old(Rest()), literal, value), ok, out, error)
    {
      out := Null;
      if position + |literal| > |input| {
        return false, out, "unexpected end of json";
      }
      assert input[position..position + |literal|] == Rest()[..|literal|];
      if input[position..position + |literal|] != literal {
        return false, out, "invalid literal";
      }
      position := position + |literal|;
      return true, value, "";
    }

    method ParseValueAt() returns (ok: bool, value: Json, error: string)
      requires Valid()
      modifies this`position
      ensures Reports(ParseValue(old(Rest())), ok, value, error)
      decreases |input| - position, 2
    {
      hide ParseNumber, ParseString, ParseLiteral, ParseMembers, ParseItems;
      value := Null;
      if AtEnd() {
        return false, value, "unexpected end of json";
      }
      var c := Peek();
      if c == '{' {
        ok, value, error := ParseObjectAt();
      } else if c == '[' {
        ok, value, error := ParseArrayAt();
      } else if c == '"' {
        var text;
        ok, text, error := ParseStringAt();
        value := String(text);
      } else if c == 't' {
        ok, value, error := ParseLiteralAt("true", Bool(true));
      } else if c == 'f' {
        ok, value, error := ParseLiteralAt("false", Bool(false));
      } else if c == 'n' {
        ok, value, error := ParseLiteralAt("null", Null);
      } else if c == '-' || IsDigit(c) {
        var x;
        ok, x, error := ParseNumberAt();
        value := Number(x);
      } else {
        return false, value, "unexpected token";
      }
    }

    method ParseObjectAt() returns (ok: bool, value: Json, error: string)
      requires Valid() && !AtEnd()
      modifies this`position
      ensures Reports(ParseObject(old(Rest())), ok, value, error)
      decreases |input| - position, 1
    {
      hide ParseString, ParseValue;
      value := Null;
      ghost var first := Rest();
      var _ := Consume();
      SkipWhitespace();
      var fields: map<string, Json> := map[];
      if !AtEnd() && Peek() == '}' {
        var _ := Consume();
        return true, Object(fields), "";
      }
      ghost var start := Rest();
      assert ParseObject(first) == ParseMembers(start, map[]);
      while !AtEnd()
        invariant Valid() && old(position) < position && ParseMembers(Rest(), fields) == ParseMembers(start, map[])
        decreases |input| - position
      {
        var key;
        ok, key, error := ParseStringAt();
        if !ok {
          return;
        }
        SkipWhitespace();
        if AtEnd() || Peek() != ':' {
          return false, value, "expected ':' in object";
        }
        var _ := Consume();
        SkipWhitespace();
        var parsed;
        ok, parsed, error := ParseValueAt();
        if !ok {
          return;
        }
        fields := fields[key := parsed];
        SkipWhitespace();
        if AtEnd() {
          return false, value, "unterminated object";
        }
        if Peek() == '}' {
          var _ := Consume();
          return true, Object(fields), "";
        }
        if Peek() != ',' {
          return false, value, "expected ',' in object";
        }
        var _ := Consume();
        SkipWhitespace();
      }
      return false, value, "unterminated object";
    }

    method ParseArrayAt() returns (ok: bool, value: Json, error: string)
      requires Valid() && !AtEnd()
      modifies this`position
      ensures Reports(ParseArray(old(Rest())), ok, value, error)
      decreases |input| - position, 1
    {
      hide ParseValue;
      value := Null;
      ghost var first := Rest();
      var _ := Consume();
      SkipWhitespace();
      var items: seq<Json> := [];
      if !AtEnd() && Peek() == ']' {
        var _ := Consume();
        return true, Array(items), "";
      }
      ghost var start := Rest();
      assert ParseArray(first) == ParseItems(start, []);
      while !AtEnd()
        invariant Valid() && old(position) < position && ParseItems(Rest(), items) == ParseItems(start, [])
        decreases |input| - position
      {
        var parsed;
        ok, parsed, error := ParseValueAt();
        if !ok {
          return;
        }
        items := items + [parsed];
        SkipWhitespace();
        if AtEnd() {
          return false, value, "unterminated array";
        }
        if Peek() == ']' {
          var _ := Consume();
          return true, Array(items), "";
        }
        if Peek() != ',' {
          return false, value, "expected ',' in array";
        }
        var _ := Consume();
        SkipWhitespace();
      }
      return false, value, "unterminated array";
    }

    method Parse() returns (r: ParseResult)
      requires Valid()
      modifies this`position
      ensures r == ParseJson(old(Rest()))
    {
      hide ParseValue;
      SkipWhitespace();
      var ok, value, error := ParseValueAt();
      if !ok {
        return Failure(if error == "" then "invalid json" else error);
      }
      SkipWhitespace();
      if !AtEnd() {
        return Failure("unexpected trailing characters");
      }
      return Success(value);
    }
  }

  /** `strtod` on a lexeme that the scanner accepted. */
  function Strtod(lexeme: string): real {
    var p := ScanNumeral(lexeme);
    if p.Parsed? then NumeralValue(p.value) else 0.0
  }

  /** Scanning just the accepted lexeme gives the same numeral. */
  lemma LexemeScans(s: string)
    requires ScanNumeral(s).Parsed?
    ensures var p := ScanNumeral(s); ScanNumeral(s[..|s| - |p.rest|]) == Parsed(p.value, "")
  {
    hide ScanNumeral;
    var p := ScanNumeral(s);
    ScannedNumeral(s);
    NumeralThenIsAppend(p.value, p.rest);
    assert s[..|s| - |p.rest|] == NumeralThen(p.value, "");
    NumeralScans(p.value, "");
  }

  lemma NumeralThenIsAppend(n: Numeral, post: string)
    ensures NumeralThen(n, post) == NumeralThen(n, "") + post
  {
    assert ExponentThen(n.exponent, post) == ExponentThen(n.exponent, "") + post;
    var e := ExponentThen(n.exponent, "");
    assert FractionThen(n.fraction, e + post) == FractionThen(n.fraction, e) + post;
  }

  method ParseText(input: string) returns (r: ParseResult)
    ensures r == ParseJson(input)
  {
    var parser := new Parser(input);
    r := parser.Parse();
  }
}
