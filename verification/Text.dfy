/**
  The string helpers the configuration code is built from: trimming, searching, lines of a file,
  decimal numerals and C's strtol.  A char stands for one byte of a C++ string.
 */
module Text {

  // ---------------------------------------------------------------- trimming

  predicate IsBlank(c: char) {
    c == ' ' || c == '\t' || c == '\r' || c == '\n'
  }

  ghost predicate AllBlank(s: string) {
    forall i | 0 <= i < |s| :: IsBlank(s[i])
  }

  predicate Trimmed(s: string) {
    s == "" || (!IsBlank(s[0]) && !IsBlank(s[|s| - 1]))
  }

  function TrimLeft(s: string): string {
    if s != "" && IsBlank(s[0]) then TrimLeft(s[1..]) else s
  }

  function TrimRight(s: string): string {
    if s != "" && IsBlank(s[|s| - 1]) then TrimRight(s[..|s| - 1]) else s
  }

  function Trim(s: string): string {
    TrimRight(TrimLeft(s))
  }

  lemma {:induction false} TrimLeftSplit(s: string) returns (l: string)
    ensures s == l + TrimLeft(s) && AllBlank(l)
    ensures TrimLeft(s) == "" || !IsBlank(TrimLeft(s)[0])
  {
    if s != "" && IsBlank(s[0]) {
      var m := TrimLeftSplit(s[1..]);
      l := [s[0]] + m;
      assert s == [s[0]] + s[1..];
    } else {
      l := "";
    }
  }

  lemma {:induction false} TrimRightSplit(s: string) returns (r: string)
    ensures s == TrimRight(s) + r && AllBlank(r)
    ensures TrimRight(s) == "" || !IsBlank(TrimRight(s)[|TrimRight(s)| - 1])
  {
    if s != "" && IsBlank(s[|s| - 1]) {
      var m := TrimRightSplit(s[..|s| - 1]);
      r := m + [s[|s| - 1]];
      assert s == s[..|s| - 1] + [s[|s| - 1]];
    } else {
      r := "";
    }
  }

  /** Trimming removes blanks at the two ends and nothing else, and leaves no blank there. */
  lemma TrimSplit(s: string) returns (l: string, r: string)
    ensures s == l + Trim(s) + r && AllBlank(l) && AllBlank(r) && Trimmed(Trim(s))
  {
    l := TrimLeftSplit(s);
    r := TrimRightSplit(TrimLeft(s));
    if Trim(s) != "" {
      assert Trim(s)[0] == TrimLeft(s)[0];
    }
  }

  lemma {:induction false} TrimLeftOfBlanks(l: string, t: string)
    requires AllBlank(l) && (t == "" || !IsBlank(t[0]))
    ensures TrimLeft(l + t) == t
  {
    if l == "" {
      assert l + t == t;
    } else {
      assert (l + t)[1..] == l[1..] + t;
      TrimLeftOfBlanks(l[1..], t);
    }
  }

  lemma {:induction false} TrimRightOfBlanks(t: string, r: string)
    requires AllBlank(r) && (t == "" || !IsBlank(t[|t| - 1]))
    ensures TrimRight(t + r) == t
  {
    if r == "" {
      assert t + r == t;
    } else {
      assert (t + r)[..|t + r| - 1] == t + r[..|r| - 1];
      TrimRightOfBlanks(t, r[..|r| - 1]);
    }
  }

  /** The trimmed text is the only one that `TrimSplit` describes. */
  lemma TrimUnique(l: string, t: string, r: string)
    requires AllBlank(l) && AllBlank(r) && Trimmed(t)
    ensures Trim(l + t + r) == t
  {
    if t == "" {
      assert l + t + r == (l + r) + "";
      TrimLeftOfBlanks(l + r, "");
    } else {
      assert l + t + r == l + (t + r);
      TrimLeftOfBlanks(l, t + r);
      TrimRightOfBlanks(t, r);
    }
  }

  lemma TrimFixed(s: string)
    ensures Trim(s) == s <==> Trimmed(s)
  {
    var l, r := TrimSplit(s);
    if Trimmed(s) {
      assert "" + s + "" == s;
      TrimUnique("", s, "");
    }
  }

  lemma TrimKeepsChars(s: string, c: char)
    requires c in Trim(s)
    ensures c in s
  {
    var l, r := TrimSplit(s);
  }

  /** Blanks added at either end do not change the trimmed text. */
  lemma TrimAround(l: string, s: string, r: string)
    requires AllBlank(l) && AllBlank(r)
    ensures Trim(l + s + r) == Trim(s)
  {
    var a, b := TrimSplit(s);
    assert l + s + r == (l + a) + Trim(s) + (b + r);
    TrimUnique(l + a, Trim(s), b + r);
  }

  // --------------------------------------------------------------- searching

  /** `find`: the first position of `c`, or the length when there is none. */
  function IndexOf(s: string, c: char): (i: nat)
    ensures i <= |s|
    ensures i < |s| ==> s[i] == c
    ensures forall k | 0 <= k < i :: s[k] != c
  {
    if s == "" || s[0] == c then 0 else 1 + IndexOf(s[1..], c)
  }

  lemma IndexOfIs(s: string, c: char, i: nat)
    requires i <= |s| && (i < |s| ==> s[i] == c) && forall k | 0 <= k < i :: s[k] != c
    ensures IndexOf(s, c) == i
  {
    if IndexOf(s, c) < i {
      assert false;
    }
  }

  predicate StartsWith(s: string, prefix: string) {
    |prefix| <= |s| && s[..|prefix|] == prefix
  }

  /** A key and a value with blanks around them. */
  lemma TrimmedEntry(a: string, key: string, b: string, c: string, value: string, d: string)
    requires AllBlank(a) && AllBlank(b) && AllBlank(c) && AllBlank(d)
    requires Trimmed(key) && key != "" && '=' !in key && Trimmed(value) && value != ""
    ensures var t := Trim(a + key + b + "=" + c + value + d);
            && IndexOf(t, '=') == |key + b| < |t| && t[0] == key[0]
            && Trim(t[..|key + b|]) == key && Trim(t[|key + b| + 1..]) == value
  {
    hide Trim;
    var t := key + b + "=" + c + value;
    assert a + key + b + "=" + c + value + d == a + t + d;
    assert t[0] == key[0] && t[|t| - 1] == value[|value| - 1];
    TrimUnique(a, t, d);
    IndexOfIs(t, '=', |key + b|);
    assert t[..|key + b|] == "" + key + b && t[|key + b| + 1..] == c + value + "";
    TrimUnique("", key, b);
    TrimUnique(c, value, "");
  }

  // ------------------------------------------------------- lines of a file

  predicate LfFree(s: string) {
    '\n' !in s
  }

  ghost predicate LinesLfFree(lines: seq<string>) {
    forall i | 0 <= i < |lines| :: LfFree(lines[i])
  }

  /** What repeated `std::getline` delivers for a file with this content. */
  function Lines(content: string): (lines: seq<string>)
    ensures LinesLfFree(lines)
    decreases |content|
  {
    if content == "" then []
    else
      var i := IndexOf(content, '\n');
      if i == |content| then [content] else [content[..i]] + Lines(content[i + 1..])
  }

  /** Every line followed by a line feed. */
  function Terminated(lines: seq<string>): string {
    if lines == [] then "" else Terminated(lines[..|lines| - 1]) + lines[|lines| - 1] + "\n"
  }

  function Joined(lines: seq<string>): string {
    if lines == [] then "\n" else Terminated(lines)
  }

  method JoinLines(lines: seq<string>) returns (content: string)
    ensures content == Joined(lines)
  {
    content := "";
    for i := 0 to |lines|
      invariant content == Terminated(lines[..i])
    {
      assert lines[..i + 1][..i] == lines[..i];
      content := content + lines[i];
      content := content + "\n";
    }
    assert lines[..|lines|] == lines;
    if |lines| == 0 {
      content := content + "\n";
    }
  }

  method ReadAllLines(content: string) returns (lines: seq<string>)
    ensures lines == Lines(content)
  {
    lines := [];
    var rest := content;
    while rest != ""
      invariant Lines(content) == lines + Lines(rest)
      decreases |rest|
    {
      var i := IndexOf(rest, '\n');
      if i == |rest| {
        lines := lines + [rest];
        rest := "";
      } else {
        assert lines + ([rest[..i]] + Lines(rest[i + 1..])) == lines + [rest[..i]] + Lines(rest[i + 1..]);
        lines := lines + [rest[..i]];
        rest := rest[i + 1..];
      }
    }
  }

  lemma TerminatedCons(line: string, rest: seq<string>)
    ensures Terminated([line] + rest) == line + "\n" + Terminated(rest)
  {
    if rest == [] {
      assert [line] + rest == [line];
      assert [line][..0] == [];
    } else {
      var n := |rest| - 1;
      assert ([line] + rest)[..|rest|] == [line] + rest[..n];
      TerminatedCons(line, rest[..n]);
    }
  }

  lemma LinesOfTerminated(lines: seq<string>)
    requires LinesLfFree(lines)
    ensures Lines(Terminated(lines)) == lines
  {
    if lines != [] {
      var line, rest := lines[0], lines[1..];
      assert lines == [line] + rest;
      TerminatedCons(line, rest);
      var content := line + "\n" + Terminated(rest);
      IndexOfIs(content, '\n', |line|);
      assert content[|line| + 1..] == Terminated(rest);
      assert content[..|line|] == line;
      LinesOfTerminated(rest);
    }
  }

  /** The first line of a text and what follows it. */
  lemma FirstLine(line: string, rest: string)
    requires LfFree(line)
    ensures Lines(line + "\n" + rest) == [line] + Lines(rest)
  {
    var content := line + "\n" + rest;
    IndexOfIs(content, '\n', |line|);
    assert content[..|line|] == line && content[|line| + 1..] == rest;
  }

  /** A text that consists of finished lines. */
  predicate WholeLines(s: string) {
    s == "" || s[|s| - 1] == '\n'
  }

  lemma CutFirstLine(a: string) returns (line: string, rest: string)
    requires a != "" && WholeLines(a)
    ensures LfFree(line) && a == line + "\n" + rest && WholeLines(rest)
  {
    var i := IndexOf(a, '\n');
    line, rest := a[..i], a[i + 1..];
    assert a == a[..i] + [a[i]] + a[i + 1..];
  }

  lemma {:induction false} LinesAppend(a: string, b: string)
    requires WholeLines(a)
    ensures Lines(a + b) == Lines(a) + Lines(b)
    decreases |a|
  {
    if a == "" {
      assert a + b == b;
    } else {
      hide Lines;
      var line, rest := CutFirstLine(a);
      LinesAppend(rest, b);
      FirstLine(line, rest);
      FirstLine(line, rest + b);
      assert a + b == line + "\n" + (rest + b) by { Regroup(line + "\n", rest, b); }
      Regroup([line], Lines(rest), Lines(b));
    }
  }

  lemma Regroup<T>(a: seq<T>, b: seq<T>, c: seq<T>)
    ensures a + b + c == a + (b + c)
  {
  }

  lemma {:induction false} TerminatedAppend(a: seq<string>, b: seq<string>)
    ensures Terminated(a + b) == Terminated(a) + Terminated(b)
    decreases |b|
  {
    if b == [] {
      assert a + b == a;
    } else {
      var n := |b| - 1;
      assert (a + b)[..|a + b| - 1] == a + b[..n];
      TerminatedAppend(a, b[..n]);
    }
  }

  lemma TerminatedEnds(lines: seq<string>)
    ensures WholeLines(Terminated(lines))
  {
  }

  /**
    A list of lines survives being written and read back exactly when it is not empty (an empty
    list is written as one empty line) and no line contains a line feed.
   */
  lemma WrittenLinesReadBack(lines: seq<string>)
    ensures Lines(Joined(lines)) == lines <==> lines != [] && LinesLfFree(lines)
  {
    if lines == [] {
      assert Joined(lines) == "\n";
      IndexOfIs("\n", '\n', 0);
      assert |Lines("\n")| == 1;
    } else if LinesLfFree(lines) {
      LinesOfTerminated(lines);
    }
  }

  lemma WholeAfterLine(line: string, rest: string)
    ensures WholeLines(line + "\n" + rest) <==> WholeLines(rest)
  {
    var s := line + "\n" + rest;
    assert rest != "" ==> s[|s| - 1] == rest[|rest| - 1];
  }

  lemma LastLine(content: string)
    requires content != "" && LfFree(content)
    ensures Lines(content) == [content]
  {
    IndexOfIs(content, '\n', |content|);
  }

  lemma CutAtLf(content: string) returns (line: string, rest: string)
    requires !LfFree(content)
    ensures LfFree(line) && content == line + "\n" + rest
  {
    var i := IndexOf(content, '\n');
    line, rest := content[..i], content[i + 1..];
    assert content == content[..i] + [content[i]] + content[i + 1..];
  }

  /** The lines are the text: with a line feed after each, up to one that the last line may lack. */
  lemma {:induction false} LinesAreTheText(content: string)
    ensures Terminated(Lines(content)) == if WholeLines(content) then content else content + "\n"
    decreases |content|
  {
    if content == "" {
    } else if LfFree(content) {
      LastLine(content);
      OneTerminated(content);
    } else {
      hide Lines, Terminated, WholeLines;
      var line, rest := CutAtLf(content);
      LinesAreTheText(rest);
      FirstLine(line, rest);
      TerminatedCons(line, Lines(rest));
      WholeAfterLine(line, rest);
      Regroup(line + "\n", rest, "\n");
    }
  }

  lemma OneTerminated(line: string)
    ensures Terminated([line]) == line + "\n"
  {
    assert [line][..0] == [] && "" + line == line;
  }

  // ------------------------------------------------------------ letter case

  function LowerChar(c: char): char {
    if 'A' <= c <= 'Z' then c - 'A' + 'a' else c
  }

  function ToLower(s: string): (t: string)
    ensures |t| == |s| && forall i | 0 <= i < |s| :: t[i] == LowerChar(s[i])
  {
    seq(|s|, i requires 0 <= i < |s| => LowerChar(s[i]))
  }

  /** The same letter, capital or small. */
  predicate SameLetter(a: char, b: char) {
    || a == b
    || ('A' <= a <= 'Z' && b as int == a as int + 32)
    || ('A' <= b <= 'Z' && a as int == b as int + 32)
  }

  /** Equal but for the case of letters. */
  predicate SameText(a: string, b: string) {
    |a| == |b| && forall i | 0 <= i < |a| :: SameLetter(a[i], b[i])
  }

  lemma LowerLetters(a: char, b: char)
    ensures LowerChar(a) == LowerChar(b) <==> SameLetter(a, b)
  {
  }

  /** Comparing in lower case is comparing without regard to case. */
  lemma LowerTexts(a: string, b: string)
    ensures ToLower(a) == ToLower(b) <==> SameText(a, b)
  {
    hide LowerChar, SameLetter;
    forall i | 0 <= i < |a| && i < |b| ensures LowerChar(a[i]) == LowerChar(b[i]) <==> SameLetter(a[i], b[i]) {
      LowerLetters(a[i], b[i]);
    }
    if ToLower(a) == ToLower(b) {
      forall i | 0 <= i < |a| ensures SameLetter(a[i], b[i]) {
        assert ToLower(a)[i] == ToLower(b)[i];
      }
    }
  }

  // -------------------------------------------------------------- numerals

  predicate IsDigit(c: char) {
    '0' <= c <= '9'
  }

  function DigitChar(d: int): (c: char)
    requires 0 <= d < 10
    ensures IsDigit(c)
  {
    '0' + d as char
  }

  /** `std::to_string` of a non-negative number. */
  function NatToString(n: nat): (s: string)
    ensures s != "" && forall i | 0 <= i < |s| :: IsDigit(s[i])
  {
    if n < 10 then [DigitChar(n)] else NatToString(n / 10) + [DigitChar(n % 10)]
  }

  function IntToString(n: int): (s: string)
    ensures s != ""
  {
    if n < 0 then "-" + NatToString(-n) else NatToString(n)
  }

  /** The number a string of decimal digits denotes. */
  function DigitsToNat(s: string): (n: nat)
    requires forall i | 0 <= i < |s| :: IsDigit(s[i])
  {
    if s == "" then 0
    else
      var last := s[|s| - 1];
      assert IsDigit(last);
      10 * DigitsToNat(s[..|s| - 1]) + (last as int - '0' as int)
  }

  lemma DigitsOfNat(n: nat)
    ensures DigitsToNat(NatToString(n)) == n
  {
    if n >= 10 {
      var s := NatToString(n);
      assert s[..|s| - 1] == NatToString(n / 10);
      DigitsOfNat(n / 10);
    } else {
      assert NatToString(n)[..0] == "";
    }
  }

  // ----------------------------------------------------------------- strtol

  // `long` has 32 bits on the target board; strtol saturates.
  const LONG_MIN: int := -0x8000_0000
  const LONG_MAX: int := 0x7fff_ffff

  function Saturate(n: int): int {
    if n < LONG_MIN then LONG_MIN else if n > LONG_MAX then LONG_MAX else n
  }

  /** The part of a string that `c_str()` shows to a C function. */
  function CStr(s: string): string {
    s[..IndexOf(s, '\0')]
  }

  predicate IsSpace(c: char) {
    c == ' ' || '\t' <= c <= '\r'
  }

  function SkipSpace(s: string): (r: string)
    ensures |r| <= |s|
  {
    if s != "" && IsSpace(s[0]) then SkipSpace(s[1..]) else s
  }

  function DigitValue(c: char): int {
    if '0' <= c <= '9' then c as int - '0' as int
    else if 'a' <= c <= 'f' then c as int - 'a' as int + 10
    else if 'A' <= c <= 'F' then c as int - 'A' as int + 10
    else 99
  }

  /** Reads digits of the given base from the front, continuing the number `acc`. */
  function ReadDigits(s: string, base: int, acc: nat): (nat, string)
    requires base == 10 || base == 16
  {
    if s != "" && DigitValue(s[0]) < base then ReadDigits(s[1..], base, acc * base + DigitValue(s[0]))
    else (acc, s)
  }

  function SkipHexPrefix(s: string, base: int): string {
    if base == 16 && |s| >= 3 && s[0] == '0' && (s[1] == 'x' || s[1] == 'X') && DigitValue(s[2]) < 16
    then s[2..]
    else s
  }

  /**
    C's strtol: the number read and the text from `end` on.  Without digits nothing is consumed
    and the number is 0, so an empty text counts as a completely read 0.
   */
  function Strtol(text: string, base: int): (int, string)
    requires base == 10 || base == 16
  {
    var s := CStr(text);
    var t := SkipSpace(s);
    var negative := t != "" && t[0] == '-';
    var u := if t != "" && (t[0] == '-' || t[0] == '+') then t[1..] else t;
    var v := SkipHexPrefix(u, base);
    if v == "" || DigitValue(v[0]) >= base then (0, s)
    else
      var (n: int, rest) := ReadDigits(v, base, 0);
      (Saturate(if negative then 0 - n else n), rest)
  }

  lemma {:induction false} ReadDigitsAppend(s: string, rest: string, acc: nat)
    requires forall i | 0 <= i < |s| :: IsDigit(s[i])
    ensures ReadDigits(s + rest, 10, acc) == ReadDigits(rest, 10, acc * Pow10(|s|) + DigitsToNat(s))
    decreases |s|
  {
    if s == "" {
      assert s + rest == rest;
    } else {
      var k := |s| - 1;
      var d := [s[k]];
      assert s + rest == s[..k] + (d + rest);
      ReadDigitsAppend(s[..k], d + rest, acc);
      assert (d + rest)[1..] == rest;
      assert (acc * Pow10(k) + DigitsToNat(s[..k])) * 10 + DigitValue(s[k])
          == acc * Pow10(|s|) + DigitsToNat(s) by {
        assert acc * (10 * Pow10(k)) == 10 * (acc * Pow10(k));
      }
    }
  }

  function Pow10(n: nat): (p: nat)
    ensures p >= 1
  {
    if n == 0 then 1 else 10 * Pow10(n - 1)
  }

  predicate AllSpace(s: string) {
    forall i | 0 <= i < |s| :: IsSpace(s[i])
  }

  predicate Digits(s: string) {
    s != "" && forall i | 0 <= i < |s| :: IsDigit(s[i])
  }

  lemma SkipSpaces(space: string, rest: string)
    requires AllSpace(space) && (rest == "" || !IsSpace(rest[0]))
    ensures SkipSpace(space + rest) == rest
  {
    if space == "" {
      assert space + rest == rest;
    } else {
      assert (space + rest)[1..] == space[1..] + rest;
      SkipSpaces(space[1..], rest);
    }
  }

  lemma DigitsRead(digits: string, rest: string)
    requires Digits(digits) && (rest == "" || DigitValue(rest[0]) >= 10)
    ensures ReadDigits(digits + rest, 10, 0) == (DigitsToNat(digits), rest)
  {
    ReadDigitsAppend(digits, rest, 0);
  }

  lemma StrtolUnspaced(s: string, sign: string, digits: string, rest: string)
    requires sign in ["", "+", "-"] && Digits(digits) && (rest == "" || DigitValue(rest[0]) >= 10)
    requires CStr(s) == s && SkipSpace(s) == sign + (digits + rest)
    ensures Strtol(s, 10) == (Saturate(if sign == "-" then 0 - DigitsToNat(digits) else DigitsToNat(digits)), rest)
  {
    hide ReadDigits, SkipSpace, DigitsToNat, CStr;
    var t := sign + (digits + rest);
    assert IsDigit(digits[0]);
    assert sign == "" ==> t == digits + rest;
    assert sign != "" ==> t[1..] == digits + rest && t[0] == sign[0];
    DigitsRead(digits, rest);
  }

  /** What strtol reads: blanks, a sign, digits, and it stops before anything else. */
  lemma StrtolOfText(space: string, sign: string, digits: string, rest: string)
    requires AllSpace(space) && sign in ["", "+", "-"] && Digits(digits)
    requires '\0' !in rest && (rest == "" || DigitValue(rest[0]) >= 10)
    ensures Strtol(space + sign + digits + rest, 10)
         == (Saturate(if sign == "-" then 0 - DigitsToNat(digits) else DigitsToNat(digits)), rest)
  {
    hide Strtol, SkipSpace, DigitsToNat;
    var text, t := space + sign + digits + rest, sign + (digits + rest);
    assert IsDigit(digits[0]);
    IndexOfIs(text, '\0', |text|);
    assert text == space + t;
    assert t[0] == if sign == "" then digits[0] else sign[0];
    SkipSpaces(space, t);
    StrtolUnspaced(text, sign, digits, rest);
  }

  lemma IntText(n: int) returns (sign: string, digits: string)
    ensures sign in ["", "-"] && Digits(digits) && IntToString(n) == sign + digits
    ensures n == if sign == "-" then 0 - DigitsToNat(digits) else DigitsToNat(digits)
  {
    hide NatToString, DigitsToNat;
    if n < 0 {
      sign, digits := "-", NatToString(-n);
      DigitsOfNat(-n);
    } else {
      sign, digits := "", NatToString(n);
      DigitsOfNat(n);
    }
  }

  /** strtol reads back every int that `std::to_string` prints, and reads all of it. */
  lemma StrtolOfInt(n: int)
    requires LONG_MIN <= n <= LONG_MAX
    ensures Strtol(IntToString(n), 10) == (n, "")
  {
    hide Strtol, IntToString, DigitsToNat;
    var sign, digits := IntText(n);
    StrtolOfText("", sign, digits, "");
    assert "" + sign + digits + "" == sign + digits;
  }

  lemma IntToStringClean(n: int)
    ensures Trimmed(IntToString(n)) && LfFree(IntToString(n)) && ',' !in IntToString(n)
  {
  }
}
