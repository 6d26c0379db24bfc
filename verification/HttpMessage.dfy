/**
  What a request is read as.  A message is put together here the way a client writes it, apart from the reader of
  HttpRequest, and the reader gives its parts back, however the bytes are delivered.
 */
module HttpMessage {
  import opened Wrappers
  import opened Text
  import opened HttpRequest

  /** `name: value`, with any spaces and tabs after the colon, or a line without a colon, which is not looked at. */
  datatype Header = Header(name: string, gap: string, value: string) | Stray(text: string)

  datatype Message = Message(verb: string, path: string, query: Option<string>, version: string, headers: seq<Header>,
    body: string)

  predicate Word(w: string) {
    w != "" && forall i | 0 <= i < |w| :: !IsSpace(w[i])
  }

  predicate IsGap(s: string) {
    forall i | 0 <= i < |s| :: s[i] == ' ' || s[i] == '\t'
  }

  predicate HeaderOk(h: Header) {
    match h
    case Header(name, gap, value) =>
      Trimmed(name) && LfFree(name) && ':' !in name && IsGap(gap) && Trimmed(value) && LfFree(value)
    case Stray(text) =>
      text != "" && LfFree(text) && ':' !in text && text[0] != '\r' && text[|text| - 1] != '\r'
  }

  predicate HeadersOk(headers: seq<Header>) {
    forall i | 0 <= i < |headers| :: HeaderOk(headers[i])
  }

  function Target(m: Message): string {
    m.path + if m.query.Some? then "?" + m.query.value else ""
  }

  /** A message whose request line may lack its third word. */
  predicate PartsOk(m: Message) {
    Word(m.verb) && Word(Target(m)) && (m.version == "" || Word(m.version)) && '?' !in m.path && HeadersOk(m.headers)
  }

  predicate MessageOk(m: Message) {
    PartsOk(m) && m.version != ""
  }

  function LineOf(h: Header): string {
    match h
    case Header(name, gap, value) => name + ":" + gap + value
    case Stray(text) => text
  }

  function RequestLine(m: Message): string {
    m.verb + " " + (Target(m) + " " + m.version)
  }

  function HeaderText(headers: seq<Header>): string {
    if headers == [] then "" else "\r\n" + (LineOf(headers[0]) + HeaderText(headers[1..]))
  }

  function HeadText(m: Message): string {
    RequestLine(m) + HeaderText(m.headers)
  }

  const END := "\r\n\r\n"

  function MessageText(m: Message): string {
    HeadText(m) + END + m.body
  }

  /** The value that counts for a name: that of the last header with this name, in any letter case. */
  function LastValue(headers: seq<Header>, name: string): Option<string> {
    if headers == [] then None
    else
      var n := |headers| - 1;
      if headers[n].Header? && SameText(headers[n].name, name) then Some(headers[n].value)
      else LastValue(headers[..n], name)
  }

  // ------------------------------------------------------- the end of the head

  /** Every line feed is followed by something other than a carriage return. */
  ghost predicate NoEmptyLine(s: string) {
    forall k | 0 <= k < |s| && s[k] == '\n' :: k + 1 < |s| && s[k + 1] != '\r'
  }

  lemma NoEmptyLineAfter(a: string, b: string)
    requires LfFree(a) && NoEmptyLine(b)
    ensures NoEmptyLine(a + b)
  {
    var s := a + b;
    forall k | 0 <= k < |s| && s[k] == '\n' ensures k + 1 < |s| && s[k + 1] != '\r' {
      assert k >= |a| && b[k - |a|] == '\n';
    }
  }

  lemma LineOfIsLine(h: Header)
    requires HeaderOk(h)
    ensures LineOf(h) != "" && LfFree(LineOf(h)) && WithoutCr(LineOf(h)) == LineOf(h)
    ensures LineOf(h)[0] != '\r'
  {
    var line := LineOf(h);
    if h.Header? {
      assert line[0] == if h.name == "" then ':' else h.name[0];
      assert line[|line| - 1] ==
             if h.value != "" then h.value[|h.value| - 1] else if h.gap != "" then h.gap[|h.gap| - 1] else ':';
    }
  }

  lemma {:induction false} HeaderTextHasNoEmptyLine(headers: seq<Header>)
    requires HeadersOk(headers)
    ensures NoEmptyLine(HeaderText(headers))
    decreases |headers|
  {
    hide LineOf;
    if headers != [] {
      var line, rest := LineOf(headers[0]), HeaderText(headers[1..]);
      HeaderTextHasNoEmptyLine(headers[1..]);
      LineOfIsLine(headers[0]);
      NoEmptyLineAfter(line, rest);
      var s := "\r\n" + (line + rest);
      assert s[2] == line[0];
      forall k | 0 <= k < |s| && s[k] == '\n' ensures k + 1 < |s| && s[k + 1] != '\r' {
        if k >= 2 {
          assert s[k] == (line + rest)[k - 2];
        }
      }
    }
  }

  lemma RequestLineIsLine(m: Message)
    requires PartsOk(m)
    ensures var line := RequestLine(m); line != "" && LfFree(line) && WithoutCr(line) == line
  {
    var line := RequestLine(m);
    assert line[|line| - 1] == if m.version == "" then ' ' else m.version[|m.version| - 1];
  }

  lemma HeadEnds(m: Message)
    requires PartsOk(m)
    ensures HeaderEnd(MessageText(m), 0) == Some(|HeadText(m)|)
  {
    hide RequestLine, HeaderText, HeadersOk;
    var head, s := HeadText(m), MessageText(m);
    RequestLineIsLine(m);
    HeaderTextHasNoEmptyLine(m.headers);
    NoEmptyLineAfter(RequestLine(m), HeaderText(m.headers));
    assert forall k | 0 <= k < |head| :: s[k] == head[k];
    assert s[|head|] == '\r' && forall j | 0 <= j < |head| :: !EndsAt(s, j);
    HeaderEndIs(s, |head|);
  }

  // ---------------------------------------------------------------- its lines

  /** The lines of a head as getline delivers them: all but the last one end in a carriage return. */
  function HeadLines(first: string, headers: seq<Header>): seq<string>
    decreases |headers|
  {
    if headers == [] then [first] else [first + "\r"] + HeadLines(LineOf(headers[0]), headers[1..])
  }

  lemma {:induction false} LinesOfHead(first: string, headers: seq<Header>)
    requires first != "" && LfFree(first) && HeadersOk(headers)
    ensures Lines(first + HeaderText(headers)) == HeadLines(first, headers)
    decreases |headers|
  {
    hide Lines, LineOf;
    if headers == [] {
      assert first + "" == first;
      LastLine(first);
    } else {
      var line, rest := LineOf(headers[0]), headers[1..];
      LineOfIsLine(headers[0]);
      LinesOfHead(line, rest);
      FirstLine(first + "\r", line + HeaderText(rest));
      assert first + ("\r\n" + (line + HeaderText(rest))) == first + "\r" + "\n" + (line + HeaderText(rest));
    }
  }

  /** The lines without the carriage returns are those of the headers. */
  lemma {:induction false} HeaderLines(first: string, headers: seq<Header>)
    requires HeadersOk(headers)
    ensures |HeadLines(first, headers)| == |headers| + 1
    ensures HeadLines(first, headers)[0] == if headers == [] then first else first + "\r"
    ensures forall i | 0 <= i < |headers| :: WithoutCr(HeadLines(first, headers)[i + 1]) == LineOf(headers[i])
    decreases |headers|
  {
    hide LineOf;
    if headers != [] {
      var line, rest := LineOf(headers[0]), headers[1..];
      LineOfIsLine(headers[0]);
      HeaderLines(line, rest);
      var lines := HeadLines(first, headers);
      assert lines[1..] == HeadLines(line, rest);
      forall i | 0 <= i < |headers| ensures WithoutCr(lines[i + 1]) == LineOf(headers[i]) {
        assert lines[i + 1] == HeadLines(line, rest)[i];
        assert i > 0 ==> headers[i] == rest[i - 1];
        assert (line + "\r")[..|line|] == line;
      }
    }
  }

  // -------------------------------------------------------------- its headers

  lemma LineIsTakenApart(h: Header)
    requires HeaderOk(h)
    ensures var line := LineOf(h);
            var sep := IndexOf(line, ':');
            match h
            case Header(name, gap, value) =>
              sep == |name| < |line| && Trim(line[..sep]) == name && Trim(line[sep + 1..]) == value
            case Stray(text) => sep == |line|
  {
    var line := LineOf(h);
    if h.Stray? {
      IndexOfIs(line, ':', |line|);
      return;
    }
    IndexOfIs(line, ':', |h.name|);
    assert line[..|h.name|] == h.name && line[|h.name| + 1..] == h.gap + h.value + "";
    TrimFixed(h.name);
    TrimUnique(h.gap, h.value, "");
  }

  /** The reader's map holds for each name the value that counts. */
  lemma {:induction false} HeadersAreRead(lines: seq<string>, headers: seq<Header>, name: string)
    requires HeadersOk(headers) && |lines| == |headers| && ToLower(name) == name
    requires forall i | 0 <= i < |headers| :: WithoutCr(lines[i]) == LineOf(headers[i])
    ensures match LastValue(headers, name)
            case None => name !in Headers(lines)
            case Some(value) => name in Headers(lines) && Headers(lines)[name] == value
  {
    hide WithoutCr, LineOf, Trim, ToLower, SameText;
    if headers != [] {
      var n := |headers| - 1;
      HeadersAreRead(lines[..n], headers[..n], name);
      assert HeaderOk(headers[n]);
      LineIsTakenApart(headers[n]);
      if headers[n].Header? {
        LowerTexts(headers[n].name, name);
      }
    }
  }

  // --------------------------------------------------------- the request line

  lemma {:induction false} WordIsTaken(w: string, rest: string)
    requires (forall i | 0 <= i < |w| :: !IsSpace(w[i])) && (rest == "" || IsSpace(rest[0]))
    ensures TakeWord(w + rest) == w && DropWord(w + rest) == rest
  {
    if w == "" {
      assert w + rest == rest;
    } else {
      assert (w + rest)[1..] == w[1..] + rest;
      WordIsTaken(w[1..], rest);
      assert [w[0]] + w[1..] == w;
    }
  }

  lemma NextWordIs(space: string, w: string, rest: string)
    requires AllSpace(space) && Word(w) && (rest == "" || IsSpace(rest[0]))
    ensures NextWord(space + (w + rest)) == (w, rest)
  {
    SkipSpaces(space, w + rest);
    WordIsTaken(w, rest);
  }

  lemma NoWordIsLeft()
    ensures NextWord(" ") == ("", "")
  {
    SkipSpaces(" ", "");
  }

  lemma RequestLineIsRead(m: Message)
    requires PartsOk(m)
    ensures var (verb, s1) := NextWord(RequestLine(m));
            var (target, s2) := NextWord(s1);
            var (version, _) := NextWord(s2);
            verb == m.verb && target == Target(m) && version == m.version
  {
    hide NextWord, Target;
    var tail := Target(m) + " " + m.version;
    assert RequestLine(m) == "" + (m.verb + (" " + tail));
    NextWordIs("", m.verb, " " + tail);
    assert " " + tail == " " + (Target(m) + (" " + m.version));
    NextWordIs(" ", Target(m), " " + m.version);
    assert " " + m.version == " " + (m.version + "");
    if m.version == "" {
      NoWordIsLeft();
      assert " " + m.version == " ";
    } else {
      NextWordIs(" ", m.version, "");
    }
  }

  lemma TargetIsCut(m: Message)
    requires '?' !in m.path
    ensures WithoutQuery(Target(m)) == m.path
  {
    IndexOfIs(Target(m), '?', |m.path|);
  }

  // ----------------------------------------------------------------- the body

  lemma LowerNames()
    ensures ToLower("content-length") == "content-length" && ToLower("content-type") == "content-type"
  {
    assert forall i | 0 <= i < 14 :: LowerChar("content-length"[i]) == "content-length"[i];
    assert forall i | 0 <= i < 12 :: LowerChar("content-type"[i]) == "content-type"[i];
  }

  /** No length is announced, or a number of any decimal digits. */
  predicate LengthOk(m: Message) {
    var length := LastValue(m.headers, "content-length");
    length.Some? ==> Digits(length.value)
  }

  function Announced(m: Message): nat
    requires LengthOk(m)
  {
    var length := LastValue(m.headers, "content-length");
    if length.None? then 0 else DigitsToNat(length.value)
  }

  lemma LengthIsRead(headers: map<string, string>, length: Option<string>)
    requires length.Some? ==> Digits(length.value)
    requires match length
             case None => "content-length" !in headers
             case Some(value) => "content-length" in headers && headers["content-length"] == value
    ensures ContentLength(headers)
         == Ok(if length.None? then 0 else Saturate(DigitsToNat(length.value)))
  {
    if length.Some? {
      var digits := length.value;
      StrtolOfText("", "", digits, "");
      assert "" + "" + digits + "" == digits;
    }
  }

  /** The head in terms of its header map, whatever length it announces. */
  lemma HeadIsTakenApart(m: Message) returns (headers: map<string, string>)
    requires MessageOk(m)
    ensures ParseHead(HeadText(m)) ==
            match ContentLength(headers)
            case Err(e) => Err(e)
            case Ok(n) =>
              if n > MAX_BODY_BYTES then Err("request body too large")
              else Ok(Head(m.verb, m.path, n, LastValue(m.headers, "content-type")))
    ensures match LastValue(m.headers, "content-length")
            case None => "content-length" !in headers
            case Some(value) => "content-length" in headers && headers["content-length"] == value
  {
    hide Lines, NextWord, Headers, ContentLength, WithoutQuery, LastValue, RequestLine, HeadLines, Target;
    hide HeaderText, Word, HeadersOk;
    var line := RequestLine(m);
    RequestLineIsLine(m);
    LinesOfHead(line, m.headers);
    HeaderLines(line, m.headers);
    var lines := HeadLines(line, m.headers);
    assert (line + "\r")[..|line|] == line;
    assert WithoutCr(lines[0]) == line;
    RequestLineIsRead(m);
    WordsAreNotEmpty(m);
    TargetIsCut(m);
    LowerNames();
    HeadersAreRead(lines[1..], m.headers, "content-length");
    HeadersAreRead(lines[1..], m.headers, "content-type");
    headers := Headers(lines[1..]);
  }

  lemma HeadIsRead(m: Message)
    requires MessageOk(m) && LengthOk(m)
    ensures ParseHead(HeadText(m)) ==
            if Announced(m) > MAX_BODY_BYTES then Err("request body too large")
            else Ok(Head(m.verb, m.path, Announced(m), LastValue(m.headers, "content-type")))
  {
    hide ParseHead, ContentLength, LastValue, PartsOk, HeadText, Digits, DigitsToNat;
    var headers := HeadIsTakenApart(m);
    LengthIsRead(headers, LastValue(m.headers, "content-length"));
  }

  lemma WordsAreNotEmpty(m: Message)
    requires MessageOk(m)
    ensures m.verb != "" && Target(m) != "" && m.version != ""
  {
  }

  // ---------------------------------------------------------------- the whole

  /** What a message asks for. */
  function Reading(m: Message): Result<Request>
    requires LengthOk(m)
  {
    var n := Announced(m);
    if n > MAX_BODY_BYTES then Err("request body too large")
    else if |m.body| < n then Err("failed to read request body")
    else Ok(Request(m.verb, m.path, m.body[..n], LastValue(m.headers, "content-type")))
  }

  /**
    A request is read as what it says: the method, the target up to the query, as much of the body as is announced,
    and the content type, with names of headers in any letter case and in any order.
   */
  lemma MessageIsRead(m: Message)
    requires MessageOk(m) && LengthOk(m)
    ensures Whole(MessageText(m)) == Reading(m)
  {
    hide PartsOk, LengthOk, Announced, LastValue, HeaderEnd, ParseHead, HeadText;
    var s := MessageText(m);
    HeadEnds(m);
    HeadIsRead(m);
    assert s[..|HeadText(m)|] == HeadText(m) && s[|HeadText(m)| + 4..] == m.body;
  }

  /** A request line of two words is refused. */
  lemma TwoWordsAreRefused(m: Message)
    requires PartsOk(m) && m.version == ""
    ensures Whole(MessageText(m)) == Err("invalid request line")
  {
    hide Lines, NextWord, Headers, ContentLength, HeaderEnd, RequestLine, HeaderText, PartsOk, HeadLines;
    var s, line := MessageText(m), RequestLine(m);
    HeadEnds(m);
    RequestLineIsLine(m);
    assert HeadersOk(m.headers) by { HeadersOfParts(m); }
    LinesOfHead(line, m.headers);
    HeaderLines(line, m.headers);
    assert (line + "\r")[..|line|] == line;
    RequestLineIsRead(m);
    assert s[..|HeadText(m)|] == HeadText(m);
  }

  lemma HeadersOfParts(m: Message)
    requires PartsOk(m)
    ensures HeadersOk(m.headers)
  {
  }

  /** A length that is no number, or a negative one, is refused, whatever follows. */
  lemma BadLengthIsRefused(m: Message, sign: string, digits: string, rest: string)
    requires MessageOk(m) && sign in ["", "+", "-"] && Digits(digits)
    requires LastValue(m.headers, "content-length") == Some(sign + digits + rest)
    requires '\0' !in rest && (rest == "" || DigitValue(rest[0]) >= 10)
    requires rest != "" || (sign == "-" && DigitsToNat(digits) > 0)
    ensures Whole(MessageText(m)) == Err("invalid Content-Length")
  {
    hide PartsOk, LastValue, HeaderEnd, ParseHead, HeadText, Strtol, DigitsToNat;
    var s := MessageText(m);
    HeadEnds(m);
    var headers := HeadIsTakenApart(m);
    StrtolOfText("", sign, digits, rest);
    assert "" + sign + digits + rest == sign + digits + rest;
    assert s[..|HeadText(m)|] == HeadText(m);
  }

  /** And so it is received, however it is delivered, as long as it keeps clear of the two limits. */
  lemma MessageIsReceived(m: Message, chunks: seq<string>)
    requires MessageOk(m) && LengthOk(m) && Deliverable(chunks) && Sent(chunks) == MessageText(m)
    requires |HeadText(m)| + 4 <= MAX_REQUEST_BYTES
    requires Announced(m) + MAX_READ_BYTES <= MAX_BODY_BYTES + 1 || |m.body| <= MAX_BODY_BYTES
    ensures Received(chunks) == Reading(m)
  {
    hide PartsOk, LengthOk, Announced, LastValue, HeaderEnd, ParseHead, HeadText, Sent, Received, Whole, Reading;
    var s := MessageText(m);
    HeadEnds(m);
    HeadIsRead(m);
    MessageIsRead(m);
    assert s[..|HeadText(m)|] == HeadText(m);
    ClearIsReceived(chunks);
  }
}
