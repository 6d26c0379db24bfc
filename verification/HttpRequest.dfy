/**
  `ReadHttpRequest`: a request is collected from reads of arbitrary sizes.  The connection is the
  list of what the reads will deliver; the theorems say when the result depends only on the bytes
  sent and not on how they were split.
 */
module HttpRequest {
  import opened Wrappers
  import opened Text

  const MAX_REQUEST_BYTES: nat := 65536
  const MAX_BODY_BYTES: nat := 2 * 1024 * 1024
  const MAX_READ_BYTES: nat := 2048

  datatype Request = Request(verb: string, path: string, body: string, contentType: Option<string>)

  datatype Head = Head(verb: string, path: string, contentLength: nat, contentType: Option<string>)

  // -------------------------------------------------------------- the header

  predicate EndsAt(data: string, i: nat) {
    i + 4 <= |data| && data[i] == '\r' && data[i + 1] == '\n' && data[i + 2] == '\r' && data[i + 3] == '\n'
  }

  /** The first position from `from` on of the empty line that ends the header; None if there is none. */
  function HeaderEnd(data: string, from: nat): (r: Option<nat>)
    requires from <= |data|
    ensures r.Some? ==> from <= r.value && EndsAt(data, r.value) && forall j | from <= j < r.value :: !EndsAt(data, j)
    ensures r.None? ==> forall j | from <= j :: !EndsAt(data, j)
    decreases |data| - from
  {
    if EndsAt(data, from) then Some(from)
    else if from == |data| then None
    else HeaderEnd(data, from + 1)
  }

  lemma HeaderEndIs(data: string, i: nat)
    requires EndsAt(data, i) && forall j | 0 <= j < i :: !EndsAt(data, j)
    ensures HeaderEnd(data, 0) == Some(i)
  {
    if HeaderEnd(data, 0).Some? && HeaderEnd(data, 0).value < i {
      assert false;
    }
  }

  function WithoutCr(line: string): string {
    if line != "" && line[|line| - 1] == '\r' then line[..|line| - 1] else line
  }

  function TakeWord(s: string): string {
    if s == "" || IsSpace(s[0]) then "" else [s[0]] + TakeWord(s[1..])
  }

  function DropWord(s: string): (r: string)
    ensures |r| <= |s|
  {
    if s == "" || IsSpace(s[0]) then s else DropWord(s[1..])
  }

  /** `stream >> word`: the next word and what follows it. */
  function NextWord(s: string): (string, string) {
    (TakeWord(SkipSpace(s)), DropWord(SkipSpace(s)))
  }

  /** Header lines without a colon are ignored; of repeated names the last one counts. */
  function Headers(lines: seq<string>): map<string, string> {
    if lines == [] then map[]
    else
      var n := |lines| - 1;
      var line := WithoutCr(lines[n]);
      var sep := IndexOf(line, ':');
      if sep == |line| then Headers(lines[..n])
      else Headers(lines[..n])[ToLower(Trim(line[..sep])) := Trim(line[sep + 1..])]
  }

  method ReadHeaders(lines: seq<string>) returns (headers: map<string, string>)
    ensures headers == Headers(lines)
  {
    headers := map[];
    for i := 0 to |lines|
      invariant headers == Headers(lines[..i])
    {
      assert lines[..i + 1][..i] == lines[..i];
      var line := WithoutCr(lines[i]);
      var sep := IndexOf(line, ':');
      if sep == |line| {
        continue;
      }
      var key := ToLower(Trim(line[..sep]));
      var value := Trim(line[sep + 1..]);
      headers := headers[key := value];
    }
    assert lines[..|lines|] == lines;
  }

  function ContentLength(headers: map<string, string>): Result<nat> {
    if "content-length" !in headers then Ok(0)
    else
      var (n, rest) := Strtol(headers["content-length"], 10);
      if rest != "" || n < 0 then Err("invalid Content-Length") else Ok(n)
  }

  function WithoutQuery(path: string): string {
    path[..IndexOf(path, '?')]
  }

  /** Everything that is decided by the header alone. */
  function ParseHead(blob: string): Result<Head> {
    var lines := Lines(blob);
    if lines == [] then Err("missing request line")
    else
      var (verb, s1) := NextWord(WithoutCr(lines[0]));
      var (path, s2) := NextWord(s1);
      var (version, _) := NextWord(s2);
      if verb == "" || path == "" || version == "" then Err("invalid request line")
      else
        var headers := Headers(lines[1..]);
        match ContentLength(headers)
        case Err(e) => Err(e)
        case Ok(n) =>
          if n > MAX_BODY_BYTES then Err("request body too large")
          else
            Ok(Head(verb, WithoutQuery(path), n,
                    if "content-type" in headers then Some(headers["content-type"]) else None))
  }

  // --------------------------------------------------------------- the reads

  /** What the reads will deliver: at least one and at most 2048 bytes each; then reading fails. */
  ghost predicate Deliverable(chunks: seq<string>) {
    forall i | 0 <= i < |chunks| :: 1 <= |chunks[i]| <= MAX_READ_BYTES
  }

  function Sent(chunks: seq<string>): string {
    if chunks == [] then "" else chunks[0] + Sent(chunks[1..])
  }

  class Connection {
    var chunks: seq<string>

    constructor (chunks: seq<string>)
      requires Deliverable(chunks)
      ensures this.chunks == chunks
    {
      this.chunks := chunks;
    }

    /** One `SSL_read`. */
    method Read() returns (bytes: Option<string>)
      modifies this
      ensures old(chunks) == [] ==> bytes == None && chunks == []
      ensures old(chunks) != [] ==> bytes == Some(old(chunks)[0]) && chunks == old(chunks)[1..]
    {
      if chunks == [] {
        return None;
      }
      bytes := Some(chunks[0]);
      chunks := chunks[1..];
    }
  }

  /** The first loop: read until the buffer holds a complete header. */
  function CollectHead(data: string, chunks: seq<string>): Result<(string, seq<string>)>
    decreases |chunks|
  {
    if HeaderEnd(data, 0).Some? then Ok((data, chunks))
    else if |data| >= MAX_REQUEST_BYTES then Err("request too large")
    else if chunks == [] then Err("failed to read request")
    else CollectHead(data + chunks[0], chunks[1..])
  }

  /** The second loop: read until the buffer holds the announced body. */
  function CollectBody(body: string, length: nat, chunks: seq<string>): Result<string>
    decreases |chunks|
  {
    if |body| >= length then Ok(body[..length])
    else if chunks == [] then Err("failed to read request body")
    else if |body + chunks[0]| > MAX_BODY_BYTES then Err("request body too large")
    else CollectBody(body + chunks[0], length, chunks[1..])
  }

  function Received(chunks: seq<string>): Result<Request> {
    match CollectHead("", chunks)
    case Err(e) => Err(e)
    case Ok((data, rest)) =>
      var end := HeaderEnd(data, 0);
      if end.None? then Err("")
      else
        match ParseHead(data[..end.value])
        case Err(e) => Err(e)
        case Ok(head) =>
          match CollectBody(data[end.value + 4..], head.contentLength, rest)
          case Err(e) => Err(e)
          case Ok(body) => Ok(Request(head.verb, head.path, body, head.contentType))
  }

  method ReadHead(conn: Connection) returns (r: Result<string>)
    modifies conn
    ensures match CollectHead("", old(conn.chunks))
            case Err(e) => r == Err(e)
            case Ok((data, rest)) => r == Ok(data) && conn.chunks == rest && HeaderEnd(data, 0).Some?
  {
    var data := "";
    var headersEnd := HeaderEnd(data, 0);
    while headersEnd.None?
      invariant headersEnd == HeaderEnd(data, 0)
      invariant CollectHead(data, conn.chunks) == CollectHead("", old(conn.chunks))
      decreases |conn.chunks|, headersEnd.None?
    {
      if |data| >= MAX_REQUEST_BYTES {
        return Err("request too large");
      }
      var bytes := conn.Read();
      if bytes.None? {
        return Err("failed to read request");
      }
      data := data + bytes.value;
      headersEnd := HeaderEnd(data, 0);
    }
    return Ok(data);
  }

  method ReadBody(conn: Connection, start: string, length: nat) returns (r: Result<string>)
    modifies conn
    ensures r == CollectBody(start, length, old(conn.chunks))
  {
    var body := start;
    while |body| < length
      invariant CollectBody(body, length, conn.chunks) == CollectBody(start, length, old(conn.chunks))
      decreases |conn.chunks|, |body| < length
    {
      var bytes := conn.Read();
      if bytes.None? {
        return Err("failed to read request body");
      }
      body := body + bytes.value;
      if |body| > MAX_BODY_BYTES {
        return Err("request body too large");
      }
    }
    if |body| > length {
      body := body[..length];
    }
    assert body[..length] == body;
    return Ok(body);
  }

  method ReadHttpRequest(conn: Connection) returns (r: Result<Request>)
    modifies conn
    ensures r == Received(old(conn.chunks))
  {
    hide HeaderEnd, ContentLength, CollectHead, CollectBody, Headers;
    var collected := ReadHead(conn);
    if collected.Err? {
      return Err(collected.error);
    }
    var data := collected.value;
    var headersEnd := HeaderEnd(data, 0).value;
    var lines := ReadAllLines(data[..headersEnd]);
    if lines == [] {
      return Err("missing request line");
    }
    var requestLine := WithoutCr(lines[0]);
    var (verb, s1) := NextWord(requestLine);
    var (path, s2) := NextWord(s1);
    var (version, _) := NextWord(s2);
    if verb == "" || path == "" || version == "" {
      return Err("invalid request line");
    }
    var headers := ReadHeaders(lines[1..]);
    var contentLength := ContentLength(headers);
    if contentLength.Err? {
      return Err(contentLength.error);
    }
    if contentLength.value > MAX_BODY_BYTES {
      return Err("request body too large");
    }
    var body := ReadBody(conn, data[headersEnd + 4..], contentLength.value);
    if body.Err? {
      return Err(body.error);
    }
    return Ok(Request(verb, WithoutQuery(path), body.value,
                      if "content-type" in headers then Some(headers["content-type"]) else None));
  }

  // --------------------------------------------- independence of fragmentation

  /** What the bytes alone say, without any reads. */
  function Whole(sent: string): Result<Request> {
    match HeaderEnd(sent, 0)
    case None => Err(if |sent| >= MAX_REQUEST_BYTES then "request too large" else "failed to read request")
    case Some(end) =>
      match ParseHead(sent[..end])
      case Err(e) => Err(e)
      case Ok(head) =>
        var body := sent[end + 4..];
        if |body| < head.contentLength then Err("failed to read request body")
        else Ok(Request(head.verb, head.path, body[..head.contentLength], head.contentType))
  }

  lemma HeaderEndOfPrefix(a: string, b: string)
    ensures HeaderEnd(a, 0).Some? ==> HeaderEnd(a + b, 0) == HeaderEnd(a, 0)
    ensures HeaderEnd(a, 0).None? && HeaderEnd(a + b, 0).Some? ==> |a| < HeaderEnd(a + b, 0).value + 4
  {
    var s := a + b;
    assert forall i: nat | i + 4 <= |a| :: EndsAt(a, i) <==> EndsAt(s, i);
    if HeaderEnd(a, 0).Some? {
      HeaderEndIs(s, HeaderEnd(a, 0).value);
    }
  }

  /** No read ends with at least 64 KiB in the buffer while the header is still incomplete. */
  ghost predicate HeadFits(data: string, chunks: seq<string>, end: nat)
    decreases |chunks|
  {
    if |data| >= end then true
    else |data| < MAX_REQUEST_BYTES && (chunks == [] || HeadFits(data + chunks[0], chunks[1..], end))
  }

  /** The header of a request is collected exactly when it fits, and then nothing of it depends on the reads. */
  lemma {:induction false} HeadIsCollected(data: string, chunks: seq<string>)
    requires HeaderEnd(data + Sent(chunks), 0).Some?
    ensures var sent := data + Sent(chunks);
            var end := HeaderEnd(sent, 0).value + 4;
            match CollectHead(data, chunks)
            case Ok((d, rest)) => HeadFits(data, chunks, end) && d + Sent(rest) == sent &&
                HeaderEnd(d, 0) == HeaderEnd(sent, 0)
            case Err(e) => !HeadFits(data, chunks, end) && e == "request too large"
    decreases |chunks|
  {
    hide HeaderEnd;
    HeaderEndOfPrefix(data, Sent(chunks));
    if HeaderEnd(data, 0).Some? {
    } else if |data| < MAX_REQUEST_BYTES {
      assert chunks == [] ==> data + Sent(chunks) == data;
      if chunks != [] {
        assert (data + chunks[0]) + Sent(chunks[1..]) == data + Sent(chunks);
        HeadIsCollected(data + chunks[0], chunks[1..]);
      }
    }
  }

  lemma {:induction false} NoHeadIsRefused(data: string, chunks: seq<string>)
    requires HeaderEnd(data + Sent(chunks), 0).None?
    ensures CollectHead(data, chunks)
         == Err(if |data + Sent(chunks)| >= MAX_REQUEST_BYTES then "request too large" else "failed to read request")
    decreases |chunks|
  {
    hide HeaderEnd;
    HeaderEndOfPrefix(data, Sent(chunks));
    if |data| < MAX_REQUEST_BYTES {
      if chunks == [] {
        assert data + "" == data;
      } else {
        assert (data + chunks[0]) + Sent(chunks[1..]) == data + Sent(chunks);
        NoHeadIsRefused(data + chunks[0], chunks[1..]);
      }
    }
  }

  /** No read that is needed for the body leaves more than 2 MiB of it in the buffer. */
  ghost predicate BodyFits(body: string, length: nat, chunks: seq<string>)
    decreases |chunks|
  {
    |body| >= length || chunks == []
    || (|body + chunks[0]| <= MAX_BODY_BYTES && BodyFits(body + chunks[0], length, chunks[1..]))
  }

  /** The body is collected exactly when it fits, and then nothing of it depends on the reads. */
  lemma {:induction false} BodyIsCollected(body: string, length: nat, chunks: seq<string>)
    ensures var all := body + Sent(chunks);
            CollectBody(body, length, chunks) ==
            if !BodyFits(body, length, chunks) then Err("request body too large")
            else if |all| < length then Err("failed to read request body")
            else Ok(all[..length])
    decreases |chunks|
  {
    if |body| >= length {
      assert (body + Sent(chunks))[..length] == body[..length];
    } else if chunks == [] {
      assert body + "" == body;
    } else {
      assert (body + chunks[0]) + Sent(chunks[1..]) == body + Sent(chunks);
      BodyIsCollected(body + chunks[0], length, chunks[1..]);
    }
  }

  /** A header block within 64 KiB fits however it is split. */
  lemma {:induction false} SmallHeadFits(data: string, chunks: seq<string>, end: nat)
    requires end <= MAX_REQUEST_BYTES
    ensures HeadFits(data, chunks, end)
    decreases |chunks|
  {
    if |data| < end && chunks != [] {
      SmallHeadFits(data + chunks[0], chunks[1..], end);
    }
  }

  /** One that ends a whole read past 64 KiB never does. */
  lemma {:induction false} BigHeadNeverFits(data: string, chunks: seq<string>, end: nat)
    requires Deliverable(chunks) && |data| < MAX_REQUEST_BYTES + MAX_READ_BYTES <= end <= |data + Sent(chunks)|
    ensures !HeadFits(data, chunks, end)
    decreases |chunks|
  {
    if |data| < MAX_REQUEST_BYTES && chunks != [] {
      assert (data + chunks[0]) + Sent(chunks[1..]) == data + Sent(chunks);
      BigHeadNeverFits(data + chunks[0], chunks[1..], end);
    }
  }

  /** Up to 2 MiB after the header fit however they are split, and so does a body that ends a read before that. */
  lemma {:induction false} SmallBodyFits(body: string, length: nat, chunks: seq<string>)
    requires Deliverable(chunks)
    requires |body + Sent(chunks)| <= MAX_BODY_BYTES || length + MAX_READ_BYTES <= MAX_BODY_BYTES + 1
    ensures BodyFits(body, length, chunks)
    decreases |chunks|
  {
    if |body| < length && chunks != [] {
      assert (body + chunks[0]) + Sent(chunks[1..]) == body + Sent(chunks);
      SmallBodyFits(body + chunks[0], length, chunks[1..]);
    }
  }

  /** Does the request body, if the header is in order, fit into these reads? */
  ghost predicate BodyOfFits(chunks: seq<string>)
    requires CollectHead("", chunks).Ok? && HeaderEnd(CollectHead("", chunks).value.0, 0).Some?
  {
    var (data, rest) := CollectHead("", chunks).value;
    var end := HeaderEnd(data, 0).value;
    var head := ParseHead(data[..end]);
    head.Ok? ==> BodyFits(data[end + 4..], head.value.contentLength, rest)
  }

  lemma HeadBeforeBody(chunks: seq<string>)
    requires HeaderEnd(Sent(chunks), 0).Some? && HeadFits("", chunks, HeaderEnd(Sent(chunks), 0).value + 4)
    ensures CollectHead("", chunks).Ok?
    ensures var (data, rest) := CollectHead("", chunks).value;
            data + Sent(rest) == Sent(chunks) && HeaderEnd(data, 0) == HeaderEnd(Sent(chunks), 0)
  {
    hide HeaderEnd, CollectHead, HeadFits;
    assert "" + Sent(chunks) == Sent(chunks);
    HeadIsCollected("", chunks);
  }

  /**
    What is received is what was sent, except exactly when a needed read leaves too much in the buffer:
    64 KiB without a complete header, or more than 2 MiB of body.
   */
  lemma ReceivedIsWhole(chunks: seq<string>)
    ensures var end := HeaderEnd(Sent(chunks), 0);
            if end.None? then Received(chunks) == Whole(Sent(chunks))
            else if !HeadFits("", chunks, end.value + 4) then Received(chunks) == Err("request too large")
            else
              && CollectHead("", chunks).Ok? && HeaderEnd(CollectHead("", chunks).value.0, 0).Some?
              && Received(chunks) ==
                 if BodyOfFits(chunks) then Whole(Sent(chunks)) else Err("request body too large")
  {
    hide HeaderEnd, ParseHead, CollectHead, CollectBody, HeadFits, BodyFits;
    var sent := Sent(chunks);
    assert "" + sent == sent;
    if HeaderEnd(sent, 0).None? {
      NoHeadIsRefused("", chunks);
    } else {
      HeadIsCollected("", chunks);
      var collected := CollectHead("", chunks);
      if collected.Ok? {
        var (data, rest) := collected.value;
        var end := HeaderEnd(sent, 0).value;
        HeaderEndBound(data);
        assert sent[..end] == data[..end];
        assert data[end + 4..] + Sent(rest) == sent[end + 4..];
        match ParseHead(data[..end])
        case Err(_) =>
        case Ok(head) => BodyIsCollected(data[end + 4..], head.contentLength, rest);
      }
    }
  }

  lemma HeaderEndBound(data: string)
    ensures HeaderEnd(data, 0).Some? ==> HeaderEnd(data, 0).value + 4 <= |data|
  {
  }

  /** Two ways of delivering the same bytes. */
  ghost predicate Deliveries(sent: string, a: seq<string>, b: seq<string>) {
    Deliverable(a) && Deliverable(b) && Sent(a) == sent && Sent(b) == sent
  }

  /** Every way of delivering the bytes gives the same request or the same error. */
  ghost predicate Unfragmented(sent: string) {
    forall a, b | Deliveries(sent, a, b) :: Received(a) == Received(b)
  }

  /** The header block ends within 64 KiB, or so late that no read can skip the limit. */
  ghost predicate ClearHead(end: nat) {
    end + 4 <= MAX_REQUEST_BYTES || end + 4 >= MAX_REQUEST_BYTES + MAX_READ_BYTES
  }

  /** The announced body ends a read before the limit, or nothing that follows the header exceeds it. */
  ghost predicate ClearBody(sent: string, end: nat)
    requires end + 4 <= |sent|
  {
    var head := ParseHead(sent[..end]);
    head.Ok? ==>
      head.value.contentLength + MAX_READ_BYTES <= MAX_BODY_BYTES + 1 || |sent| <= end + 4 + MAX_BODY_BYTES
  }

  ghost predicate Clear(sent: string) {
    var end := HeaderEnd(sent, 0);
    end.Some? ==>
      ClearHead(end.value) && (end.value + 4 <= MAX_REQUEST_BYTES ==> ClearBody(sent, end.value))
  }

  lemma ClearBodyFits(chunks: seq<string>)
    requires Deliverable(chunks) && HeaderEnd(Sent(chunks), 0).Some?
    requires var end := HeaderEnd(Sent(chunks), 0).value;
             HeadFits("", chunks, end + 4) && end + 4 <= |Sent(chunks)| && ClearBody(Sent(chunks), end)
    ensures CollectHead("", chunks).Ok? && HeaderEnd(CollectHead("", chunks).value.0, 0).Some?
    ensures BodyOfFits(chunks)
  {
    hide HeaderEnd, ParseHead, CollectHead, HeadFits, BodyFits;
    HeadBeforeBody(chunks);
    var (data, rest) := CollectHead("", chunks).value;
    var end := HeaderEnd(data, 0).value;
    HeaderEndBound(data);
    var sent := Sent(chunks);
    assert sent[..end] == data[..end];
    assert data[end + 4..] + Sent(rest) == sent[end + 4..];
    RestIsDeliverable("", chunks);
    if ParseHead(data[..end]).Ok? {
      SmallBodyFits(data[end + 4..], ParseHead(data[..end]).value.contentLength, rest);
    }
  }

  lemma {:induction false} RestIsDeliverable(data: string, chunks: seq<string>)
    requires Deliverable(chunks)
    ensures CollectHead(data, chunks).Ok? ==> Deliverable(CollectHead(data, chunks).value.1)
    decreases |chunks|
  {
    hide HeaderEnd;
    if chunks != [] {
      RestIsDeliverable(data + chunks[0], chunks[1..]);
    }
  }

  /** With clear limits the result is that of the bytes, or a refusal of the header, for every delivery. */
  lemma ClearIsReceived(chunks: seq<string>)
    requires Deliverable(chunks) && Clear(Sent(chunks))
    ensures var end := HeaderEnd(Sent(chunks), 0);
            Received(chunks) == if end.Some? && end.value + 4 > MAX_REQUEST_BYTES then Err("request too large")
                                else Whole(Sent(chunks))
  {
    hide HeaderEnd, Received, Whole, HeadFits, BodyFits, BodyOfFits, CollectHead, ClearBody;
    var end := HeaderEnd(Sent(chunks), 0);
    HeaderEndBound(Sent(chunks));
    ReceivedIsWhole(chunks);
    if end.Some? {
      if end.value + 4 <= MAX_REQUEST_BYTES {
        SmallHeadFits("", chunks, end.value + 4);
        ClearBodyFits(chunks);
      } else {
        assert "" + Sent(chunks) == Sent(chunks);
        BigHeadNeverFits("", chunks, end.value + 4);
      }
    }
  }

  // ------------------------------------------- near the limits it does matter

  /** Reads of full buffers. */
  function Pieces(s: string): seq<string>
    decreases |s|
  {
    if s == "" then []
    else if |s| <= MAX_READ_BYTES then [s]
    else [s[..MAX_READ_BYTES]] + Pieces(s[MAX_READ_BYTES..])
  }

  function FirstPiece(s: string): string {
    if |s| <= MAX_READ_BYTES then s else s[..MAX_READ_BYTES]
  }

  lemma PiecesStep(s: string, tail: seq<string>)
    requires s != ""
    ensures var first := FirstPiece(s);
            && 1 <= |first| <= MAX_READ_BYTES && first + s[|first|..] == s
            && Pieces(s) + tail == [first] + (Pieces(s[|first|..]) + tail)
  {
    var first := FirstPiece(s);
    assert Pieces(s) == [first] + Pieces(s[|first|..]);
  }

  lemma SentCons(first: string, chunks: seq<string>)
    requires 1 <= |first| <= MAX_READ_BYTES && Deliverable(chunks)
    ensures Deliverable([first] + chunks) && Sent([first] + chunks) == first + Sent(chunks)
  {
    assert ([first] + chunks)[1..] == chunks;
  }

  lemma {:induction false} PiecesDeliver(s: string, tail: seq<string>)
    requires Deliverable(tail)
    ensures Deliverable(Pieces(s) + tail) && Sent(Pieces(s) + tail) == s + Sent(tail)
    decreases |s|
  {
    hide Pieces, Sent, Deliverable;
    if s == "" {
      assert Pieces(s) + tail == tail by { NoPieces(); }
      assert s + Sent(tail) == Sent(tail);
    } else {
      var first := FirstPiece(s);
      var rest := s[|first|..];
      PiecesStep(s, tail);
      PiecesDeliver(rest, tail);
      SentCons(first, Pieces(rest) + tail);
      assert first + (rest + Sent(tail)) == s + Sent(tail);
    }
  }

  lemma NoPieces()
    ensures Pieces("") == [] && Deliverable([]) && Sent([]) == ""
  {
  }

  /** Reading pieces goes on to what follows them, as long as they end within the limit. */
  lemma {:induction false} HeadFitsAfterPieces(data: string, s: string, tail: seq<string>, end: nat)
    requires |data + s| < end && |data + s| <= MAX_REQUEST_BYTES
    ensures HeadFits(data, Pieces(s) + tail, end) == HeadFits(data + s, tail, end)
    decreases |s|
  {
    hide Pieces;
    if s == "" {
      NoPieces();
      assert Pieces(s) + tail == tail && data + s == data;
    } else {
      var first := FirstPiece(s);
      var rest := s[|first|..];
      PiecesStep(s, tail);
      assert ([first] + (Pieces(rest) + tail))[1..] == Pieces(rest) + tail;
      assert (data + first) + rest == data + s;
      HeadFitsAfterPieces(data + first, rest, tail, end);
    }
  }

  lemma {:induction false} BodyFitsAfterPieces(body: string, s: string, tail: seq<string>, length: nat)
    requires |body + s| <= length <= MAX_BODY_BYTES
    ensures BodyFits(body, length, Pieces(s) + tail) == BodyFits(body + s, length, tail)
    decreases |s|
  {
    hide Pieces;
    if s == "" {
      NoPieces();
      assert Pieces(s) + tail == tail && body + s == body;
    } else {
      var first := FirstPiece(s);
      var rest := s[|first|..];
      PiecesStep(s, tail);
      assert ([first] + (Pieces(rest) + tail))[1..] == Pieces(rest) + tail;
      assert (body + first) + rest == body + s;
      BodyFitsAfterPieces(body + first, rest, tail, length);
    }
  }

  /** If the pieces end with the header, then they are what is collected. */
  lemma {:induction false} HeadOfPieces(data: string, s: string, tail: seq<string>)
    requires |data + s| <= MAX_REQUEST_BYTES && HeaderEnd(data + s, 0) == Some(|data + s| - 4)
    ensures CollectHead(data, Pieces(s) + tail) == Ok((data + s, tail))
    decreases |s|
  {
    hide HeaderEnd, Pieces;
    if s == "" {
      NoPieces();
      assert Pieces(s) + tail == tail && data + s == data;
    } else {
      var first := FirstPiece(s);
      var rest := s[|first|..];
      PiecesStep(s, tail);
      assert ([first] + (Pieces(rest) + tail))[1..] == Pieces(rest) + tail;
      assert (data + first) + rest == data + s;
      HeaderEndOfPrefix(data, s);
      HeaderEndBound(data);
      HeadOfPieces(data + first, rest, tail);
    }
  }

  lemma WholeIsNotTooLarge(sent: string)
    requires HeaderEnd(sent, 0).Some?
    ensures Whole(sent) != Err("request too large") && "request body too large" != "request too large"
    ensures ParseHead(sent[..HeaderEnd(sent, 0).value]).Ok? ==> Whole(sent) != Err("request body too large")
  {
    hide Lines, Headers, HeaderEnd, NextWord, Strtol;
    assert |"request too large"| == 17 && |"missing request line"| == 20 && |"invalid request line"| == 20;
    assert |"invalid Content-Length"| == 22 && |"request body too large"| == 22 &&
           |"failed to read request body"| == 27;
  }

  /** A header that ends less than a read past 64 KiB: two deliveries with different results. */
  lemma HeadNearTheLimit(sent: string) returns (a: seq<string>, b: seq<string>)
    requires HeaderEnd(sent, 0).Some? && !ClearHead(HeaderEnd(sent, 0).value)
    ensures Deliveries(sent, a, b)
    ensures Received(a) == Err("request too large") != Received(b)
  {
    hide HeaderEnd, Received, Whole, BodyFits, BodyOfFits, CollectHead, Pieces, Sent, Deliverable;
    HeaderEndBound(sent);
    var end, n := HeaderEnd(sent, 0).value + 4, MAX_REQUEST_BYTES;
    NoPieces();
    a := Pieces(sent[..n]) + (Pieces(sent[n..]) + []);
    PiecesDeliver(sent[n..], []);
    PiecesDeliver(sent[..n], Pieces(sent[n..]) + []);
    assert sent[..n] + (sent[n..] + "") == sent;
    assert "" + sent[..n] == sent[..n] && "" + sent[..n - 1] == sent[..n - 1];
    HeadFitsAfterPieces("", sent[..n], Pieces(sent[n..]) + [], end);
    ReceivedIsWhole(a);
    var across := sent[n - 1..end];
    var tail := [across] + (Pieces(sent[end..]) + []);
    b := Pieces(sent[..n - 1]) + tail;
    PiecesDeliver(sent[end..], []);
    SentCons(across, Pieces(sent[end..]) + []);
    PiecesDeliver(sent[..n - 1], tail);
    assert sent[..n - 1] + (across + (sent[end..] + "")) == sent;
    assert tail[1..] == Pieces(sent[end..]) + [];
    assert HeadFits(sent[..n - 1], tail, end);
    HeadFitsAfterPieces("", sent[..n - 1], tail, end);
    ReceivedIsWhole(b);
    WholeIsNotTooLarge(sent);
  }

  /** A body that ends less than a read before 2 MiB, with more bytes behind it: likewise. */
  lemma BodyNearTheLimit(sent: string) returns (a: seq<string>, b: seq<string>)
    requires HeaderEnd(sent, 0).Some? && HeaderEnd(sent, 0).value + 4 <= MAX_REQUEST_BYTES
    requires HeaderEnd(sent, 0).value + 4 <= |sent| && !ClearBody(sent, HeaderEnd(sent, 0).value)
    ensures Deliveries(sent, a, b)
    ensures Received(a) == Err("request body too large") != Received(b)
  {
    hide HeaderEnd, Received, Whole, ParseHead, HeadFits, BodyFits, CollectHead, Pieces, Sent, Deliverable;
    var end := HeaderEnd(sent, 0).value;
    var head, body := sent[..end + 4], sent[end + 4..];
    var length := ParseHead(sent[..end]).value.contentLength;
    LengthIsBounded(sent[..end]);
    HeadAlone(sent);
    NoPieces();
    var k := MAX_BODY_BYTES + 1 - MAX_READ_BYTES;
    var across := body[k..MAX_BODY_BYTES + 1];
    var after := Pieces(body[MAX_BODY_BYTES + 1..]) + [];
    PiecesDeliver(body[MAX_BODY_BYTES + 1..], []);
    SentCons(across, after);
    var bodyA := Pieces(body[..k]) + ([across] + after);
    PiecesDeliver(body[..k], [across] + after);
    assert body[..k] + (across + (body[MAX_BODY_BYTES + 1..] + "")) == body;
    a := DeliverBody(sent, bodyA);
    BodyOverflows(body, k, length, after);
    var bodyB := Pieces(body[..length]) + (Pieces(body[length..]) + []);
    PiecesDeliver(body[length..], []);
    PiecesDeliver(body[..length], Pieces(body[length..]) + []);
    assert body[..length] + (body[length..] + "") == body;
    b := DeliverBody(sent, bodyB);
    assert "" + body[..length] == body[..length];
    BodyFitsAfterPieces("", body[..length], Pieces(body[length..]) + [], length);
    FullBodyFits(body[..length], length, Pieces(body[length..]) + []);
    WholeIsNotTooLarge(sent);
  }

  lemma LengthIsBounded(blob: string)
    ensures ParseHead(blob).Ok? ==> ParseHead(blob).value.contentLength <= MAX_BODY_BYTES
  {
    hide Lines, Headers, NextWord, Strtol;
  }

  lemma FullBodyFits(body: string, length: nat, chunks: seq<string>)
    requires |body| >= length
    ensures BodyFits(body, length, chunks)
  {
  }

  /** A read that begins before the end of the body and ends just past the limit. */
  lemma BodyOverflows(body: string, k: nat, length: nat, after: seq<string>)
    requires k == MAX_BODY_BYTES + 1 - MAX_READ_BYTES < length <= MAX_BODY_BYTES < |body|
    ensures !BodyFits("", length, Pieces(body[..k]) + ([body[k..MAX_BODY_BYTES + 1]] + after))
  {
    hide Pieces;
    var tail := [body[k..MAX_BODY_BYTES + 1]] + after;
    assert "" + body[..k] == body[..k];
    BodyFitsAfterPieces("", body[..k], tail, length);
    assert |body[..k] + tail[0]| > MAX_BODY_BYTES;
  }

  lemma HeadAlone(sent: string)
    requires HeaderEnd(sent, 0).Some?
    ensures HeaderEnd(sent, 0).value + 4 <= |sent|
    ensures HeaderEnd(sent[..HeaderEnd(sent, 0).value + 4], 0) == HeaderEnd(sent, 0)
  {
    var end := HeaderEnd(sent, 0).value;
    var head := sent[..end + 4];
    assert forall i: nat | i + 4 <= |head| :: EndsAt(head, i) <==> EndsAt(sent, i);
    HeaderEndIs(head, end);
  }

  /** The header in pieces, then the body in the given chunks. */
  lemma DeliverBody(sent: string, body: seq<string>) returns (chunks: seq<string>)
    requires HeaderEnd(sent, 0).Some? && HeaderEnd(sent, 0).value + 4 <= MAX_REQUEST_BYTES
    requires HeaderEnd(sent, 0).value + 4 <= |sent| && ParseHead(sent[..HeaderEnd(sent, 0).value]).Ok?
    requires Deliverable(body) && Sent(body) == sent[HeaderEnd(sent, 0).value + 4..]
    ensures Deliverable(chunks) && Sent(chunks) == sent
    ensures Received(chunks) ==
            if BodyFits("", ParseHead(sent[..HeaderEnd(sent, 0).value]).value.contentLength, body) then Whole(sent)
            else Err("request body too large")
  {
    hide HeaderEnd, Received, Whole, ParseHead, HeadFits, BodyFits, CollectHead, Pieces, Sent, Deliverable;
    var end := HeaderEnd(sent, 0).value;
    var head := sent[..end + 4];
    chunks := Pieces(head) + body;
    PiecesDeliver(head, body);
    assert head + sent[end + 4..] == sent;
    HeadAlone(sent);
    assert "" + head == head;
    HeadOfPieces("", head, body);
    SmallHeadFits("", chunks, end + 4);
    ReceivedIsWhole(chunks);
    assert head[..end] == sent[..end] && head[end + 4..] == "";
  }

  /**
    The exact law of fragmentation.  All deliveries of the same bytes give the same result if and only if
    the header block ends within 64 KiB or at least a whole read later (then all are refused), and - in the
    first case, if the header is in order - the body ends a read before 2 MiB or no more than 2 MiB follow.
   */
  lemma FragmentationDoesNotMatter(sent: string)
    ensures Unfragmented(sent) <==> Clear(sent)
  {
    hide HeaderEnd, Received, ClearHead, ClearBody, Clear;
    if Clear(sent) {
      forall a, b | Deliveries(sent, a, b) ensures Received(a) == Received(b) {
        ClearIsReceived(a);
        ClearIsReceived(b);
      }
    } else {
      var a, b := NotClear(sent);
    }
  }

  lemma NotClear(sent: string) returns (a: seq<string>, b: seq<string>)
    requires !Clear(sent)
    ensures Deliveries(sent, a, b) && Received(a) != Received(b)
  {
    hide HeaderEnd, Received, ClearHead, ClearBody;
    HeaderEndBound(sent);
    if !ClearHead(HeaderEnd(sent, 0).value) {
      a, b := HeadNearTheLimit(sent);
    } else {
      a, b := BodyNearTheLimit(sent);
    }
  }
}
