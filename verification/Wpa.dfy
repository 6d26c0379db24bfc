/**
  wpa_supplicant.conf: quoting of SSID and passphrase, the scan for the first network block, and the
  rewriting of its ssid and psk lines.
 */
module Wpa {
  import opened Wrappers
  import opened Text

  // ----------------------------------------------------------------- quoting

  /** Characters after a backslash are taken as they are; a backslash at the very end is dropped. */
  function Unescaped(s: string, escape: bool): string {
    if s == "" then ""
    else if !escape && s[0] == '\\' then Unescaped(s[1..], true)
    else [s[0]] + Unescaped(s[1..], false)
  }

  function Stripped(value: string): string {
    var t := Trim(value);
    if |t| < 2 || t[0] != '"' || t[|t| - 1] != '"' then t else Unescaped(t[1..|t| - 1], false)
  }

  method StripQuotes(value: string) returns (output: string)
    ensures output == Stripped(value)
  {
    var trimmed := Trim(value);
    if |trimmed| < 2 || trimmed[0] != '"' || trimmed[|trimmed| - 1] != '"' {
      return trimmed;
    }
    output := "";
    var inner := trimmed[1..|trimmed| - 1];
    var escape := false;
    for i := 0 to |inner|
      invariant Unescaped(inner, false) == output + Unescaped(inner[i..], escape)
    {
      assert inner[i..][1..] == inner[i + 1..];
      var c := inner[i];
      if escape {
        assert output + ([c] + Unescaped(inner[i + 1..], false)) == (output + [c]) + Unescaped(inner[i + 1..], false);
        output := output + [c];
        escape := false;
        continue;
      }
      if c == '\\' {
        escape := true;
        continue;
      }
      assert output + ([c] + Unescaped(inner[i + 1..], false)) == (output + [c]) + Unescaped(inner[i + 1..], false);
      output := output + [c];
    }
  }

  function EscapedChar(c: char): string {
    if c == '\\' || c == '"' then ['\\', c] else [c]
  }

  function Escaped(s: string): string {
    if s == "" then ""
    else
      var n := |s| - 1;
      Escaped(s[..n]) + EscapedChar(s[n])
  }

  function Quoted(value: string): string {
    "\"" + Escaped(value) + "\""
  }

  method QuoteForWpa(value: string) returns (out: string)
    ensures out == Quoted(value)
  {
    out := "\"";
    for i := 0 to |value|
      invariant out == "\"" + Escaped(value[..i])
    {
      assert value[..i + 1][..i] == value[..i];
      var c := value[i];
      if c == '\\' || c == '"' {
        out := out + "\\";
      }
      out := out + [c];
    }
    assert value[..|value|] == value;
    out := out + "\"";
  }

  lemma UnescapeChar(c: char, rest: string)
    ensures Unescaped(EscapedChar(c) + rest, false) == [c] + Unescaped(rest, false)
  {
    var e := EscapedChar(c);
    assert (e + rest)[1..] == e[1..] + rest;
    if |e| == 2 {
      assert (e + rest)[1..][1..] == rest;
    } else {
      assert (e + rest)[1..] == rest;
    }
  }

  lemma {:induction false} UnescapeAfterEscape(s: string, rest: string)
    ensures Unescaped(Escaped(s) + rest, false) == s + Unescaped(rest, false)
    decreases |s|
  {
    hide Unescaped;
    if s == "" {
      assert "" + rest == rest;
    } else {
      var n := |s| - 1;
      assert Escaped(s) + rest == Escaped(s[..n]) + (EscapedChar(s[n]) + rest);
      UnescapeAfterEscape(s[..n], EscapedChar(s[n]) + rest);
      UnescapeChar(s[n], rest);
      assert s[..n] + ([s[n]] + Unescaped(rest, false)) == s + Unescaped(rest, false);
    }
  }

  /** Quoting is undone exactly, for every value: quotes, backslashes and outer blanks included. */
  lemma QuoteRoundTrip(value: string)
    ensures Stripped(Quoted(value)) == value
  {
    TrimFixed(Quoted(value));
    assert Quoted(value)[1..|Quoted(value)| - 1] == Escaped(value);
    UnescapeAfterEscape(value, "");
    assert Escaped(value) + "" == Escaped(value) && value + "" == value;
  }

  /** No quote in the text stands alone, and no backslash is left at its end. */
  predicate OneString(s: string, escape: bool) {
    if s == "" then !escape
    else if escape then OneString(s[1..], false)
    else if s[0] == '\\' then OneString(s[1..], true)
    else s[0] != '"' && OneString(s[1..], false)
  }

  lemma EscapedCharIsClosed(c: char, rest: string)
    ensures OneString(EscapedChar(c) + rest, false) == OneString(rest, false)
  {
    var e := EscapedChar(c);
    assert (e + rest)[1..] == e[1..] + rest;
    if |e| == 2 {
      assert (e + rest)[1..][1..] == rest;
    } else {
      assert (e + rest)[1..] == rest;
    }
  }

  lemma {:induction false} EscapedIsClosed(s: string, rest: string)
    ensures OneString(Escaped(s) + rest, false) == OneString(rest, false)
    decreases |s|
  {
    hide OneString;
    if s == "" {
      assert "" + rest == rest;
    } else {
      var n := |s| - 1;
      assert Escaped(s) + rest == Escaped(s[..n]) + (EscapedChar(s[n]) + rest);
      EscapedIsClosed(s[..n], EscapedChar(s[n]) + rest);
      EscapedCharIsClosed(s[n], rest);
    }
  }

  /** A quoted value ends at its last character and not before. */
  lemma QuotedIsOneString(value: string)
    ensures var q, n := Quoted(value), |Quoted(value)|;
            n >= 2 && q[0] == q[n - 1] == '"' && OneString(q[1..n - 1], false)
  {
    assert Quoted(value)[1..|Quoted(value)| - 1] == Escaped(value) == Escaped(value) + "";
    EscapedIsClosed(value, "");
  }

  // ---------------------------------------------------- scanning for the block

  const OPENING := "network={"
  const CLOSING := "}"

  /** What a line means to the scan.  Inside a block a '#' is nothing special and OPENING sets no credential. */
  datatype Kind = Opening | Closing | Ssid(ssid: string) | Psk(psk: string) | Other

  function KindOf(line: string): Kind {
    var t := Trim(line);
    if t == OPENING then Opening
    else if t == CLOSING then Closing
    else
      var i := IndexOf(t, '=');
      if i == |t| then Other
      else
        var key, value := Trim(t[..i]), Trim(t[i + 1..]);
        if key == "ssid" then Ssid(Stripped(value))
        else if key == "psk" then Psk(Stripped(value))
        else Other
  }

  function Kinds(lines: seq<string>): (kinds: seq<Kind>)
    ensures |kinds| == |lines| && forall i | 0 <= i < |kinds| :: kinds[i] == KindOf(lines[i])
  {
    seq(|lines|, i requires 0 <= i < |lines| => KindOf(lines[i]))
  }

  /** The first position from `from` on of the given kind; the length if there is none. */
  function First(kinds: seq<Kind>, from: nat, k: Kind): (i: nat)
    requires from <= |kinds|
    ensures from <= i <= |kinds|
    ensures i < |kinds| ==> kinds[i] == k
    ensures forall j | from <= j < i :: kinds[j] != k
    decreases |kinds| - from
  {
    if from == |kinds| || kinds[from] == k then from else First(kinds, from + 1, k)
  }

  lemma FirstIs(kinds: seq<Kind>, from: nat, k: Kind, i: nat)
    requires from <= i <= |kinds|
    requires i < |kinds| ==> kinds[i] == k
    requires forall j | from <= j < i :: kinds[j] != k
    ensures First(kinds, from, k) == i
  {
    if First(kinds, from, k) < i {
      assert false;
    }
  }

  /** The SSID that the last ssid line leaves; "" without any. */
  function LastSsid(kinds: seq<Kind>): string {
    if kinds == [] then ""
    else
      var n := |kinds| - 1;
      if kinds[n].Ssid? then kinds[n].ssid else LastSsid(kinds[..n])
  }

  function LastPsk(kinds: seq<Kind>): string {
    if kinds == [] then ""
    else
      var n := |kinds| - 1;
      if kinds[n].Psk? then kinds[n].psk else LastPsk(kinds[..n])
  }

  datatype WpaData = WpaData(ssid: string, psk: string, hasBlock: bool, start: nat, end: nat)

  /**
    The first block decides.  If it is not closed its credentials still count, but it is not
    reported as a block.
   */
  function Scan(kinds: seq<Kind>): (d: WpaData)
    ensures d.hasBlock ==> d.start < d.end < |kinds|
  {
    var s := First(kinds, 0, Opening);
    if s == |kinds| then WpaData("", "", false, 0, 0)
    else
      var e := First(kinds, s + 1, Closing);
      var body := kinds[s + 1..e];
      WpaData(LastSsid(body), LastPsk(body), e < |kinds|, s, if e < |kinds| then e else 0)
  }

  function Parsed(lines: seq<string>): WpaData {
    Scan(Kinds(lines))
  }

  lemma LastStep(kinds: seq<Kind>, from: nat, i: nat)
    requires from <= i < |kinds|
    ensures LastSsid(kinds[from..i + 1]) == if kinds[i].Ssid? then kinds[i].ssid else LastSsid(kinds[from..i])
    ensures LastPsk(kinds[from..i + 1]) == if kinds[i].Psk? then kinds[i].psk else LastPsk(kinds[from..i])
  {
    var body := kinds[from..i + 1];
    assert body[..|body| - 1] == kinds[from..i];
  }

  lemma {:induction false} LastSsidIs(kinds: seq<Kind>, i: nat)
    requires i < |kinds| && kinds[i].Ssid? && forall j | i < j < |kinds| :: !kinds[j].Ssid?
    ensures LastSsid(kinds) == kinds[i].ssid
    decreases |kinds|
  {
    if i < |kinds| - 1 {
      LastSsidIs(kinds[..|kinds| - 1], i);
    }
  }

  lemma {:induction false} LastPskIs(kinds: seq<Kind>, i: nat)
    requires i < |kinds| && kinds[i].Psk? && forall j | i < j < |kinds| :: !kinds[j].Psk?
    ensures LastPsk(kinds) == kinds[i].psk
    decreases |kinds|
  {
    if i < |kinds| - 1 {
      LastPskIs(kinds[..|kinds| - 1], i);
    }
  }

  /** The first block counts, closed or not, and in it the last ssid line and the last psk line. */
  lemma BlockIsRead(lines: seq<string>, start: nat, end: nat, ssidAt: nat, pskAt: nat, ssid: string, psk: string)
    requires start < end <= |lines| && start < ssidAt < end && start < pskAt < end
    requires Trim(lines[start]) == OPENING && forall i | 0 <= i < start :: Trim(lines[i]) != OPENING
    requires end < |lines| ==> KindOf(lines[end]) == Closing
    requires forall i | start < i < end :: KindOf(lines[i]) != Closing
    requires KindOf(lines[ssidAt]) == Ssid(ssid) && forall i | ssidAt < i < end :: !KindOf(lines[i]).Ssid?
    requires KindOf(lines[pskAt]) == Psk(psk) && forall i | pskAt < i < end :: !KindOf(lines[i]).Psk?
    ensures Parsed(lines) == WpaData(ssid, psk, end < |lines|, start, if end < |lines| then end else 0)
  {
    hide KindOf, LastSsid, LastPsk, First, Trim;
    var kinds := Kinds(lines);
    forall i | 0 <= i <= start ensures kinds[i] == Opening <==> i == start {
      OnlyOpeningOpens(lines[i]);
    }
    FirstIs(kinds, 0, Opening, start);
    FirstIs(kinds, start + 1, Closing, end);
    LastSsidIs(kinds[start + 1..end], ssidAt - start - 1);
    LastPskIs(kinds[start + 1..end], pskAt - start - 1);
  }

  /** Where the scan stands before line `i`. */
  ghost predicate Scanned(kinds: seq<Kind>, i: nat, inBlock: bool, start: nat, ssid: string, psk: string)
    requires i <= |kinds|
  {
    if inBlock then
      && start < i && kinds[start] == Opening
      && (forall j | 0 <= j < start :: kinds[j] != Opening)
      && (forall j | start < j < i :: kinds[j] != Closing)
      && ssid == LastSsid(kinds[start + 1..i])
      && psk == LastPsk(kinds[start + 1..i])
    else
      && start == 0 && ssid == "" && psk == ""
      && (forall j | 0 <= j < i :: kinds[j] != Opening)
  }

  lemma ScannedAll(kinds: seq<Kind>, i: nat, inBlock: bool, start: nat, ssid: string, psk: string)
    requires i <= |kinds| && Scanned(kinds, i, inBlock, start, ssid, psk)
    requires i == |kinds| || (inBlock && kinds[i] == Closing)
    ensures Scan(kinds) == WpaData(ssid, psk, i < |kinds|, start, if i < |kinds| then i else 0)
  {
    if inBlock {
      FirstIs(kinds, 0, Opening, start);
      FirstIs(kinds, start + 1, Closing, i);
    } else {
      FirstIs(kinds, 0, Opening, i);
    }
  }

  /** The tests that the loops make on one line. */
  method Classify(line: string) returns (k: Kind)
    ensures k == KindOf(line)
  {
    var trimmed := Trim(line);
    if trimmed == "network={" {
      return Opening;
    }
    if trimmed == "}" {
      return Closing;
    }
    var separator := IndexOf(trimmed, '=');
    if separator == |trimmed| {
      return Other;
    }
    var key := Trim(trimmed[..separator]);
    var value := Trim(trimmed[separator + 1..]);
    if key == "ssid" {
      var ssid := StripQuotes(value);
      return Ssid(ssid);
    } else if key == "psk" {
      var psk := StripQuotes(value);
      return Psk(psk);
    }
    return Other;
  }

  method ParseWpaData(lines: seq<string>) returns (data: WpaData)
    ensures data == Parsed(lines)
  {
    hide KindOf, Scan, Scanned, LastSsid, LastPsk;
    ghost var kinds := Kinds(lines);
    ScannedNothing(kinds);
    var inBlock := false;
    var ssid, psk := "", "";
    var start := 0;
    for i := 0 to |lines|
      invariant Scanned(kinds, i, inBlock, start, ssid, psk)
    {
      var kind := Classify(lines[i]);
      assert kinds[i] == kind;
      ghost var before := (inBlock, start, ssid, psk);
      if !inBlock && kind == Opening {
        inBlock, start := true, i;
      } else if inBlock && kind == Closing {
        ScannedAll(kinds, i, inBlock, start, ssid, psk);
        return WpaData(ssid, psk, true, start, i);
      } else if inBlock && kind.Ssid? {
        ssid := kind.ssid;
      } else if inBlock && kind.Psk? {
        psk := kind.psk;
      }
      ScannedStep(kinds, i, before.0, before.1, before.2, before.3);
    }
    ScannedAll(kinds, |lines|, inBlock, start, ssid, psk);
    data := WpaData(ssid, psk, false, start, 0);
  }

  lemma ScannedNothing(kinds: seq<Kind>)
    ensures Scanned(kinds, 0, false, 0, "", "")
  {
  }

  lemma ScannedStep(kinds: seq<Kind>, i: nat, inBlock: bool, start: nat, ssid: string, psk: string)
    requires i < |kinds| && Scanned(kinds, i, inBlock, start, ssid, psk)
    requires !(inBlock && kinds[i] == Closing)
    ensures if !inBlock && kinds[i] == Opening then Scanned(kinds, i + 1, true, i, ssid, psk)
            else Scanned(kinds, i + 1, inBlock, start,
                         if inBlock && kinds[i].Ssid? then kinds[i].ssid else ssid,
                         if inBlock && kinds[i].Psk? then kinds[i].psk else psk)
  {
    if inBlock {
      LastStep(kinds, start + 1, i);
    } else {
      assert kinds[i + 1..i + 1] == [];
    }
  }

  // ------------------------------------------------------------- rewriting

  const DEFAULT_LINES: seq<string> := ["ctrl_interface=/var/run/wpa_supplicant", "update_config=1", "country=US", ""]

  function Base(lines: seq<string>): (base: seq<string>)
    ensures base != []
  {
    if lines == [] then DEFAULT_LINES else lines
  }

  lemma DefaultIsNoOpening(i: nat)
    requires i < |DEFAULT_LINES|
    ensures Trim(DEFAULT_LINES[i]) != OPENING
  {
    TrimFixed(DEFAULT_LINES[i]);
    assert i < 3 ==> DEFAULT_LINES[i][0] == 'c' || DEFAULT_LINES[i][0] == 'u';
  }

  lemma OnlyOpeningOpens(line: string)
    ensures KindOf(line) == Opening <==> Trim(line) == OPENING
  {
    hide Trim, IndexOf, Stripped;
  }

  /** The lines put into a new file contain no network block. */
  lemma DefaultsHaveNoBlock()
    ensures Parsed(DEFAULT_LINES).psk == "" && Parsed([]).psk == ""
  {
    hide KindOf;
    var kinds := Kinds(DEFAULT_LINES);
    forall i | 0 <= i < |DEFAULT_LINES| ensures kinds[i] != Opening {
      DefaultIsNoOpening(i);
      OnlyOpeningOpens(DEFAULT_LINES[i]);
    }
    FirstIs(kinds, 0, Opening, |kinds|);
    FirstIs(Kinds([]), 0, Opening, 0);
  }

  function SsidLine(ssid: string): string { "    ssid=" + Quoted(ssid) }

  function PskLine(psk: string): string { "    psk=" + Quoted(psk) }

  /** A new passphrase replaces the stored one; a blank or missing one keeps it, if there is one. */
  function ChosenPsk(requested: Option<string>, stored: string): Result<string> {
    if requested.Some? && requested.value != "" then Ok(requested.value)
    else if stored != "" then Ok(stored)
    else if requested.Some? then Err("wifi_password is blank and no existing password is available")
    else Err("wifi_password is missing and no existing password is available")
  }

  /** The five texts an edit writes. */
  datatype Parts<T> = Parts(blank: T, opening: T, ssid: T, psk: T, closing: T)

  function Replaced<T>(item: T, kind: Kind, parts: Parts<T>): T {
    if kind.Ssid? then parts.ssid else if kind.Psk? then parts.psk else item
  }

  function NewBody<T>(body: seq<T>, kinds: seq<Kind>, parts: Parts<T>): (r: seq<T>)
    requires |body| == |kinds|
    ensures |r| == |body| && forall i | 0 <= i < |r| :: r[i] == Replaced(body[i], kinds[i], parts)
  {
    seq(|body|, i requires 0 <= i < |body| => Replaced(body[i], kinds[i], parts))
  }

  ghost predicate HasSsid(kinds: seq<Kind>) {
    exists i | 0 <= i < |kinds| :: kinds[i].Ssid?
  }

  ghost predicate HasPsk(kinds: seq<Kind>) {
    exists i | 0 <= i < |kinds| :: kinds[i].Psk?
  }

  ghost function Inserted<T>(kinds: seq<Kind>, parts: Parts<T>): seq<T> {
    (if HasSsid(kinds) then [] else [parts.ssid]) + (if HasPsk(kinds) then [] else [parts.psk])
  }

  ghost function EditedBlock<T>(items: seq<T>, kinds: seq<Kind>, start: nat, end: nat, parts: Parts<T>): seq<T>
    requires |items| == |kinds| && start < end < |items|
  {
    items[..start + 1] +
    NewBody(items[start + 1..end], kinds[start + 1..end], parts) +
    Inserted(kinds[start + 1..end], parts) +
    items[end..]
  }

  ghost function WithNewBlock<T>(items: seq<T>, gap: bool, parts: Parts<T>): seq<T> {
    items + (if gap then [parts.blank] else []) + [parts.opening, parts.ssid, parts.psk, parts.closing]
  }

  /**
    The edit: inside a closed block credential items are replaced and missing ones put before the
    end; without a closed block a new one is appended.  It works on lines and on their kinds alike.
   */
  ghost function Edited<T>(items: seq<T>, kinds: seq<Kind>, gap: bool, parts: Parts<T>): seq<T>
    requires |items| == |kinds|
  {
    var d := Scan(kinds);
    if d.hasBlock then EditedBlock(items, kinds, d.start, d.end, parts) else WithNewBlock(items, gap, parts)
  }

  function LineParts(ssid: string, psk: string): Parts<string> {
    Parts("", OPENING, SsidLine(ssid), PskLine(psk), CLOSING)
  }

  function KindParts(ssid: string, psk: string): Parts<Kind> {
    Parts(Other, Opening, Ssid(ssid), Psk(psk), Closing)
  }

  /** A blank line is put before a new block unless the file already ends in one. */
  predicate Gap(base: seq<string>) {
    base != [] && base[|base| - 1] != ""
  }

  ghost function SavedLines(base: seq<string>, ssid: string, psk: string): seq<string> {
    Edited(base, Kinds(base), Gap(base), LineParts(ssid, psk))
  }

  /** The loop over the block: credential lines are replaced where they stand. */
  method RewriteBlock(base: seq<string>, ghost kinds: seq<Kind>, start: nat, end: nat, parts: Parts<string>)
    returns (lines: seq<string>, ssidWritten: bool, pskWritten: bool)
    requires start < end <= |base| && kinds == Kinds(base)
    ensures |lines| == |base|
    ensures forall j | 0 <= j < |base| ::
              lines[j] == if start < j < end then Replaced(base[j], kinds[j], parts) else base[j]
    ensures ssidWritten <==> exists j | start < j < end :: kinds[j].Ssid?
    ensures pskWritten <==> exists j | start < j < end :: kinds[j].Psk?
  {
    hide KindOf;
    lines := base;
    ssidWritten, pskWritten := false, false;
    for i := start + 1 to end
      invariant |lines| == |base|
      invariant forall j | 0 <= j < |base| ::
                  lines[j] == if start < j < i then Replaced(base[j], kinds[j], parts) else base[j]
      invariant ssidWritten <==> exists j | start < j < i :: kinds[j].Ssid?
      invariant pskWritten <==> exists j | start < j < i :: kinds[j].Psk?
    {
      var kind := Classify(lines[i]);
      assert kinds[i] == kind;
      if kind.Ssid? {
        lines := lines[i := parts.ssid];
        ssidWritten := true;
      } else if kind.Psk? {
        lines := lines[i := parts.psk];
        pskWritten := true;
      }
    }
  }

  lemma RewrittenBlock(base: seq<string>, kinds: seq<Kind>, start: nat, end: nat, parts: Parts<string>,
      lines: seq<string>)
    requires |kinds| == |base| == |lines| && start < end < |base|
    requires forall j | 0 <= j < |base| ::
               lines[j] == if start < j < end then Replaced(base[j], kinds[j], parts) else base[j]
    ensures lines[..end] == base[..start + 1] + NewBody(base[start + 1..end], kinds[start + 1..end], parts)
    ensures lines[end..] == base[end..]
    ensures HasSsid(kinds[start + 1..end]) <==> exists j | start < j < end :: kinds[j].Ssid?
    ensures HasPsk(kinds[start + 1..end]) <==> exists j | start < j < end :: kinds[j].Psk?
  {
    var body := kinds[start + 1..end];
    assert forall j | start < j < end :: kinds[j] == body[j - start - 1];
    assert forall j | 0 <= j < |body| :: kinds[j + start + 1] == body[j];
  }

  method AppendBlock(base: seq<string>, parts: Parts<string>) returns (lines: seq<string>)
    requires parts.blank == ""
    ensures lines == WithNewBlock(base, Gap(base), parts)
  {
    lines := base;
    if lines != [] && lines[|lines| - 1] != "" {
      lines := lines + [parts.blank];
    }
    lines := lines + [parts.opening];
    lines := lines + [parts.ssid];
    lines := lines + [parts.psk];
    lines := lines + [parts.closing];
  }

  method EditBlock(base: seq<string>, start: nat, end: nat, parts: Parts<string>) returns (lines: seq<string>)
    requires start < end < |base|
    ensures lines == EditedBlock(base, Kinds(base), start, end, parts)
  {
    hide KindOf, HasSsid, HasPsk;
    ghost var kinds := Kinds(base);
    var ssidWritten, pskWritten;
    lines, ssidWritten, pskWritten := RewriteBlock(base, kinds, start, end, parts);
    RewrittenBlock(base, kinds, start, end, parts, lines);
    lines := InsertMissing(lines, end, ssidWritten, pskWritten, parts);
  }

  /** Both branches of the edit. */
  method EditLines(base: seq<string>, parsed: WpaData, parts: Parts<string>) returns (lines: seq<string>)
    requires parsed == Parsed(base) && parts.blank == ""
    ensures lines == Edited(base, Kinds(base), Gap(base), parts)
  {
    hide KindOf, LastSsid, LastPsk, EditedBlock, WithNewBlock;
    if !parsed.hasBlock {
      lines := AppendBlock(base, parts);
    } else {
      lines := EditBlock(base, parsed.start, parsed.end, parts);
    }
  }

  /** Missing credentials are inserted just before the end of the block. */
  method InsertMissing(old_: seq<string>, end: nat, ssidWritten: bool, pskWritten: bool, parts: Parts<string>)
    returns (lines: seq<string>)
    requires end <= |old_|
    ensures lines == old_[..end]
                   + ((if ssidWritten then [] else [parts.ssid]) + (if pskWritten then [] else [parts.psk]))
                   + old_[end..]
  {
    lines := old_;
    var insertPos := end;
    if !ssidWritten {
      lines := lines[..insertPos] + [parts.ssid] + lines[insertPos..];
      insertPos := insertPos + 1;
    }
    if !pskWritten {
      lines := lines[..insertPos] + [parts.psk] + lines[insertPos..];
    }
  }

  /** The line rewriting of `SaveWpaSupplicant`. */
  method SaveWpaLines(old_: seq<string>, ssid: string, requested: Option<string>) returns (r: Result<seq<string>>)
    ensures var psk := ChosenPsk(requested, Parsed(Base(old_)).psk);
            if psk.Ok? then r == Ok(SavedLines(Base(old_), ssid, psk.value)) else r == Err(psk.error)
  {
    hide Scan, Edited, KindOf, Kinds, Gap, Escaped;
    var lines := old_;
    if lines == [] {
      lines := lines + ["ctrl_interface=/var/run/wpa_supplicant"];
      lines := lines + ["update_config=1"];
      lines := lines + ["country=US"];
      lines := lines + [""];
    }
    assert lines == Base(old_);
    var parsed := ParseWpaData(lines);
    var password: string;
    if requested.Some? {
      if requested.value == "" {
        password := parsed.psk;
        if password == "" {
          return Err("wifi_password is blank and no existing password is available");
        }
      } else {
        password := requested.value;
      }
    } else {
      password := parsed.psk;
      if password == "" {
        return Err("wifi_password is missing and no existing password is available");
      }
    }
    var quotedSsid := QuoteForWpa(ssid);
    var quotedPsk := QuoteForWpa(password);
    var parts := Parts("", OPENING, "    ssid=" + quotedSsid, "    psk=" + quotedPsk, CLOSING);
    lines := EditLines(lines, parsed, parts);
    r := Ok(lines);
  }

  // -------------------------------------------------- what a save achieves

  lemma WrittenEntry(key: string, value: string)
    requires key == "ssid" || key == "psk"
    ensures var t := key + "=" + Quoted(value);
            && Trim("    " + t) == t && IndexOf(t, '=') == |key|
            && Trim(t[..|key|]) == key && Trim(t[|key| + 1..]) == Quoted(value)
  {
    var t := key + "=" + Quoted(value);
    assert "    " + t + "" == "    " + t;
    TrimUnique("    ", t, "");
    IndexOfIs(t, '=', |key|);
    assert t[..|key|] == key && t[|key| + 1..] == Quoted(value);
    TrimFixed(key);
    TrimFixed(Quoted(value));
  }

  lemma KindOfSsidLine(ssid: string)
    ensures KindOf(SsidLine(ssid)) == Ssid(ssid)
  {
    hide Trim, Stripped, Quoted, IndexOf;
    WrittenEntry("ssid", ssid);
    QuoteRoundTrip(ssid);
    var t := "ssid" + "=" + Quoted(ssid);
    assert SsidLine(ssid) == "    " + t;
    assert t[0] == 's';
  }

  lemma KindOfPskLine(psk: string)
    ensures KindOf(PskLine(psk)) == Psk(psk)
  {
    hide Trim, Stripped, Quoted, IndexOf;
    WrittenEntry("psk", psk);
    QuoteRoundTrip(psk);
    var t := "psk" + "=" + Quoted(psk);
    assert PskLine(psk) == "    " + t;
    assert t[0] == 'p';
  }

  /** A value as it may stand in a file: quoted, or as it is if it does not begin with a quote. */
  predicate Shows(shown: string, value: string) {
    shown == Quoted(value) || (shown == value && value != "" && Trimmed(value) && value[0] != '"')
  }

  lemma ShownIsStripped(shown: string, value: string)
    requires Shows(shown, value)
    ensures Trimmed(shown) && shown != "" && Stripped(shown) == value
  {
    TrimFixed(shown);
    if shown == Quoted(value) {
      QuoteRoundTrip(value);
    }
  }

  /** The lines that give the credentials, with blanks wherever they are allowed. */
  lemma CredentialLineIsRead(a: string, b: string, c: string, shown: string, d: string, value: string)
    requires AllBlank(a) && AllBlank(b) && AllBlank(c) && AllBlank(d) && Shows(shown, value)
    ensures KindOf(a + "ssid" + b + "=" + c + shown + d) == Ssid(value)
    ensures KindOf(a + "psk" + b + "=" + c + shown + d) == Psk(value)
  {
    hide Trim, Stripped, IndexOf;
    ShownIsStripped(shown, value);
    TrimmedEntry(a, "ssid", b, c, shown, d);
    TrimmedEntry(a, "psk", b, c, shown, d);
    assert "ssid"[0] == 's' && "psk"[0] == 'p' && OPENING[0] == 'n' && CLOSING[0] == '}';
    assert |"ssid"| == 4 && |"psk"| == 3;
  }

  lemma KindsOfMarkers()
    ensures KindOf(OPENING) == Opening && KindOf(CLOSING) == Closing && KindOf("") == Other
  {
    TrimFixed(OPENING);
    TrimFixed(CLOSING);
  }

  ghost predicate KindsAre(kinds: seq<Kind>, lines: seq<string>, kindOf: string -> Kind) {
    |kinds| == |lines| && forall i | 0 <= i < |lines| :: kinds[i] == kindOf(lines[i])
  }

  lemma KindsOfEditedBlock(base: seq<string>, kinds: seq<Kind>, s: nat, e: nat, parts: Parts<string>,
                           kindParts: Parts<Kind>, kindOf: string -> Kind)
    requires KindsAre(kinds, base, kindOf) && s < e < |base|
    requires kindOf(parts.ssid) == kindParts.ssid && kindOf(parts.psk) == kindParts.psk
    ensures KindsAre(EditedBlock(kinds, kinds, s, e, kindParts), EditedBlock(base, kinds, s, e, parts), kindOf)
  {
    var body := kinds[s + 1..e];
    KindsAppend(kinds[..s + 1], base[..s + 1], NewBody(body, body, kindParts), NewBody(base[s + 1..e], body, parts),
        kindOf);
    KindsAppend(kinds[..s + 1] + NewBody(body, body, kindParts), base[..s + 1] + NewBody(base[s + 1..e], body, parts),
                Inserted(body, kindParts), Inserted(body, parts), kindOf);
  }

  lemma KindsAppend(a: seq<Kind>, x: seq<string>, b: seq<Kind>, y: seq<string>, kindOf: string -> Kind)
    requires KindsAre(a, x, kindOf) && KindsAre(b, y, kindOf)
    ensures KindsAre(a + b, x + y, kindOf)
  {
  }

  /** Editing lines and then looking at their kinds is editing the kinds. */
  lemma KindsOfEdited(base: seq<string>, kinds: seq<Kind>, gap: bool, parts: Parts<string>, kindParts: Parts<Kind>,
                      kindOf: string -> Kind)
    requires KindsAre(kinds, base, kindOf)
    requires kindParts ==
             Parts(kindOf(parts.blank), kindOf(parts.opening), kindOf(parts.ssid), kindOf(parts.psk),
                 kindOf(parts.closing))
    ensures KindsAre(Edited(kinds, kinds, gap, kindParts), Edited(base, kinds, gap, parts), kindOf)
  {
    var d := Scan(kinds);
    if d.hasBlock {
      KindsOfEditedBlock(base, kinds, d.start, d.end, parts, kindParts, kindOf);
    }
  }

  lemma {:induction false} LastAppend(a: seq<Kind>, b: seq<Kind>)
    ensures LastSsid(a + b) == if HasSsid(b) then LastSsid(b) else LastSsid(a)
    ensures LastPsk(a + b) == if HasPsk(b) then LastPsk(b) else LastPsk(a)
  {
    if b == [] {
      assert a + b == a;
    } else {
      var n := |b| - 1;
      assert (a + b)[..|a + b| - 1] == a + b[..n];
      LastAppend(a, b[..n]);
      if i :| 0 <= i < |b| && b[i].Ssid? {
        assert i < n ==> b[..n][i].Ssid?;
      }
      if i :| 0 <= i < |b| && b[i].Psk? {
        assert i < n ==> b[..n][i].Psk?;
      }
    }
  }

  lemma {:induction false} LastOfNewBody(kinds: seq<Kind>, ssid: string, psk: string)
    ensures var body := NewBody(kinds, kinds, KindParts(ssid, psk));
            && LastSsid(body) == (if HasSsid(kinds) then ssid else "")
            && LastPsk(body) == (if HasPsk(kinds) then psk else "")
  {
    if kinds != [] {
      var n := |kinds| - 1;
      var init := kinds[..n];
      LastOfNewBody(init, ssid, psk);
      assert NewBody(kinds, kinds, KindParts(ssid, psk))[..n] == NewBody(init, init, KindParts(ssid, psk));
      if i :| 0 <= i < |kinds| && kinds[i].Ssid? {
        assert i < n ==> init[i].Ssid?;
      }
      if i :| 0 <= i < |kinds| && kinds[i].Psk? {
        assert i < n ==> init[i].Psk?;
      }
    }
  }

  lemma LastOfBlock(kinds: seq<Kind>, ssid: string, psk: string)
    ensures var block := NewBody(kinds, kinds, KindParts(ssid, psk)) + Inserted(kinds, KindParts(ssid, psk));
            LastSsid(block) == ssid && LastPsk(block) == psk
  {
    var inserted := Inserted(kinds, KindParts(ssid, psk));
    LastOfNewBody(kinds, ssid, psk);
    LastAppend(NewBody(kinds, kinds, KindParts(ssid, psk)), inserted);
    LastOfTwo(ssid, psk);
  }

  lemma LastOfTwo(ssid: string, psk: string)
    ensures LastSsid([Ssid(ssid), Psk(psk)]) == ssid && LastPsk([Ssid(ssid), Psk(psk)]) == psk
    ensures LastSsid([Ssid(ssid)]) == ssid && LastPsk([Psk(psk)]) == psk
    ensures HasSsid([Ssid(ssid), Psk(psk)]) && HasPsk([Ssid(ssid), Psk(psk)])
    ensures HasSsid([Ssid(ssid)]) && HasPsk([Psk(psk)]) && !HasPsk([Ssid(ssid)]) && !HasSsid([Psk(psk)])
  {
    var a, b := Ssid(ssid), Psk(psk);
    assert [a, b][..1] == [a] && [a][..0] == [] && [b][..0] == [];
    assert [a, b][0].Ssid? && [a, b][1].Psk? && [a][0].Ssid? && [b][0].Psk?;
  }

  /** A file whose first block is closed, and what scanning it gives. */
  lemma ScanOfBlock(kinds: seq<Kind>, s: nat, e: nat)
    requires s < e < |kinds| && kinds[s] == Opening && kinds[e] == Closing
    requires forall j | 0 <= j < s :: kinds[j] != Opening
    requires forall j | s < j < e :: kinds[j] != Closing
    ensures Scan(kinds) == WpaData(LastSsid(kinds[s + 1..e]), LastPsk(kinds[s + 1..e]), true, s, e)
  {
    FirstIs(kinds, 0, Opening, s);
    FirstIs(kinds, s + 1, Closing, e);
  }

  lemma EditedBlockAt<T>(items: seq<T>, kinds: seq<Kind>, s: nat, e: nat, parts: Parts<T>)
    requires |items| == |kinds| && s < e < |items|
    ensures var body, inserted := kinds[s + 1..e], Inserted(kinds[s + 1..e], parts);
            var edited := EditedBlock(items, kinds, s, e, parts);
            && |edited| == |items| + |inserted|
            && (forall j | 0 <= j <= s :: edited[j] == items[j])
            && edited[s + 1..e + |inserted|] == NewBody(items[s + 1..e], body, parts) + inserted
            && edited[e + |inserted|..] == items[e..]
  {
  }

  lemma EditIntoClosedBlock(kinds: seq<Kind>, s: nat, e: nat, ssid: string, psk: string)
    requires s < e < |kinds| && kinds[s] == Opening && kinds[e] == Closing
    requires forall j | 0 <= j < s :: kinds[j] != Opening
    requires forall j | s < j < e :: kinds[j] != Closing
    ensures var d := Scan(EditedBlock(kinds, kinds, s, e, KindParts(ssid, psk)));
            d.ssid == ssid && d.psk == psk && d.hasBlock
  {
    var parts := KindParts(ssid, psk);
    var body := kinds[s + 1..e];
    var edited := EditedBlock(kinds, kinds, s, e, parts);
    EditedBlockAt(kinds, kinds, s, e, parts);
    var e' := e + |Inserted(body, parts)|;
    var block := edited[s + 1..e'];
    assert edited[e'] == edited[e'..][0] == kinds[e..][0];
    forall j | s < j < e' ensures edited[j] != Closing {
      assert edited[j] == block[j - s - 1];
      assert j < e ==> body[j - s - 1] == kinds[j];
    }
    ScanOfBlock(edited, s, e');
    LastOfBlock(body, ssid, psk);
  }

  lemma EditAsNewBlock(kinds: seq<Kind>, gap: bool, ssid: string, psk: string)
    requires !Scan(kinds).hasBlock
    ensures var d := Scan(WithNewBlock(kinds, gap, KindParts(ssid, psk)));
            d.ssid == ssid && d.psk == psk && d.hasBlock
  {
    hide WithNewBlock, LastSsid, LastPsk, HasSsid, HasPsk, KindParts;
    var s := First(kinds, 0, Opening);
    var n := |kinds| + if gap then 1 else 0;
    var edited := WithNewBlock(kinds, gap, KindParts(ssid, psk));
    NewBlockAt(kinds, gap, ssid, psk);
    if s == |kinds| {
      ScanOfBlock(edited, n, n + 3);
    } else {
      assert forall j | s < j < |kinds| :: kinds[j] != Closing by {
        assert First(kinds, s + 1, Closing) == |kinds|;
      }
      ScanOfBlock(edited, s, n + 3);
      LastOfTail(edited, s + 1, n + 1, n + 3);
    }
  }

  lemma LastOfTail(kinds: seq<Kind>, from: nat, mid: nat, to: nat)
    requires from <= mid <= to <= |kinds| && HasSsid(kinds[mid..to]) && HasPsk(kinds[mid..to])
    ensures LastSsid(kinds[from..to]) == LastSsid(kinds[mid..to]) && LastPsk(kinds[from..to]) == LastPsk(kinds[mid..to])
  {
    assert kinds[from..to] == kinds[from..mid] + kinds[mid..to];
    LastAppend(kinds[from..mid], kinds[mid..to]);
  }

  lemma NewBlockAt(kinds: seq<Kind>, gap: bool, ssid: string, psk: string)
    ensures var edited := WithNewBlock(kinds, gap, KindParts(ssid, psk));
            var n := |kinds| + if gap then 1 else 0;
            var pair := edited[n + 1..n + 3];
            && |edited| == n + 4 && edited[n] == Opening && edited[n + 3] == Closing
            && (forall j | 0 <= j < |kinds| :: edited[j] == kinds[j])
            && (forall j | |kinds| <= j < n :: edited[j] == Other)
            && edited[n + 1].Ssid? && edited[n + 2].Psk?
            && LastSsid(pair) == ssid && LastPsk(pair) == psk && HasSsid(pair) && HasPsk(pair)
  {
    var edited := WithNewBlock(kinds, gap, KindParts(ssid, psk));
    var n := |kinds| + if gap then 1 else 0;
    LastOfTwo(ssid, psk);
    assert edited[n + 1..n + 3] == [Ssid(ssid), Psk(psk)];
  }

  /**
    Whatever the old file was - no block, a closed or unclosed block, missing or repeated lines -
    reading the saved lines gives the requested SSID and the chosen passphrase.
   */
  lemma SavedCredentials(base: seq<string>, ssid: string, psk: string)
    ensures var d := Parsed(SavedLines(base, ssid, psk)); d.ssid == ssid && d.psk == psk && d.hasBlock
  {
    hide KindOf, Edited, SsidLine, PskLine;
    var kinds := Kinds(base);
    KindOfSsidLine(ssid);
    KindOfPskLine(psk);
    KindsOfMarkers();
    KindsOfEdited(base, kinds, Gap(base), LineParts(ssid, psk), KindParts(ssid, psk), KindOf);
    assert Kinds(SavedLines(base, ssid, psk)) == Edited(kinds, kinds, Gap(base), KindParts(ssid, psk));
    EditSetsCredentials(kinds, Gap(base), ssid, psk);
  }

  lemma EditSetsCredentials(kinds: seq<Kind>, gap: bool, ssid: string, psk: string)
    ensures var d := Scan(Edited(kinds, kinds, gap, KindParts(ssid, psk)));
            d.ssid == ssid && d.psk == psk && d.hasBlock
  {
    hide EditedBlock, WithNewBlock;
    if Scan(kinds).hasBlock {
      EditIntoClosedBlock(kinds, Scan(kinds).start, Scan(kinds).end, ssid, psk);
    } else {
      EditAsNewBlock(kinds, gap, ssid, psk);
    }
  }

  lemma EditedBlockKeeps<T>(items: seq<T>, kinds: seq<Kind>, s: nat, e: nat, parts: Parts<T>)
    requires |items| == |kinds| && s < e < |items|
    ensures var edited := EditedBlock(items, kinds, s, e, parts);
            var inserted := |edited| - |items|;
            && 0 <= inserted <= 2
            && (forall i | 0 <= i < e :: edited[i] == if i > s then Replaced(items[i], kinds[i], parts) else items[i])
            && (forall i | e <= i < e + inserted :: edited[i] == parts.ssid || edited[i] == parts.psk)
            && edited[e + inserted..] == items[e..]
  {
    hide HasSsid, HasPsk;
    var edited, ins := EditedBlock(items, kinds, s, e, parts), Inserted(kinds[s + 1..e], parts);
    var body := NewBody(items[s + 1..e], kinds[s + 1..e], parts);
    forall i | s < i < e ensures edited[i] == Replaced(items[i], kinds[i], parts) {
      assert edited[i] == body[i - s - 1];
      assert items[s + 1..e][i - s - 1] == items[i] && kinds[s + 1..e][i - s - 1] == kinds[i];
    }
    assert forall i | e <= i < e + |ins| :: edited[i] == ins[i - e];
  }

  lemma EditKeepsOtherItems<T>(items: seq<T>, kinds: seq<Kind>, gap: bool, parts: Parts<T>)
    requires |items| == |kinds|
    ensures var d, edited := Scan(kinds), Edited(items, kinds, gap, parts);
            if !d.hasBlock then items <= edited
            else
              var inserted := |edited| - |items|;
              && 0 <= inserted <= 2
              && (forall i | 0 <= i < d.end ::
                    edited[i] == if i > d.start then Replaced(items[i], kinds[i], parts) else items[i])
              && (forall i | d.end <= i < d.end + inserted :: edited[i] == parts.ssid || edited[i] == parts.psk)
              && edited[d.end + inserted..] == items[d.end..]
  {
    hide Scan, EditedBlock;
    if Scan(kinds).hasBlock {
      EditedBlockKeeps(items, kinds, Scan(kinds).start, Scan(kinds).end, parts);
    }
  }

  /**
    Nothing else changes: without a closed block the old lines are all kept in front; otherwise every
    line keeps its place up to the block's end, except that credential lines are replaced by the new
    ones, and what follows the block is kept, moved down by the inserted lines.
   */
  lemma SaveKeepsOtherLines(base: seq<string>, ssid: string, psk: string)
    ensures var d, saved := Parsed(base), SavedLines(base, ssid, psk);
            if !d.hasBlock then base <= saved
            else
              var inserted := |saved| - |base|;
              && 0 <= inserted <= 2
              && (forall i | 0 <= i < d.end ::
                    saved[i] == if i > d.start && KindOf(base[i]).Ssid? then SsidLine(ssid)
                                else if i > d.start && KindOf(base[i]).Psk? then PskLine(psk) else base[i])
              && (forall i | d.end <= i < d.end + inserted :: saved[i] == SsidLine(ssid) || saved[i] == PskLine(psk))
              && saved[d.end + inserted..] == base[d.end..]
  {
    hide KindOf, Edited, Scan, SsidLine, PskLine;
    EditKeepsOtherItems(base, Kinds(base), Gap(base), LineParts(ssid, psk));
  }

  // ------------------------------------------------------------ line feeds

  lemma {:induction false} UnescapedChars(s: string, escape: bool, c: char)
    requires c in Unescaped(s, escape)
    ensures c in s
  {
    if s != "" {
      if !escape && s[0] == '\\' {
        UnescapedChars(s[1..], true, c);
      } else if c != s[0] {
        UnescapedChars(s[1..], false, c);
      }
    }
  }

  lemma StrippedChars(s: string, c: char)
    requires c in Stripped(s)
    ensures c in s
  {
    var t := Trim(s);
    if c in t {
      TrimKeepsChars(s, c);
    } else {
      UnescapedChars(t[1..|t| - 1], false, c);
    }
  }

  predicate KindLfFree(k: Kind) {
    match k
    case Ssid(s) => LfFree(s)
    case Psk(p) => LfFree(p)
    case _ => true
  }

  lemma KindOfLfFreeLine(line: string)
    requires LfFree(line)
    ensures KindLfFree(KindOf(line))
  {
    var t := Trim(line);
    var i := IndexOf(t, '=');
    if i < |t| && !KindLfFree(KindOf(line)) {
      StrippedChars(Trim(t[i + 1..]), '\n');
      TrimKeepsChars(t[i + 1..], '\n');
      TrimKeepsChars(line, '\n');
    }
  }

  lemma {:induction false} LastLfFree(kinds: seq<Kind>)
    requires forall i | 0 <= i < |kinds| :: KindLfFree(kinds[i])
    ensures LfFree(LastSsid(kinds)) && LfFree(LastPsk(kinds))
  {
    if kinds != [] {
      assert KindLfFree(kinds[|kinds| - 1]);
      LastLfFree(kinds[..|kinds| - 1]);
    }
  }

  lemma ParsedLfFree(lines: seq<string>)
    requires LinesLfFree(lines)
    ensures LfFree(Parsed(lines).ssid) && LfFree(Parsed(lines).psk)
  {
    var kinds := Kinds(lines);
    forall i | 0 <= i < |kinds| ensures KindLfFree(kinds[i]) {
      KindOfLfFreeLine(lines[i]);
    }
    var s := First(kinds, 0, Opening);
    if s < |kinds| {
      LastLfFree(kinds[s + 1..First(kinds, s + 1, Closing)]);
    }
  }

  lemma {:induction false} EscapedLfFree(s: string)
    requires LfFree(s)
    ensures LfFree(Escaped(s))
  {
    if s != "" {
      EscapedLfFree(s[..|s| - 1]);
    }
  }

  lemma WrittenLinesLfFree(ssid: string, psk: string)
    requires LfFree(ssid) && LfFree(psk)
    ensures LfFree(SsidLine(ssid)) && LfFree(PskLine(psk)) && LfFree(OPENING) && LfFree(CLOSING)
  {
    EscapedLfFree(ssid);
    EscapedLfFree(psk);
  }

  lemma EditedFrom<T>(items: seq<T>, kinds: seq<Kind>, gap: bool, parts: Parts<T>, i: nat)
    requires |items| == |kinds| && i < |Edited(items, kinds, gap, parts)|
    ensures var x := Edited(items, kinds, gap, parts)[i];
            x in items || x in [parts.blank, parts.opening, parts.ssid, parts.psk, parts.closing]
  {
  }

  lemma SavedLfFree(base: seq<string>, ssid: string, psk: string)
    requires LinesLfFree(base) && LfFree(ssid) && LfFree(psk)
    ensures LinesLfFree(SavedLines(base, ssid, psk))
  {
    WrittenLinesLfFree(ssid, psk);
    forall i | 0 <= i < |SavedLines(base, ssid, psk)| ensures LfFree(SavedLines(base, ssid, psk)[i]) {
      EditedFrom(base, Kinds(base), Gap(base), LineParts(ssid, psk), i);
    }
  }

  /**
    The file-level law: the written file is read back with exactly the requested SSID and the chosen
    passphrase if and only if neither contains a line feed.
   */
  lemma SavedFileReadsBackExactly(base: seq<string>, ssid: string, psk: string)
    requires LinesLfFree(base)
    ensures var d := Parsed(Lines(Joined(SavedLines(base, ssid, psk))));
            (d.ssid == ssid && d.psk == psk) <==> LfFree(ssid) && LfFree(psk)
  {
    var saved := SavedLines(base, ssid, psk);
    if LfFree(ssid) && LfFree(psk) {
      SavedLfFree(base, ssid, psk);
      SavedCredentials(base, ssid, psk);
      assert saved != [];
      WrittenLinesReadBack(saved);
    }
    ParsedLfFree(Lines(Joined(saved)));
  }

  /** The lines that are written where there was no file. */
  lemma FreshLines(ssid: string, psk: string)
    ensures SavedLines(Base([]), ssid, psk) ==
            [ "ctrl_interface=/var/run/wpa_supplicant", "update_config=1", "country=US", "",
              "network={", "    ssid=" + Quoted(ssid), "    psk=" + Quoted(psk), "}" ]
  {
    hide Quoted, KindOf;
    var kinds := Kinds(DEFAULT_LINES);
    forall i | 0 <= i < |DEFAULT_LINES| ensures kinds[i] != Opening {
      DefaultIsNoOpening(i);
      OnlyOpeningOpens(DEFAULT_LINES[i]);
    }
    FirstIs(kinds, 0, Opening, |kinds|);
  }
}
