/**
  The multicast DNS responder of webd: names on the wire (sections 3.1 and 4.1.4 of RFC 1035), the
  question matcher and the answer packet.  Names are byte strings.
 */
module Mdns {
  import opened Wrappers
  import opened Bytes

  type Word = x: int | 0 <= x < 65536
  type Name = seq<Byte>

  const DOT: Byte := 46
  const MAX_LABEL := 63
  const MAX_JUMPS := 8
  const JUMP_MARK: Byte := 192
  const TYPE_A := 1
  const TYPE_ANY := 255

  // ------------------------------------------------------------------- names

  /** The text of a name: its labels with dots between them. */
  function Dotted(labels: seq<Name>): Name {
    if labels == [] then [] else if |labels| == 1 then labels[0] else labels[0] + [DOT] + Dotted(labels[1..])
  }

  /** The name on the wire: each label after its length, then the root. */
  function Wire(labels: seq<Name>): (w: Name)
    requires forall l <- labels :: |l| < 256
    ensures |w| > 0
  {
    if labels == [] then [0] else [|labels[0]|] + labels[0] + Wire(labels[1..])
  }

  predicate HostLabel(l: Name) {
    1 <= |l| <= MAX_LABEL && DOT !in l
  }

  predicate HostLabels(labels: seq<Name>) {
    forall l <- labels :: HostLabel(l)
  }

  // ------------------------------------------------------------------ encode

  function FindDot(s: Name): (i: nat)
    ensures i <= |s| && (i < |s| ==> s[i] == DOT) && forall j | 0 <= j < i :: s[j] != DOT
  {
    if s == [] || s[0] == DOT then 0 else 1 + FindDot(s[1..])
  }

  lemma FindDotIs(s: Name, i: nat)
    requires i <= |s| && (i < |s| ==> s[i] == DOT) && forall j | 0 <= j < i :: s[j] != DOT
    ensures FindDot(s) == i
  {
    if FindDot(s) < i {
      assert false;
    }
  }

  /** `EncodeDnsName`; None for its empty result. */
  function Encode(fqdn: Name): Option<Name> {
    if fqdn == [] then Some([0])
    else
      var dot := FindDot(fqdn);
      if dot == 0 || dot > MAX_LABEL then None
      else if dot == |fqdn| then Some([dot] + fqdn + [0])
      else
        match Encode(fqdn[dot + 1..])
        case None => None
        case Some(rest) => Some([dot] + fqdn[..dot] + rest)
  }

  /** An encoding of the rest of a name, after what was already put out. */
  function After(output: seq<Byte>, rest: Option<seq<Byte>>): Option<seq<Byte>> {
    if rest.None? then None else Some(output + rest.value)
  }

  lemma EncodeLabel(l: Name, tail: Name)
    requires HostLabel(l)
    ensures Encode(l) == Some([|l|] + l + [0])
    ensures Encode(l + [DOT] + tail) == After([|l|] + l, Encode(tail))
  {
    var text := l + [DOT] + tail;
    FindDotIs(l, |l|);
    FindDotIs(text, |l|);
    assert text[..|l|] == l && text[|l| + 1..] == tail;
  }

  lemma EncodeBadLabel(l: Name, tail: Name)
    requires DOT !in l && (|l| == 0 || |l| > MAX_LABEL) && l + tail != [] && (tail == [] || tail[0] == DOT)
    ensures Encode(l + tail) == None
  {
    FindDotIs(l + tail, |l|);
  }

  lemma AfterAfter(a: seq<Byte>, b: seq<Byte>, rest: Option<seq<Byte>>)
    ensures After(a, After(b, rest)) == After(a + b, rest)
  {
    if rest.Some? {
      assert a + (b + rest.value) == (a + b) + rest.value;
    }
  }

  lemma AfterNothing(rest: Option<seq<Byte>>)
    ensures After([], rest) == rest
  {
    assert rest.Some? ==> [] + rest.value == rest.value;
  }

  lemma AfterEnd(a: seq<Byte>, b: seq<Byte>)
    ensures After(a, Some(b)) == Some(a + b) && After(a, None) == None
  {
  }

  method EncodeDnsName(fqdn: Name) returns (output: seq<Byte>)
    ensures output == match Encode(fqdn) case None => [] case Some(wire) => wire
  {
    hide Encode, After;
    output := [];
    var start := 0;
    assert fqdn[0..] == fqdn;
    AfterNothing(Encode(fqdn));
    while start < |fqdn|
      invariant start <= |fqdn|
      invariant Encode(fqdn) == After(output, Encode(fqdn[start..]))
    {
      var end := start;
      while end < |fqdn| && fqdn[end] != DOT
        invariant start <= end <= |fqdn| && DOT !in fqdn[start..end]
      {
        end := end + 1;
      }
      ghost var l, tail := fqdn[start..end], fqdn[end..];
      assert fqdn[start..] == l + tail;
      var length := end - start;
      if length == 0 || length > MAX_LABEL {
        EncodeBadLabel(l, tail);
        AfterEnd(output, []);
        return [];
      }
      EncodeLabel(l, if end < |fqdn| then fqdn[end + 1..] else []);
      AfterAfter(output, [length] + l, Encode(if end < |fqdn| then fqdn[end + 1..] else []));
      if end == |fqdn| {
        assert l + tail == l;
        AfterEnd(output, [length] + l + [0]);
        output := output + ([length] + fqdn[start..end] + [0]);
        return;
      }
      assert l + tail == l + [DOT] + fqdn[end + 1..];
      output := output + ([length] + fqdn[start..end]);
      start := end + 1;
    }
    assert fqdn[start..] == [];
    EncodeNothing();
    AfterEnd(output, [0]);
    output := output + [0];
  }

  lemma EncodeNothing()
    ensures Encode([]) == Some([0])
  {
  }

  /** A dotted name of proper labels, with or without a trailing dot, becomes its wire form. */
  lemma {:induction false} EncodeOfLabels(labels: seq<Name>, trailing: bool)
    requires HostLabels(labels) && (trailing ==> labels != [])
    ensures Encode(Dotted(labels) + if trailing then [DOT] else []) == Some(Wire(labels))
  {
    hide Encode;
    EncodeNothing();
    var dot := if trailing then [DOT] else [];
    if labels != [] {
      var l, rest := labels[0], labels[1..];
      assert HostLabel(l);
      EncodeLabel(l, Dotted(rest) + dot);
      if rest != [] {
        EncodeOfLabels(rest, trailing);
        assert Dotted(labels) + dot == l + [DOT] + (Dotted(rest) + dot);
      } else {
        EncodeLabel(l, []);
        assert Dotted(labels) + dot == if trailing then l + [DOT] + [] else l;
      }
    } else {
      assert Dotted(labels) + dot == [];
    }
  }

  lemma FirstHostLabel(fqdn: Name)
    requires fqdn != [] && Encode(fqdn).Some?
    ensures HostLabel(fqdn[..FindDot(fqdn)])
  {
  }

  /** Nothing else is encoded: an inner empty label or one of more than 63 bytes fails. */
  lemma {:induction false} EncodedLabels(fqdn: Name) returns (labels: seq<Name>, trailing: bool)
    requires Encode(fqdn).Some?
    ensures HostLabels(labels) && (trailing ==> labels != [])
    ensures fqdn == Dotted(labels) + if trailing then [DOT] else []
    decreases |fqdn|
  {
    hide Dotted, HostLabel;
    NoLabels();
    if fqdn == [] {
      return [], false;
    }
    var dot := FindDot(fqdn);
    var l := fqdn[..dot];
    FirstHostLabel(fqdn);
    if dot == |fqdn| {
      assert fqdn == l;
      assert Dotted([l]) == l by { DottedSnoc([], l); assert [] + [l] == [l]; }
      return [l], false;
    }
    var tail := fqdn[dot + 1..];
    var rest, t := EncodedLabels(tail);
    labels, trailing := PrependLabel(l, rest, t, tail);
    assert fqdn == l + [DOT] + tail;
  }

  lemma PrependLabel(l: Name, rest: seq<Name>, t: bool, tail: Name) returns (labels: seq<Name>, trailing: bool)
    requires HostLabel(l) && HostLabels(rest) && (t ==> rest != []) && tail == Dotted(rest) + if t then [DOT] else []
    ensures HostLabels(labels) && (trailing ==> labels != [])
    ensures l + [DOT] + tail == Dotted(labels) + if trailing then [DOT] else []
  {
    labels, trailing := [l] + rest, t || rest == [];
    assert labels[1..] == rest;
  }

  ghost predicate IsText(fqdn: Name, labels: seq<Name>, trailing: bool) {
    HostLabels(labels) && (trailing ==> labels != []) && fqdn == Dotted(labels) + if trailing then [DOT] else []
  }

  /** Exactly the dotted texts of proper labels are encoded. */
  lemma EncodeAcceptsHostNames(fqdn: Name)
    ensures Encode(fqdn).Some? <==> exists labels, trailing :: IsText(fqdn, labels, trailing)
  {
    if Encode(fqdn).Some? {
      var labels, trailing := EncodedLabels(fqdn);
      assert IsText(fqdn, labels, trailing);
    }
    if labels, trailing :| IsText(fqdn, labels, trailing) {
      EncodeOfLabels(labels, trailing);
    }
  }

  // ------------------------------------------------------------------ decode

  datatype Decoded = Decoded(labels: seq<Name>, consumed: nat)

  function PointerAt(packet: seq<Byte>, offset: nat): nat
    requires offset + 1 < |packet| && packet[offset] >= JUMP_MARK
  {
    (packet[offset] - JUMP_MARK) * 256 + packet[offset + 1]
  }

  /**
    The labels from an offset on, after so many jumps, and the bytes consumed there: those up to the root
    or the first pointer.  A name may also end with the packet, and the length bytes 64 to 191, which
    RFC 1035 reserves, are taken as lengths.
   */
  function DecodeFrom(packet: seq<Byte>, offset: nat, depth: nat): (r: Option<Decoded>)
    requires depth <= MAX_JUMPS
    ensures r.Some? ==> forall l <- r.value.labels :: 1 <= |l| < JUMP_MARK
    ensures r.Some? && offset <= |packet| ==> offset + r.value.consumed <= |packet|
    decreases MAX_JUMPS - depth, |packet| - offset
  {
    if offset >= |packet| then Some(Decoded([], 0))
    else if packet[offset] == 0 then Some(Decoded([], 1))
    else if packet[offset] >= JUMP_MARK then
      if offset + 1 >= |packet| || PointerAt(packet, offset) >= |packet| || depth + 1 > MAX_JUMPS then None
      else
        match DecodeFrom(packet, PointerAt(packet, offset), depth + 1)
        case None => None
        case Some(there) => Some(Decoded(there.labels, 2))
    else
      var length := packet[offset];
      if offset + 1 + length > |packet| then None
      else
        match DecodeFrom(packet, offset + 1 + length, depth)
        case None => None
        case Some(rest) =>
          Some(Decoded([packet[offset + 1..offset + 1 + length]] + rest.labels, 1 + length + rest.consumed))
  }

  lemma {:induction false} DottedSnoc(labels: seq<Name>, l: Name)
    ensures Dotted(labels + [l]) == if labels == [] then l else Dotted(labels) + [DOT] + l
  {
    if labels != [] {
      assert (labels + [l])[1..] == labels[1..] + [l];
      DottedSnoc(labels[1..], l);
    }
  }

  lemma {:induction false} DottedEmpty(labels: seq<Name>)
    requires forall l <- labels :: |l| >= 1
    ensures Dotted(labels) == [] <==> labels == []
  {
    if labels != [] {
      assert |labels[0]| >= 1;
    }
  }

  /** What decoding from the start gives, when so much was read and decoding goes on with `rest`. */
  ghost predicate Resumes(whole: Option<Decoded>, labels: seq<Name>, consumed: nat, jumped: bool,
      rest: Option<Decoded>) {
    if rest.None? then whole.None?
    else whole == Some(Decoded(labels + rest.value.labels, consumed + if jumped then 0 else rest.value.consumed))
  }

  lemma ResumesAfterLabel(packet: seq<Byte>, offset: nat, depth: nat, whole: Option<Decoded>, labels: seq<Name>,
      consumed: nat, jumped: bool)
    requires depth <= MAX_JUMPS && offset < |packet| && 0 < packet[offset] < JUMP_MARK &&
             offset + 1 + packet[offset] <= |packet|
    requires Resumes(whole, labels, consumed, jumped, DecodeFrom(packet, offset, depth))
    ensures var next := offset + 1 + packet[offset];
            Resumes(whole, labels + [packet[offset + 1..next]], consumed + if jumped then 0 else 1 + packet[offset],
                jumped,
                    DecodeFrom(packet, next, depth))
  {
    var next := offset + 1 + packet[offset];
    var rest := DecodeFrom(packet, next, depth);
    if rest.Some? {
      assert labels + ([packet[offset + 1..next]] + rest.value.labels) ==
             labels + [packet[offset + 1..next]] + rest.value.labels;
    }
  }

  lemma ResumesAfterPointer(packet: seq<Byte>, offset: nat, depth: nat, whole: Option<Decoded>, labels: seq<Name>,
      consumed: nat, jumped: bool)
    requires depth < MAX_JUMPS && offset + 1 < |packet| && packet[offset] >= JUMP_MARK &&
             PointerAt(packet, offset) < |packet|
    requires Resumes(whole, labels, consumed, jumped, DecodeFrom(packet, offset, depth))
    ensures Resumes(whole, labels, consumed + if jumped then 0 else 2, true,
                    DecodeFrom(packet, PointerAt(packet, offset), depth + 1))
  {
  }

  predicate Malformed(packet: seq<Byte>, offset: nat, depth: nat) {
    && offset < |packet| && packet[offset] != 0
    && if packet[offset] < JUMP_MARK then offset + 1 + packet[offset] > |packet|
       else offset + 1 >= |packet| || PointerAt(packet, offset) >= |packet| || depth >= MAX_JUMPS
  }

  lemma ResumesNoMore(packet: seq<Byte>, offset: nat, depth: nat, whole: Option<Decoded>, labels: seq<Name>,
      consumed: nat, jumped: bool)
    requires depth <= MAX_JUMPS && Malformed(packet, offset, depth)
    requires Resumes(whole, labels, consumed, jumped, DecodeFrom(packet, offset, depth))
    ensures whole == None
  {
  }

  lemma DecodeEnds(packet: seq<Byte>, offset: nat, depth: nat)
    requires depth <= MAX_JUMPS && (offset < |packet| ==> packet[offset] == 0)
    ensures DecodeFrom(packet, offset, depth) == Some(Decoded([], if offset < |packet| then 1 else 0))
  {
  }

  lemma ResumesAtEnd(packet: seq<Byte>, offset: nat, depth: nat, whole: Option<Decoded>, labels: seq<Name>,
      consumed: nat, jumped: bool)
    requires depth <= MAX_JUMPS && (offset < |packet| ==> packet[offset] == 0)
    requires Resumes(whole, labels, consumed, jumped, DecodeFrom(packet, offset, depth))
    ensures whole == Some(Decoded(labels, consumed + if offset < |packet| && !jumped then 1 else 0))
  {
    DecodeEnds(packet, offset, depth);
    assert labels + [] == labels;
  }

  lemma ResumesAtStart(whole: Option<Decoded>)
    ensures Resumes(whole, [], 0, false, whole)
  {
    assert whole.Some? ==> [] + whole.value.labels == whole.value.labels;
  }

  predicate NoEmptyLabel(labels: seq<Name>) {
    forall l <- labels :: |l| >= 1
  }

  lemma NameGrows(labels: seq<Name>, l: Name)
    requires NoEmptyLabel(labels) && |l| >= 1
    ensures NoEmptyLabel(labels + [l])
    ensures Dotted(labels + [l]) == (if Dotted(labels) == [] then [] else Dotted(labels) + [DOT]) + l
  {
    DottedEmpty(labels);
    DottedSnoc(labels, l);
  }

  /** `DecodeDnsName`; it always ends: a pointer uses up one of eight jumps, a label moves forward. */
  method DecodeDnsName(packet: seq<Byte>, start: nat) returns (ok: bool, output: Name, consumed: nat)
    ensures ok <==> DecodeFrom(packet, start, 0).Some?
    ensures ok ==> output == Dotted(DecodeFrom(packet, start, 0).value.labels)
                   && consumed == DecodeFrom(packet, start, 0).value.consumed
  {
    hide Dotted, DecodeFrom, Resumes, NoEmptyLabel;
    var offset: nat, depth: nat, jumped := start, 0, false;
    consumed, output := 0, [];
    ghost var labels: seq<Name> := [];
    ghost var whole := DecodeFrom(packet, start, 0);
    ResumesAtStart(whole);
    NoLabels();
    while offset < |packet|
      invariant depth <= MAX_JUMPS
      invariant output == Dotted(labels) && NoEmptyLabel(labels)
      invariant Resumes(whole, labels, consumed, jumped, DecodeFrom(packet, offset, depth))
      decreases MAX_JUMPS - depth, |packet| - offset
    {
      var length := packet[offset];
      if length == 0 {
        ResumesAtEnd(packet, offset, depth, whole, labels, consumed, jumped);
        if !jumped {
          consumed := consumed + 1;
        }
        return true, output, consumed;
      }
      if Malformed(packet, offset, depth) {
        ResumesNoMore(packet, offset, depth, whole, labels, consumed, jumped);
        return false, [], 0;
      }
      if length >= JUMP_MARK {
        ResumesAfterPointer(packet, offset, depth, whole, labels, consumed, jumped);
        if !jumped {
          consumed := consumed + 2;
        }
        offset, jumped, depth := PointerAt(packet, offset), true, depth + 1;
      } else {
        var part := packet[offset + 1..offset + 1 + length];
        ResumesAfterLabel(packet, offset, depth, whole, labels, consumed, jumped);
        NameGrows(labels, part);
        if output != [] {
          output := output + [DOT];
        }
        output := output + part;
        labels := labels + [part];
        if !jumped {
          consumed := consumed + 1 + length;
        }
        offset := offset + 1 + length;
      }
    }
    ResumesAtEnd(packet, offset, depth, whole, labels, consumed, jumped);
    ok := true;
  }

  lemma NoLabels()
    ensures Dotted([]) == [] && NoEmptyLabel([])
  {
  }

  // ------------------------------------------------------ decoding what is sent

  predicate WireLabels(labels: seq<Name>) {
    forall l <- labels :: 1 <= |l| < JUMP_MARK
  }

  /** Labels on the wire without the root. */
  function Sent(labels: seq<Name>): seq<Byte>
    requires WireLabels(labels)
  {
    if labels == [] then [] else [|labels[0]|] + labels[0] + Sent(labels[1..])
  }

  lemma {:induction false} WireIsSent(labels: seq<Name>)
    requires WireLabels(labels)
    ensures Wire(labels) == Sent(labels) + [0]
  {
    if labels != [] {
      WireIsSent(labels[1..]);
      assert [|labels[0]|] + labels[0] + (Sent(labels[1..]) + [0]) == Sent(labels) + [0];
    }
  }

  /** A decoding that goes on after these labels, which took so many bytes. */
  function Then(labels: seq<Name>, bytes: nat, rest: Option<Decoded>): Option<Decoded> {
    if rest.None? then None else Some(Decoded(labels + rest.value.labels, bytes + rest.value.consumed))
  }

  lemma ThenThen(a: seq<Name>, m: nat, b: seq<Name>, n: nat, rest: Option<Decoded>)
    ensures Then(a, m, Then(b, n, rest)) == Then(a + b, m + n, rest)
    ensures Then([], 0, rest) == rest
  {
    if rest.Some? {
      assert a + (b + rest.value.labels) == a + b + rest.value.labels;
      assert [] + rest.value.labels == rest.value.labels;
    }
  }

  lemma DecodeStep(packet: seq<Byte>, offset: nat, depth: nat)
    requires depth <= MAX_JUMPS && offset < |packet| && 0 < packet[offset] < JUMP_MARK &&
             offset + 1 + packet[offset] <= |packet|
    ensures var next := offset + 1 + packet[offset];
            DecodeFrom(packet, offset, depth)
            == Then([packet[offset + 1..next]], 1 + packet[offset], DecodeFrom(packet, next, depth))
  {
  }

  lemma DecodeOne(prefix: seq<Byte>, l: Name, suffix: seq<Byte>, depth: nat)
    requires 1 <= |l| < JUMP_MARK && depth <= MAX_JUMPS
    ensures var packet := prefix + ([|l|] + l) + suffix;
            DecodeFrom(packet, |prefix|, depth) == Then([l], 1 + |l|, DecodeFrom(packet, |prefix| + 1 + |l|, depth))
  {
    hide Then, DecodeFrom;
    var packet := prefix + ([|l|] + l) + suffix;
    assert packet[|prefix|] == |l|;
    assert packet[|prefix| + 1..|prefix| + 1 + |l|] == l;
    DecodeStep(packet, |prefix|, depth);
  }

  /** Labels and then something else at an offset: they are read, and then the rest is. */
  lemma {:induction false} DecodeLabels(prefix: seq<Byte>, labels: seq<Name>, suffix: seq<Byte>, depth: nat)
    requires WireLabels(labels) && depth <= MAX_JUMPS
    ensures var packet := prefix + Sent(labels) + suffix;
            DecodeFrom(packet, |prefix|, depth)
            == Then(labels, |Sent(labels)|, DecodeFrom(packet, |prefix| + |Sent(labels)|, depth))
    decreases |labels|
  {
    hide DecodeFrom, Then;
    var packet := prefix + Sent(labels) + suffix;
    var end := DecodeFrom(packet, |prefix| + |Sent(labels)|, depth);
    if labels == [] {
      ThenThen([], 0, [], 0, end);
    } else {
      var l, rest := labels[0], labels[1..];
      assert 1 <= |l| < JUMP_MARK;
      var before := prefix + ([|l|] + l);
      assert packet == before + Sent(rest) + suffix;
      DecodeLabels(before, rest, suffix, depth);
      DecodeOne(prefix, l, Sent(rest) + suffix, depth);
      assert packet == before + (Sent(rest) + suffix);
      ThenThen([l], 1 + |l|, rest, |Sent(rest)|, end);
      assert [l] + rest == labels;
    }
  }

  /** Decoding undoes the wire form anywhere in a packet, and consumes it exactly. */
  lemma DecodeOfWire(prefix: seq<Byte>, labels: seq<Name>, suffix: seq<Byte>, depth: nat)
    requires WireLabels(labels) && depth <= MAX_JUMPS
    ensures DecodeFrom(prefix + Wire(labels) + suffix, |prefix|, depth) == Some(Decoded(labels, |Wire(labels)|))
  {
    hide DecodeFrom;
    WireIsSent(labels);
    var packet := prefix + Wire(labels) + suffix;
    assert packet == prefix + Sent(labels) + ([0] + suffix);
    DecodeLabels(prefix, labels, [0] + suffix, depth);
    DecodeEnds(packet, |prefix| + |Sent(labels)|, depth);
    assert labels + [] == labels;
  }

  /** The codec's law: decoding an encoded name gives the name back, up to a trailing dot. */
  lemma DecodeUndoesEncode(prefix: seq<Byte>, fqdn: Name, suffix: seq<Byte>)
    requires Encode(fqdn).Some?
    ensures var wire := Encode(fqdn).value;
            var r := DecodeFrom(prefix + wire + suffix, |prefix|, 0);
            && r.Some? && r.value.consumed == |wire|
            && Dotted(r.value.labels) == if fqdn != [] && fqdn[|fqdn| - 1] == DOT then fqdn[..|fqdn| - 1] else fqdn
  {
    hide DecodeFrom, Encode;
    var labels, trailing := EncodedLabels(fqdn);
    EncodeOfLabels(labels, trailing);
    assert forall l <- labels :: HostLabel(l);
    DecodeOfWire(prefix, labels, suffix, 0);
    DottedEnds(labels);
    var text := Dotted(labels);
    if trailing {
      assert fqdn[..|fqdn| - 1] == text;
    } else {
      assert fqdn == text;
    }
  }

  lemma {:induction false} DottedEnds(labels: seq<Name>)
    requires HostLabels(labels)
    ensures labels != [] ==> Dotted(labels) != [] && Dotted(labels)[|Dotted(labels)| - 1] != DOT
  {
    if labels != [] {
      var l := labels[0];
      assert HostLabel(l) && l[|l| - 1] in l;
      DottedEnds(labels[1..]);
    }
  }

  /** What decodes after more jumps decodes in the same way after fewer. */
  lemma {:induction false} FewerJumps(packet: seq<Byte>, offset: nat, depth: nat, more: nat)
    requires depth <= more <= MAX_JUMPS && DecodeFrom(packet, offset, more).Some?
    ensures DecodeFrom(packet, offset, depth) == DecodeFrom(packet, offset, more)
    decreases MAX_JUMPS - depth, |packet| - offset
  {
    if offset < |packet| && packet[offset] != 0 {
      if packet[offset] >= JUMP_MARK {
        FewerJumps(packet, PointerAt(packet, offset), depth + 1, more + 1);
      } else {
        FewerJumps(packet, offset + 1 + packet[offset], depth, more);
      }
    }
  }

  /**
    Section 4.1.4: labels that end in a pointer to a name earlier or later in the packet read as those
    labels and then that name, and consume the labels and two bytes.
   */
  lemma DecodeCompressed(prefix: seq<Byte>, labels: seq<Name>, target: nat, suffix: seq<Byte>, depth: nat)
    requires WireLabels(labels) && depth < MAX_JUMPS && target < 0x4000
    requires var packet := prefix + Sent(labels) + ([JUMP_MARK + target / 256, target % 256] + suffix);
             target < |packet| && DecodeFrom(packet, target, depth + 1).Some?
    ensures var packet := prefix + Sent(labels) + ([JUMP_MARK + target / 256, target % 256] + suffix);
            && DecodeFrom(packet, target, 0).Some?
            && DecodeFrom(packet, |prefix|, depth)
               == Some(Decoded(labels + DecodeFrom(packet, target, 0).value.labels, |Sent(labels)| + 2))
  {
    hide DecodeFrom;
    var pointer: seq<Byte> := [JUMP_MARK + target / 256, target % 256];
    var packet := prefix + Sent(labels) + (pointer + suffix);
    var there := |prefix| + |Sent(labels)|;
    assert packet[there] == pointer[0] && packet[there + 1] == pointer[1];
    DecodePointer(packet, there, target, depth);
    FewerJumps(packet, target, 0, depth + 1);
    DecodeLabels(prefix, labels, pointer + suffix, depth);
  }

  lemma DecodePointer(packet: seq<Byte>, offset: nat, target: nat, depth: nat)
    requires depth < MAX_JUMPS && offset + 1 < |packet| && target < |packet| && target < 0x4000
    requires packet[offset] == JUMP_MARK + target / 256 && packet[offset + 1] == target % 256
    requires DecodeFrom(packet, target, depth + 1).Some?
    ensures DecodeFrom(packet, offset, depth) == Some(Decoded(DecodeFrom(packet, target, depth + 1).value.labels, 2))
  {
    assert PointerAt(packet, offset) == target;
  }

  ghost predicate InLoop(packet: seq<Byte>, loop: set<nat>) {
    forall o <- loop :: o + 1 < |packet| && packet[o] >= JUMP_MARK && PointerAt(packet, o) in loop
  }

  /** Pointers that only lead to each other decode to nothing. */
  lemma {:induction false} PointerLoopsFail(packet: seq<Byte>, loop: set<nat>, offset: nat, depth: nat)
    requires InLoop(packet, loop) && offset in loop && depth <= MAX_JUMPS
    ensures DecodeFrom(packet, offset, depth) == None
    decreases MAX_JUMPS - depth
  {
    if depth < MAX_JUMPS {
      PointerLoopsFail(packet, loop, PointerAt(packet, offset), depth + 1);
    }
  }

  // ------------------------------------------------ names that are not RFC 1035

  /**
    The labels of sections 3.1 and 4.1.4 of RFC 1035 at an offset: up to 63 bytes each, ended by the root byte
    or a pointer back to such labels.
   */
  ghost predicate RfcLabels(packet: seq<Byte>, offset: nat, labels: seq<Name>)
    decreases |labels|, offset
  {
    && offset < |packet|
    && if packet[offset] == 0 then labels == []
       else if packet[offset] >= JUMP_MARK then
         && offset + 1 < |packet| && PointerAt(packet, offset) < offset
         && RfcLabels(packet, PointerAt(packet, offset), labels)
       else
         var next := offset + 1 + packet[offset];
         && packet[offset] <= MAX_LABEL && next <= |packet|
         && labels != [] && labels[0] == packet[offset + 1..next]
         && RfcLabels(packet, next, labels[1..])
  }

  /** The octets of a name without compression: its labels and their lengths, and the root. */
  function Octets(labels: seq<Name>): nat {
    if labels == [] then 1 else 1 + |labels[0]| + Octets(labels[1..])
  }

  const MAX_OCTETS := 255

  /** A name of RFC 1035, whose octets are limited by section 3.1. */
  ghost predicate RfcName(packet: seq<Byte>, offset: nat, labels: seq<Name>) {
    RfcLabels(packet, offset, labels) && Octets(labels) <= MAX_OCTETS
  }

  /** The pointers on the way. */
  ghost function Jumps(packet: seq<Byte>, offset: nat, labels: seq<Name>): nat
    requires RfcLabels(packet, offset, labels)
    decreases |labels|, offset
  {
    if packet[offset] == 0 then 0
    else if packet[offset] >= JUMP_MARK then 1 + Jumps(packet, PointerAt(packet, offset), labels)
    else Jumps(packet, offset + 1 + packet[offset], labels[1..])
  }

  /** Where decoding stops: at a root byte, or with the packet. */
  ghost function Stop(packet: seq<Byte>, offset: nat, depth: nat): nat
    requires depth <= MAX_JUMPS && DecodeFrom(packet, offset, depth).Some?
    decreases MAX_JUMPS - depth, |packet| - offset
  {
    if offset >= |packet| || packet[offset] == 0 then offset
    else if packet[offset] >= JUMP_MARK then Stop(packet, PointerAt(packet, offset), depth + 1)
    else Stop(packet, offset + 1 + packet[offset], depth)
  }

  /** Does every jump of the decoding lead back? */
  ghost predicate Backward(packet: seq<Byte>, offset: nat, depth: nat)
    requires depth <= MAX_JUMPS && DecodeFrom(packet, offset, depth).Some?
    decreases MAX_JUMPS - depth, |packet| - offset
  {
    if offset >= |packet| || packet[offset] == 0 then true
    else if packet[offset] >= JUMP_MARK then
      PointerAt(packet, offset) < offset && Backward(packet, PointerAt(packet, offset), depth + 1)
    else Backward(packet, offset + 1 + packet[offset], depth)
  }

  predicate ShortLabels(labels: seq<Name>) {
    labels == [] || (|labels[0]| <= MAX_LABEL && ShortLabels(labels[1..]))
  }

  /** Decoded with short labels up to a root byte, and jumping back only. */
  ghost predicate DecodedProperly(packet: seq<Byte>, offset: nat, depth: nat)
    requires depth <= MAX_JUMPS && DecodeFrom(packet, offset, depth).Some?
  {
    && ShortLabels(DecodeFrom(packet, offset, depth).value.labels)
    && Stop(packet, offset, depth) < |packet| && Backward(packet, offset, depth)
  }

  lemma PrependShort(l: Name, labels: seq<Name>)
    ensures ShortLabels([l] + labels) <==> |l| <= MAX_LABEL && ShortLabels(labels)
  {
    assert ([l] + labels)[1..] == labels;
  }

  lemma {:induction false} ProperlyDecodedIsRfc(packet: seq<Byte>, offset: nat, depth: nat)
    requires depth <= MAX_JUMPS && DecodeFrom(packet, offset, depth).Some? && DecodedProperly(packet, offset, depth)
    ensures RfcLabels(packet, offset, DecodeFrom(packet, offset, depth).value.labels)
    decreases MAX_JUMPS - depth, |packet| - offset
  {
    if packet[offset] != 0 {
      if packet[offset] >= JUMP_MARK {
        ProperlyDecodedIsRfc(packet, PointerAt(packet, offset), depth + 1);
      } else {
        var next := offset + 1 + packet[offset];
        var labels := DecodeFrom(packet, offset, depth).value.labels;
        assert labels[1..] == DecodeFrom(packet, next, depth).value.labels;
        assert |labels[0]| == packet[offset] && |labels[0]| <= MAX_LABEL;
        ProperlyDecodedIsRfc(packet, next, depth);
      }
    }
  }

  /** Labels of the RFC are decoded exactly when they take no more than the jumps that are left. */
  lemma {:induction false} RfcLabelsAreDecoded(packet: seq<Byte>, offset: nat, depth: nat, labels: seq<Name>)
    requires depth <= MAX_JUMPS && RfcLabels(packet, offset, labels)
    ensures var d := DecodeFrom(packet, offset, depth);
            && (d.Some? <==> depth + Jumps(packet, offset, labels) <= MAX_JUMPS)
            && (d.Some? ==> d.value.labels == labels && DecodedProperly(packet, offset, depth))
    decreases |labels|, offset
  {
    if packet[offset] != 0 {
      if packet[offset] >= JUMP_MARK {
        if depth < MAX_JUMPS {
          RfcLabelsAreDecoded(packet, PointerAt(packet, offset), depth + 1, labels);
        }
      } else {
        RfcLabelsAreDecoded(packet, offset + 1 + packet[offset], depth, labels[1..]);
        assert labels == [labels[0]] + labels[1..];
        PrependShort(labels[0], labels[1..]);
      }
    }
  }

  /**
    A decoded name is one of RFC 1035 exactly when no label is longer than 63 bytes, a root byte ends it, every
    pointer leads back, and it has at most 255 octets.
   */
  lemma DecodedRfcName(packet: seq<Byte>, offset: nat)
    requires DecodeFrom(packet, offset, 0).Some?
    ensures var labels := DecodeFrom(packet, offset, 0).value.labels;
            RfcName(packet, offset, labels) <==>
            && ShortLabels(labels) && Stop(packet, offset, 0) < |packet| && Backward(packet, offset, 0)
            && Octets(labels) <= MAX_OCTETS
  {
    hide DecodeFrom, RfcLabels, Stop, Backward, ShortLabels;
    var labels := DecodeFrom(packet, offset, 0).value.labels;
    if DecodedProperly(packet, offset, 0) {
      ProperlyDecodedIsRfc(packet, offset, 0);
    }
    if RfcLabels(packet, offset, labels) {
      RfcLabelsAreDecoded(packet, offset, 0, labels);
    }
  }

  /** A name of RFC 1035 is decoded exactly when it takes at most eight jumps, and then to its labels. */
  lemma RfcNameIsDecoded(packet: seq<Byte>, offset: nat, labels: seq<Name>)
    requires RfcName(packet, offset, labels)
    ensures var d := DecodeFrom(packet, offset, 0);
            && (d.Some? <==> Jumps(packet, offset, labels) <= MAX_JUMPS)
            && (d.Some? ==> d.value.labels == labels)
  {
    hide DecodeFrom, RfcLabels, Jumps;
    RfcLabelsAreDecoded(packet, offset, 0, labels);
  }

  lemma RfcLabelsStep(packet: seq<Byte>, offset: nat, labels: seq<Name>)
    requires offset < |packet| && 0 < packet[offset] < JUMP_MARK && RfcLabels(packet, offset, labels)
    ensures packet[offset] <= MAX_LABEL && labels != []
    ensures RfcLabels(packet, offset + 1 + packet[offset], labels[1..])
  {
  }

  lemma LongLabelIsNoRfcName(packet: seq<Byte>, offset: nat, labels: seq<Name>)
    requires offset < |packet| && MAX_LABEL < packet[offset] < JUMP_MARK
    ensures !RfcName(packet, offset, labels)
  {
  }

  lemma LongLabelIsNotSent(l: Name)
    requires MAX_LABEL < |l| && DOT !in l
    ensures Encode(l) == None
  {
    assert l + [] == l;
    EncodeBadLabel(l, []);
  }

  /** A packet with a label behind the prefix. */
  function WithLabel(prefix: seq<Byte>, l: Name, suffix: seq<Byte>): (packet: seq<Byte>)
    requires |l| < JUMP_MARK
    ensures |prefix| < |packet| && packet[|prefix|] == |l|
  {
    prefix + ([|l|] + l) + suffix
  }

  /** The reserved lengths 64 to 191: such a label is decoded, although it cannot be sent. */
  lemma LongLabelIsDecoded(prefix: seq<Byte>, l: Name, suffix: seq<Byte>)
    requires MAX_LABEL < |l| < JUMP_MARK && DOT !in l
    ensures var packet := WithLabel(prefix, l, suffix);
            && DecodeFrom(packet, |prefix|, 0) == Then([l], 1 + |l|, DecodeFrom(packet, |prefix| + 1 + |l|, 0))
            && forall labels :: !RfcName(packet, |prefix|, labels)
    ensures Encode(l) == None
  {
    hide DecodeFrom, Encode, RfcName, Then;
    DecodeOne(prefix, l, suffix, 0);
    LongLabelIsNotSent(l);
    forall labels ensures !RfcName(WithLabel(prefix, l, suffix), |prefix|, labels) {
      LongLabelIsNoRfcName(WithLabel(prefix, l, suffix), |prefix|, labels);
    }
  }

  /** A name that is cut off at the end of the packet is decoded as far as it goes. */
  lemma CutOffNameIsDecoded(prefix: seq<Byte>, labels: seq<Name>)
    requires WireLabels(labels)
    ensures var packet := prefix + Sent(labels);
            && DecodeFrom(packet, |prefix|, 0) == Some(Decoded(labels, |Sent(labels)|))
            && !RfcName(packet, |prefix|, labels)
  {
    hide DecodeFrom;
    var packet := prefix + Sent(labels);
    assert packet + [] == packet;
    DecodeLabels(prefix, labels, [], 0);
    DecodeEnds(packet, |packet|, 0);
    assert labels + [] == labels;
    CutOffNameHasNoRoot(prefix, labels);
  }

  lemma {:induction false} CutOffNameHasNoRoot(prefix: seq<Byte>, labels: seq<Name>)
    requires WireLabels(labels)
    ensures !RfcLabels(prefix + Sent(labels), |prefix|, labels)
    decreases |labels|
  {
    hide RfcLabels;
    var packet := prefix + Sent(labels);
    if labels == [] {
      PastTheEnd(packet, |prefix|);
    } else {
      var l, rest := labels[0], labels[1..];
      assert 1 <= |l| < JUMP_MARK;
      var before := prefix + ([|l|] + l);
      assert packet == before + Sent(rest);
      assert packet[|prefix|] == |l|;
      CutOffNameHasNoRoot(before, rest);
      if RfcLabels(packet, |prefix|, labels) {
        RfcLabelsStep(packet, |prefix|, labels);
      }
    }
  }

  lemma PastTheEnd(packet: seq<Byte>, offset: nat)
    requires offset >= |packet|
    ensures !RfcLabels(packet, offset, [])
  {
  }

  /** A pointer that leads forward is followed. */
  lemma ForwardPointerIsDecoded()
    ensures DecodeFrom([192, 2, 1, 97, 0], 0, 0) == Some(Decoded([[97]], 2))
    ensures forall labels :: !RfcName([192, 2, 1, 97, 0], 0, labels)
  {
    var packet: seq<Byte> := [192, 2, 1, 97, 0];
    assert PointerAt(packet, 0) == 2;
    assert DecodeFrom(packet, 4, 1) == Some(Decoded([], 1));
    assert packet[3..4] == [97] && [packet[3..4]] + [] == [[97]];
    assert DecodeFrom(packet, 2, 1) == Some(Decoded([[97]], 3));
  }

  lemma {:induction false} OctetsOnTheWire(labels: seq<Name>)
    requires WireLabels(labels)
    ensures Octets(labels) == |Wire(labels)|
  {
    if labels != [] {
      OctetsOnTheWire(labels[1..]);
    }
  }

  /** A name of more than 255 octets is decoded, and encoded, too. */
  lemma OverlongNameIsAccepted(prefix: seq<Byte>, labels: seq<Name>, suffix: seq<Byte>)
    requires HostLabels(labels) && Octets(labels) > MAX_OCTETS
    ensures Encode(Dotted(labels)) == Some(Wire(labels))
    ensures DecodeFrom(prefix + Wire(labels) + suffix, |prefix|, 0) == Some(Decoded(labels, |Wire(labels)|))
    ensures !RfcName(prefix + Wire(labels) + suffix, |prefix|, labels)
  {
    hide DecodeFrom, Encode, RfcLabels, Wire, Octets, Dotted;
    assert forall l <- labels :: HostLabel(l);
    DecodeOfWire(prefix, labels, suffix, 0);
    EncodeOfLabels(labels, false);
    assert Dotted(labels) + [] == Dotted(labels);
  }

  lemma OctetsCons(l: Name, rest: seq<Name>)
    ensures Octets([l] + rest) == 1 + |l| + Octets(rest)
  {
    assert ([l] + rest)[1..] == rest;
  }

  /** There are such names: four labels of the greatest length. */
  lemma OverlongNamesExist() returns (labels: seq<Name>)
    ensures HostLabels(labels) && Octets(labels) == 257
  {
    var l: Name := seq(63, _ => 97);
    labels := [l] + ([l] + ([l] + ([l] + [])));
    OctetsCons(l, []);
    OctetsCons(l, [l] + []);
    OctetsCons(l, [l] + ([l] + []));
    OctetsCons(l, [l] + ([l] + ([l] + [])));
  }

  /** Nine pointers, each to the one before it, the first one to the name `a`. */
  const JUMP_CHAIN: seq<Byte> :=
    [1, 97, 0, 192, 0, 192, 3, 192, 5, 192, 7, 192, 9, 192, 11, 192, 13, 192, 15, 192, 17]

  function ChainOffset(n: nat): nat {
    if n == 0 then 0 else 1 + 2 * n
  }

  lemma ChainPointer(n: nat)
    requires 1 <= n <= 9
    ensures var offset := ChainOffset(n);
            && offset + 1 < |JUMP_CHAIN| && JUMP_CHAIN[offset] == JUMP_MARK
            && JUMP_CHAIN[offset + 1] == ChainOffset(n - 1)
  {
  }

  lemma ChainStart()
    ensures RfcLabels(JUMP_CHAIN, 0, [[97]]) && Jumps(JUMP_CHAIN, 0, [[97]]) == 0
  {
    assert JUMP_CHAIN[1..2] == [97];
    assert RfcLabels(JUMP_CHAIN, 2, []);
    assert [[97]][1..] == [];
  }

  lemma JumpBack(packet: seq<Byte>, offset: nat, target: nat, labels: seq<Name>)
    requires offset + 1 < |packet| && packet[offset] == JUMP_MARK && packet[offset + 1] == target < offset
    requires RfcLabels(packet, target, labels)
    ensures RfcLabels(packet, offset, labels) && Jumps(packet, offset, labels) == 1 + Jumps(packet, target, labels)
  {
    assert PointerAt(packet, offset) == target;
  }

  lemma {:induction false} ChainIsRfc(n: nat)
    requires n <= 9
    ensures RfcLabels(JUMP_CHAIN, ChainOffset(n), [[97]]) && Jumps(JUMP_CHAIN, ChainOffset(n), [[97]]) == n
  {
    hide RfcLabels, Jumps;
    if n == 0 {
      ChainStart();
    } else {
      ChainIsRfc(n - 1);
      ChainPointer(n);
      JumpBack(JUMP_CHAIN, ChainOffset(n), ChainOffset(n - 1), [[97]]);
    }
  }

  /** A name that takes nine jumps is one of RFC 1035 and is refused. */
  lemma ManyJumpsAreRefused()
    ensures RfcName(JUMP_CHAIN, 19, [[97]]) && DecodeFrom(JUMP_CHAIN, 19, 0) == None
  {
    hide DecodeFrom, RfcLabels, Jumps;
    ChainIsRfc(9);
    assert Octets([[97]]) == 3 by {
      assert [[97]][1..] == [];
    }
    RfcNameIsDecoded(JUMP_CHAIN, 19, [[97]]);
  }

  // ---------------------------------------------------------------- questions

  function LowerByte(b: Byte): Byte {
    if 65 <= b <= 90 then b + 32 else b
  }

  function Lower(s: Name): (t: Name)
    ensures |t| == |s| && forall i | 0 <= i < |s| :: t[i] == LowerByte(s[i])
  {
    if s == [] then [] else [LowerByte(s[0])] + Lower(s[1..])
  }

  /** The same letter, capital or small, or the same other byte. */
  predicate SameByte(a: Byte, b: Byte) {
    a == b || (65 <= a <= 90 && b == a + 32) || (65 <= b <= 90 && a == b + 32)
  }

  /** Equal names, as section 2.3.3 of RFC 1035 compares them. */
  predicate SameName(a: Name, b: Name) {
    |a| == |b| && forall i | 0 <= i < |a| :: SameByte(a[i], b[i])
  }

  lemma LowerNames(a: Name, b: Name)
    ensures Lower(a) == Lower(b) <==> SameName(a, b)
  {
    hide Lower;
    if Lower(a) == Lower(b) {
      assert |a| == |Lower(a)| == |b|;
      forall i | 0 <= i < |a| ensures SameByte(a[i], b[i]) {
        assert Lower(a)[i] == Lower(b)[i];
      }
    }
  }

  datatype Question = Question(labels: seq<Name>, kind: Word, cls: Word)

  /** A question for an IPv4 address of this host, whatever its top class bit (section 5.4 of RFC 6762). */
  predicate Asks(q: Question, host: Name) {
    q.cls % 0x8000 == 1 && (q.kind == TYPE_A || q.kind == TYPE_ANY) && SameName(Dotted(q.labels), host)
  }

  function WordAt(packet: seq<Byte>, offset: nat): Word
    requires offset + 1 < |packet|
  {
    packet[offset] as int * 256 + packet[offset + 1]
  }

  /** The question at an offset, and the offset after it. */
  function QuestionAt(packet: seq<Byte>, offset: nat): (r: Option<(Question, nat)>)
    requires offset <= |packet|
    ensures r.Some? ==> r.value.1 <= |packet|
  {
    match DecodeFrom(packet, offset, 0)
    case None => None
    case Some(name) =>
      var end := offset + name.consumed;
      if end + 4 > |packet| then None
      else Some((Question(name.labels, WordAt(packet, end), WordAt(packet, end + 2)), end + 4))
  }

  predicate Requests(packet: seq<Byte>, offset: nat, count: nat, host: Name)
    requires offset <= |packet|
    decreases count
  {
    count > 0 &&
    var q := QuestionAt(packet, offset);
    q.Some? && (Asks(q.value.0, host) || Requests(packet, q.value.1, count - 1, host))
  }

  method QueryRequestsHost(packet: seq<Byte>, host: Name) returns (requested: bool)
    ensures requested <==> |packet| >= 12 && Requests(packet, 12, WordAt(packet, 4), host)
  {
    hide DecodeFrom, Dotted, Lower, SameName;
    if |packet| < 12 {
      return false;
    }
    var count: nat := packet[4] as int * 256 + packet[5];
    var offset: nat, target := 12, Lower(host);
    for i := 0 to count
      invariant 12 <= offset <= |packet|
      invariant Requests(packet, 12, count, host) <==> Requests(packet, offset, count - i, host)
    {
      var ok, name, consumed := DecodeDnsName(packet, offset);
      if !ok {
        return false;
      }
      var end := offset + consumed;
      if end + 4 > |packet| {
        return false;
      }
      var kind: int := packet[end] as int * 256 + packet[end + 1];
      var cls: int := packet[end + 2] as int * 256 + packet[end + 3];
      LowerNames(name, host);
      if cls % 0x8000 == 1 && (kind == TYPE_A || kind == TYPE_ANY) && Lower(name) == target {
        return true;
      }
      offset := end + 4;
    }
    return false;
  }

  function Two(w: Word): seq<Byte> {
    [w / 256, w % 256]
  }

  function QuestionBytes(q: Question): seq<Byte>
    requires WireLabels(q.labels)
  {
    Wire(q.labels) + (Two(q.kind) + Two(q.cls))
  }

  function QuestionsBytes(questions: seq<Question>): seq<Byte>
    requires forall q <- questions :: WireLabels(q.labels)
  {
    if questions == [] then [] else QuestionBytes(questions[0]) + QuestionsBytes(questions[1..])
  }

  lemma QuestionReadsBack(prefix: seq<Byte>, q: Question, suffix: seq<Byte>)
    requires WireLabels(q.labels)
    ensures QuestionAt(prefix + QuestionBytes(q) + suffix, |prefix|) == Some((q, |prefix| + |QuestionBytes(q)|))
  {
    hide DecodeFrom, Wire;
    var packet := prefix + QuestionBytes(q) + suffix;
    var fields := Two(q.kind) + Two(q.cls);
    assert packet == prefix + Wire(q.labels) + (fields + suffix);
    DecodeOfWire(prefix, q.labels, fields + suffix, 0);
    var end := |prefix| + |Wire(q.labels)|;
    assert forall i | 0 <= i < 4 :: packet[end + i] == fields[i];
    assert packet[end] == fields[0] && packet[end + 1] == fields[1] && packet[end + 2] == fields[2] &&
           packet[end + 3] == fields[3];
  }

  lemma RequestsStep(packet: seq<Byte>, offset: nat, count: nat, host: Name, q: Question, next: nat)
    requires offset <= |packet| && count > 0 && QuestionAt(packet, offset) == Some((q, next)) && next <= |packet|
    ensures Requests(packet, offset, count, host) <==> Asks(q, host) || Requests(packet, next, count - 1, host)
  {
    hide QuestionAt, Asks;
  }

  lemma AsksFirstOrLater(q: Question, rest: seq<Question>, host: Name)
    ensures (exists x <- [q] + rest :: Asks(x, host)) <==> Asks(q, host) || exists x <- rest :: Asks(x, host)
  {
    hide Asks;
    assert q in [q] + rest;
  }

  lemma {:induction false} QuestionsAreSearched(prefix: seq<Byte>, questions: seq<Question>, tail: seq<Byte>,
      host: Name)
    requires forall q <- questions :: WireLabels(q.labels)
    ensures Requests(prefix + QuestionsBytes(questions) + tail, |prefix|, |questions|, host)
            <==> exists q <- questions :: Asks(q, host)
    decreases |questions|
  {
    hide QuestionAt, QuestionBytes, Asks, Wire, Requests;
    if questions == [] {
      NoRequests(prefix + QuestionsBytes(questions) + tail, |prefix|, host);
    } else {
      var q, rest := questions[0], questions[1..];
      var packet := prefix + QuestionsBytes(questions) + tail;
      assert packet == prefix + QuestionBytes(q) + (QuestionsBytes(rest) + tail);
      QuestionReadsBack(prefix, q, QuestionsBytes(rest) + tail);
      var before := prefix + QuestionBytes(q);
      assert packet == before + QuestionsBytes(rest) + tail;
      QuestionsAreSearched(before, rest, tail, host);
      RequestsStep(packet, |prefix|, |questions|, host, q, |before|);
      assert questions == [q] + rest;
      AsksFirstOrLater(q, rest, host);
    }
  }

  lemma NoRequests(packet: seq<Byte>, offset: nat, host: Name)
    requires offset <= |packet|
    ensures !Requests(packet, offset, 0, host)
  {
  }

  /**
    A packet with these questions, and anything after them, requests the host exactly when one of them asks
    for it.
   */
  lemma QueryIsAnswered(id: Word, flags: Word, questions: seq<Question>, others: seq<Byte>, tail: seq<Byte>, host: Name)
    requires |questions| < 65536 && |others| == 6 && forall q <- questions :: WireLabels(q.labels)
    ensures var packet := Two(id) + Two(flags) + Two(|questions|) + others + QuestionsBytes(questions) + tail;
            |packet| >= 12 && (Requests(packet, 12, WordAt(packet, 4), host) <==>
                exists q <- questions :: Asks(q, host))
  {
    hide QuestionsBytes, Requests, Asks;
    var header := Two(id) + Two(flags) + Two(|questions|) + others;
    var packet := header + QuestionsBytes(questions) + tail;
    assert header[4] == |questions| / 256 && header[5] == |questions| % 256;
    assert WordAt(packet, 4) == |questions|;
    QuestionsAreSearched(header, questions, tail, host);
  }

  // ------------------------------------------------------------------ answer

  const TTL := 120

  const ANSWER_HEADER: seq<Byte> := [0x00, 0x00, 0x84, 0x00, 0x00, 0x00, 0x00, 0x01, 0x00, 0x00, 0x00, 0x00]
  const ANSWER_RECORD: seq<Byte> := [0x00, 0x01, 0x00, 0x01, 0x00, 0x00, 0x00, 0x78, 0x00, 0x04]

  /** `BuildAnswerPacket`: an authoritative answer with one address record. */
  function AnswerPacket(fqdn: Name, ip: seq<Byte>): seq<Byte>
    requires |ip| == 4
  {
    match Encode(fqdn)
    case None => []
    case Some(name) =>
      ANSWER_HEADER + name + (ANSWER_RECORD + ip)
  }

  /** A receiver reads the host's name, type A, class IN, the lifetime and the address, and nothing more. */
  lemma AnswerReadsBack(labels: seq<Name>, trailing: bool, ip: seq<Byte>)
    requires HostLabels(labels) && (trailing ==> labels != []) && |ip| == 4
    ensures var packet := AnswerPacket(Dotted(labels) + if trailing then [DOT] else [], ip);
            && |packet| >= 26 && WordAt(packet, 0) == 0 && WordAt(packet, 2) == 0x8400
            && WordAt(packet, 4) == 0 && WordAt(packet, 6) == 1 && WordAt(packet, 8) == 0 && WordAt(packet, 10) == 0
            && DecodeFrom(packet, 12, 0) == Some(Decoded(labels, |packet| - 26))
            && var at := |packet| - 14;
               && WordAt(packet, at) == TYPE_A && WordAt(packet, at + 2) == 1
               && WordAt(packet, at + 4) == 0 && WordAt(packet, at + 6) == TTL
               && WordAt(packet, at + 8) == 4 && packet[at + 10..] == ip
  {
    hide DecodeFrom, Dotted, Wire;
    var fqdn := Dotted(labels) + if trailing then [DOT] else [];
    EncodeOfLabels(labels, trailing);
    assert forall l <- labels :: HostLabel(l);
    var packet := AnswerPacket(fqdn, ip);
    AnswerParts(fqdn, ip);
    DecodeOfWire(ANSWER_HEADER, labels, ANSWER_RECORD + ip, 0);
    RecordFields(ANSWER_HEADER + Wire(labels), ip);
    assert forall i | 0 <= i < 12 :: packet[i] == ANSWER_HEADER[i];
  }

  lemma AnswerParts(fqdn: Name, ip: seq<Byte>)
    requires |ip| == 4 && Encode(fqdn).Some?
    ensures AnswerPacket(fqdn, ip) == ANSWER_HEADER + Encode(fqdn).value + (ANSWER_RECORD + ip)
    ensures |AnswerPacket(fqdn, ip)| == 26 + |Encode(fqdn).value|
  {
    hide Encode;
  }

  lemma RecordFields(before: seq<Byte>, ip: seq<Byte>)
    requires |ip| == 4
    ensures var packet := before + (ANSWER_RECORD + ip);
            var at := |before|;
            && WordAt(packet, at) == TYPE_A && WordAt(packet, at + 2) == 1
            && WordAt(packet, at + 4) == 0 && WordAt(packet, at + 6) == TTL
            && WordAt(packet, at + 8) == 4 && packet[at + 10..] == ip
  {
    var packet := before + (ANSWER_RECORD + ip);
    var at := |before|;
    assert packet[at..] == ANSWER_RECORD + ip;
    assert packet[at + 10..] == packet[at..][10..] == ip;
    assert packet[at + 1] == packet[at..][1] && packet[at + 3] == packet[at..][3] &&
           packet[at + 7] == packet[at..][7] && packet[at + 9] == packet[at..][9];
    assert packet[at] == packet[at + 2] == packet[at + 4] == packet[at + 5] == packet[at + 6] == packet[at + 8] == 0;
  }

  /** An answer is never taken for a request, so responders do not set each other off. */
  lemma AnswersAreNotQueries(fqdn: Name, ip: seq<Byte>, host: Name)
    requires |ip| == 4
    ensures var packet := AnswerPacket(fqdn, ip);
            !(|packet| >= 12 && Requests(packet, 12, WordAt(packet, 4), host))
  {
    hide Encode;
  }
}
