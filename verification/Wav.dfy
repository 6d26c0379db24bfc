/**
  The software volume of the chime player: a PCM WAV file in memory is scaled in place.  `lround` of the
  floating-point product is any integer within half of the exact one, so only exact ties are left open.
 */
module Wav {
  import opened Wrappers
  import opened Bytes
  import opened Text

  function Le16(b: seq<Byte>, at: nat): (n: nat)
    requires at + 2 <= |b|
    ensures n < 0x1_0000
  {
    b[at] as int + 0x100 * b[at + 1] as int
  }

  function Le32(b: seq<Byte>, at: nat): nat
    requires at + 4 <= |b|
  {
    Le16(b, at) + 0x1_0000 * Le16(b, at + 2)
  }

  predicate Tag(b: seq<Byte>, at: nat, tag: string)
    requires at + 4 <= |b| && |tag| == 4
  {
    forall i | 0 <= i < 4 :: b[at + i] == tag[i] as int
  }

  datatype Format = Format(encoding: nat, bits: nat)

  datatype Span = Span(offset: nat, size: nat)

  datatype Chunks = Chunks(format: Option<Format>, data: Option<Span>)

  /** What the walk takes from the chunk at the cursor, or why it stops. */
  function ChunkAt(b: seq<Byte>, cursor: nat, found: Chunks): (r: Result<(Chunks, nat)>)
    requires cursor + 8 <= |b|
    ensures r.Ok? ==> cursor + 8 <= r.value.1 <= |b|
  {
    var size := Le32(b, cursor + 4);
    var body := cursor + 8;
    if size > |b| - body then Err("corrupt wav chunk size")
    else if Tag(b, cursor, "fmt ") && size < 16 then Err("invalid fmt chunk")
    else if size % 2 > |b| - (body + size) then Err("corrupt wav chunk padding")
    else
      var next := body + size + size % 2;
      if Tag(b, cursor, "fmt ") then Ok((found.(format := Some(Format(Le16(b, body), Le16(b, body + 14)))), next))
      else if Tag(b, cursor, "data") then Ok((found.(data := Some(Span(body, size))), next))
      else Ok((found, next))
  }

  function Walk(b: seq<Byte>, cursor: nat, found: Chunks): Result<Chunks>
    requires cursor <= |b|
    decreases |b| - cursor
  {
    if cursor + 8 > |b| then Ok(found)
    else
      match ChunkAt(b, cursor, found)
      case Err(e) => Err(e)
      case Ok(step) => Walk(b, step.1, step.0)
  }

  /** Where the samples are, and how wide. */
  datatype Layout = Layout(bits: nat, data: Span)

  function Checked(found: Chunks): Result<Layout> {
    if found.format.None? || found.data.None? then Err("missing fmt or data chunk")
    else if found.format.value.encoding != 1 then Err("unsupported wav encoding (only PCM supported)")
    else
      var bits := found.format.value.bits;
      if bits == 16 && found.data.value.size % 2 != 0 then Err("invalid 16-bit PCM data size")
      else if bits != 16 && bits != 8 then Err("unsupported bits_per_sample=" + NatToString(bits))
      else Ok(Layout(bits, found.data.value))
  }

  function LayoutOf(b: seq<Byte>): Result<Layout> {
    if |b| < 44 then Err("wav too small")
    else if !Tag(b, 0, "RIFF") || !Tag(b, 8, "WAVE") then Err("not a RIFF/WAVE file")
    else
      match Walk(b, 12, Chunks(None, None))
      case Err(e) => Err(e)
      case Ok(found) => Checked(found)
  }

  // ---------------------------------------------------------------- samples

  predicate Rounds(sample: int, volume: int, r: int) {
    -50 <= 100 * r - sample * volume <= 50
  }

  method LRound(sample: int, volume: int) returns (r: int)
    ensures Rounds(sample, volume, r)
  {
    var product := sample * volume;
    assert Rounds(sample, volume, (product + 50) / 100);
    r :| Rounds(sample, volume, r);
  }

  function Clamp(x: int, lo: int, hi: int): int {
    if x < lo then lo else if x > hi then hi else x
  }

  ghost predicate ScaledTo(sample: int, volume: int, lo: int, hi: int, out: int) {
    exists r :: Rounds(sample, volume, r) && out == Clamp(r, lo, hi)
  }

  /**
    For a volume of 0 to 100 percent the result is the product to within half a step, never louder and
    never of the other sign, and so it is never clamped.
   */
  lemma ScalingIsFaithful(sample: int, volume: int, lo: int, hi: int, out: int)
    requires 0 <= volume <= 100 && lo <= sample <= hi && lo <= 0 <= hi && ScaledTo(sample, volume, lo, hi, out)
    ensures Rounds(sample, volume, out)
    ensures if sample >= 0 then 0 <= out <= sample else sample <= out <= 0
    ensures volume == 100 ==> out == sample
    ensures volume == 0 ==> out == 0
  {
    var r :| Rounds(sample, volume, r) && out == Clamp(r, lo, hi);
    ProductBounds(sample, volume);
    NearProduct(sample, sample * volume, r);
  }

  lemma ProductBounds(sample: int, volume: int)
    requires 0 <= volume <= 100
    ensures if sample >= 0 then 0 <= sample * volume <= 100 * sample else 100 * sample <= sample * volume <= 0
  {
    if sample >= 0 {
      assert sample * volume <= sample * 100;
    } else {
      assert (-sample) * volume <= (-sample) * 100;
    }
  }

  lemma NearProduct(sample: int, product: int, r: int)
    requires -50 <= 100 * r - product <= 50
    requires if sample >= 0 then 0 <= product <= 100 * sample else 100 * sample <= product <= 0
    ensures if sample >= 0 then 0 <= r <= sample else sample <= r <= 0
    ensures product == 100 * sample ==> r == sample
    ensures product == 0 ==> r == 0
  {
  }

  function Sample16(b: seq<Byte>, at: nat): (s: int)
    requires at + 2 <= |b|
    ensures -0x8000 <= s <= 0x7fff
  {
    var n := Le16(b, at);
    if n < 0x8000 then n else n - 0x1_0000
  }

  function Sample8(b: seq<Byte>, at: nat): int
    requires at < |b|
  {
    b[at] as int - 128
  }

  predicate InBuffer(b: seq<Byte>, l: Layout) {
    l.data.offset + l.data.size <= |b| && (l.bits == 16 || l.bits == 8) && (l.bits == 16 ==> l.data.size % 2 == 0)
  }

  predicate Inside(l: Layout, i: int) {
    l.data.offset <= i < l.data.offset + l.data.size
  }

  ghost predicate SameOutside(before: seq<Byte>, after: seq<Byte>, l: Layout) {
    |after| == |before| && forall i | 0 <= i < |before| && !Inside(l, i) :: after[i] == before[i]
  }

  function SampleCount(l: Layout): nat {
    if l.bits == 16 then l.data.size / 2 else l.data.size
  }

  function Sample(b: seq<Byte>, l: Layout, k: nat): int
    requires InBuffer(b, l) && k < SampleCount(l)
  {
    if l.bits == 16 then Sample16(b, l.data.offset + 2 * k) else Sample8(b, l.data.offset + k)
  }

  function Lowest(l: Layout): int {
    if l.bits == 16 then -0x8000 else -128
  }

  function Highest(l: Layout): int {
    if l.bits == 16 then 0x7fff else 127
  }

  /** The buffer afterwards: the samples are scaled, and everything else is as before. */
  ghost predicate ScaledBuffer(before: seq<Byte>, after: seq<Byte>, l: Layout, volume: int)
    requires InBuffer(before, l)
  {
    && SameOutside(before, after, l)
    && forall k | 0 <= k < SampleCount(l) ::
         ScaledTo(Sample(before, l, k), volume, Lowest(l), Highest(l), Sample(after, l, k))
  }

  lemma {:induction false} WalkedSpan(b: seq<Byte>, cursor: nat, found: Chunks)
    requires cursor <= |b| && Walk(b, cursor, found).Ok?
    ensures var data := Walk(b, cursor, found).value.data;
            data == found.data ||
                (data.Some? && cursor + 8 <= data.value.offset && data.value.offset + data.value.size <= |b|)
    decreases |b| - cursor
  {
    if cursor + 8 <= |b| {
      var step := ChunkAt(b, cursor, found).value;
      WalkedSpan(b, step.1, step.0);
    }
  }

  lemma LayoutInBuffer(b: seq<Byte>)
    requires LayoutOf(b).Ok?
    ensures InBuffer(b, LayoutOf(b).value)
  {
    WalkedSpan(b, 12, Chunks(None, None));
  }

  // ------------------------------------------------------------- the method

  method WriteLe16(b: array<Byte>, at: nat, value: int)
    requires at + 2 <= b.Length && -0x8000 <= value <= 0x7fff
    modifies b
    ensures Sample16(b[..], at) == value
    ensures forall i | 0 <= i < b.Length && i != at && i != at + 1 :: b[i] == old(b[i])
  {
    var word := if value < 0 then value + 0x1_0000 else value;
    b[at] := word % 0x100;
    b[at + 1] := word / 0x100;
  }

  method FindChunks(b: array<Byte>) returns (found: Result<Chunks>)
    requires b.Length >= 44
    ensures found == Walk(b[..], 12, Chunks(None, None))
  {
    hide ChunkAt;
    var chunks, cursor := Chunks(None, None), 12;
    while cursor <= b.Length - 8
      invariant 12 <= cursor <= b.Length
      invariant Walk(b[..], 12, Chunks(None, None)) == Walk(b[..], cursor, chunks)
    {
      var step := ChunkAt(b[..], cursor, chunks);
      if step.Err? {
        return Err(step.error);
      }
      chunks, cursor := step.value.0, step.value.1;
    }
    return Ok(chunks);
  }

  /** `ScalePcmWavInMemory`. */
  method ScalePcmWav(b: array<Byte>, volume: int) returns (error: Option<string>)
    modifies b
    ensures match LayoutOf(old(b[..]))
            case Err(e) => error == Some(e) && b[..] == old(b[..])
            case Ok(l) => error == None && InBuffer(old(b[..]), l) && ScaledBuffer(old(b[..]), b[..], l, volume)
  {
    if b.Length < 44 {
      return Some("wav too small");
    }
    if !Tag(b[..], 0, "RIFF") || !Tag(b[..], 8, "WAVE") {
      return Some("not a RIFF/WAVE file");
    }
    var found := FindChunks(b);
    if found.Err? {
      return Some(found.error);
    }
    var layout := Checked(found.value);
    if layout.Err? {
      return Some(layout.error);
    }
    LayoutInBuffer(b[..]);
    ScaleSamples(b, layout.value, volume);
    return None;
  }

  method ScaleSamples(b: array<Byte>, l: Layout, volume: int)
    requires InBuffer(b[..], l)
    modifies b
    ensures ScaledBuffer(old(b[..]), b[..], l, volume)
  {
    if l.bits == 16 {
      Scale16(b, l, volume);
    } else {
      Scale8(b, l, volume);
    }
  }

  method Scale16(b: array<Byte>, l: Layout, volume: int)
    requires InBuffer(b[..], l) && l.bits == 16
    modifies b
    ensures ScaledBuffer(old(b[..]), b[..], l, volume)
  {
    hide ScaledTo;
    ghost var before := b[..];
    var n := l.data.size / 2;
    for k := 0 to n
      invariant SameOutside(before, b[..], l)
      invariant forall i | l.data.offset + 2 * k <= i < b.Length :: b[i] == before[i]
      invariant forall j | 0 <= j < k ::
                  ScaledTo(Sample(before, l, j), volume, Lowest(l), Highest(l), Sample(b[..], l, j))
    {
      var at := l.data.offset + 2 * k;
      var sample := Sample16(b[..], at);
      var scaled := LRound(sample, volume);
      ghost var earlier := b[..];
      assert sample == Sample(before, l, k);
      WriteLe16(b, at, Clamp(scaled, -0x8000, 0x7fff));
      ScaledToClamped(sample, volume, Lowest(l), Highest(l), scaled);
      forall j | 0 <= j < k ensures Sample(b[..], l, j) == Sample(earlier, l, j) {
        assert b[l.data.offset + 2 * j] == earlier[l.data.offset + 2 * j];
        assert b[l.data.offset + 2 * j + 1] == earlier[l.data.offset + 2 * j + 1];
      }
    }
  }

  method Scale8(b: array<Byte>, l: Layout, volume: int)
    requires InBuffer(b[..], l) && l.bits == 8
    modifies b
    ensures ScaledBuffer(old(b[..]), b[..], l, volume)
  {
    hide ScaledTo;
    ghost var before := b[..];
    for k := 0 to l.data.size
      invariant SameOutside(before, b[..], l)
      invariant forall i | l.data.offset + k <= i < b.Length :: b[i] == before[i]
      invariant forall j | 0 <= j < k ::
                  ScaledTo(Sample(before, l, j), volume, Lowest(l), Highest(l), Sample(b[..], l, j))
    {
      var at := l.data.offset + k;
      var centered: int := b[at] as int - 128;
      var scaled := LRound(centered, volume);
      ghost var earlier := b[..];
      assert centered == Sample(before, l, k);
      b[at] := Clamp(scaled, -128, 127) + 128;
      ScaledToClamped(centered, volume, Lowest(l), Highest(l), scaled);
      forall j | 0 <= j < k ensures Sample(b[..], l, j) == Sample(earlier, l, j) {
      }
    }
  }

  lemma ScaledToClamped(sample: int, volume: int, lo: int, hi: int, r: int)
    requires Rounds(sample, volume, r)
    ensures ScaledTo(sample, volume, lo, hi, Clamp(r, lo, hi))
  {
  }

  // -------------------------------------------------------------- properties

  lemma {:induction false} WalkSame(before: seq<Byte>, after: seq<Byte>, cursor: nat, found: Chunks, l: Layout)
    requires cursor <= |before| && Walk(before, cursor, found).Ok? &&
             Walk(before, cursor, found).value.data == Some(l.data)
    requires SameOutside(before, after, l)
    requires found.data == Some(l.data) ==> l.data.offset + l.data.size <= cursor
    ensures Walk(after, cursor, found) == Walk(before, cursor, found)
    decreases |before| - cursor
  {
    hide ChunkAt;
    if cursor + 8 <= |before| {
      var step := ChunkAt(before, cursor, found).value;
      WalkedSpan(before, step.1, step.0);
      ChunkSame(before, after, cursor, found, l);
      WalkSame(before, after, step.1, step.0, l);
    }
  }

  lemma ChunkSame(before: seq<Byte>, after: seq<Byte>, cursor: nat, found: Chunks, l: Layout)
    requires cursor + 8 <= |before| && ChunkAt(before, cursor, found).Ok? && SameOutside(before, after, l)
    requires found.data == Some(l.data) ==> l.data.offset + l.data.size <= cursor
    requires var step := ChunkAt(before, cursor, found).value;
             step.0.data == Some(l.data) || step.1 + 8 <= l.data.offset
    ensures ChunkAt(after, cursor, found) == ChunkAt(before, cursor, found)
    ensures var step := ChunkAt(before, cursor, found).value;
            step.0.data == Some(l.data) ==> l.data.offset + l.data.size <= step.1
  {
    assert forall i | cursor <= i < cursor + 8 :: !Inside(l, i);
    assert Tag(after, cursor, "fmt ") == Tag(before, cursor, "fmt ") &&
           Tag(after, cursor, "data") == Tag(before, cursor, "data");
    assert Le32(after, cursor + 4) == Le32(before, cursor + 4);
    if Tag(before, cursor, "fmt ") {
      assert "fmt "[0] == 'f' && "data"[0] == 'd';
      assert forall i | cursor + 8 <= i < cursor + 24 :: !Inside(l, i);
    }
  }

  /** Scaling leaves the file's structure alone: the walk gives the same result again. */
  lemma LayoutIsKept(before: seq<Byte>, after: seq<Byte>, volume: int)
    requires LayoutOf(before).Ok? && InBuffer(before, LayoutOf(before).value)
    requires ScaledBuffer(before, after, LayoutOf(before).value, volume)
    ensures LayoutOf(after) == LayoutOf(before)
  {
    hide Walk;
    var l := LayoutOf(before).value;
    WalkedSpan(before, 12, Chunks(None, None));
    WalkSame(before, after, 12, Chunks(None, None), l);
    assert forall i | 0 <= i < 12 :: !Inside(l, i);
    assert Tag(after, 0, "RIFF") == Tag(before, 0, "RIFF") && Tag(after, 8, "WAVE") == Tag(before, 8, "WAVE");
  }

  /** Every sample is faithful, and so at full volume the file is unchanged, and at volume 0 it is silent. */
  lemma ScaledSamples(before: seq<Byte>, after: seq<Byte>, l: Layout, volume: int, k: nat)
    requires 0 <= volume <= 100 && InBuffer(before, l) && ScaledBuffer(before, after, l, volume) && k < SampleCount(l)
    ensures var x, y := Sample(before, l, k), Sample(after, l, k);
            && Rounds(x, volume, y) && (if x >= 0 then 0 <= y <= x else x <= y <= 0)
            && (volume == 100 ==> y == x) && (volume == 0 ==> y == 0)
  {
    hide ScaledTo;
    ScalingIsFaithful(Sample(before, l, k), volume, Lowest(l), Highest(l), Sample(after, l, k));
  }

  lemma SampleDeterminesBytes(before: seq<Byte>, after: seq<Byte>, l: Layout, k: nat)
    requires InBuffer(before, l) && |after| == |before| && k < SampleCount(l)
    requires Sample(before, l, k) == Sample(after, l, k)
    ensures if l.bits == 16 then before[l.data.offset + 2 * k] == after[l.data.offset + 2 * k]
                                 && before[l.data.offset + 2 * k + 1] == after[l.data.offset + 2 * k + 1]
            else before[l.data.offset + k] == after[l.data.offset + k]
  {
    if l.bits == 16 {
      var at := l.data.offset + 2 * k;
      assert Le16(before, at) == Le16(after, at);
      assert before[at] == Le16(before, at) % 0x100 && after[at] == Le16(after, at) % 0x100;
    }
  }

  lemma FullVolumeIsIdentity(before: seq<Byte>, after: seq<Byte>, l: Layout)
    requires InBuffer(before, l) && ScaledBuffer(before, after, l, 100)
    ensures after == before
  {
    hide ScaledTo, Sample;
    forall i | 0 <= i < |before| ensures after[i] == before[i] {
      if Inside(l, i) {
        var k := if l.bits == 16 then (i - l.data.offset) / 2 else i - l.data.offset;
        ScaledSamples(before, after, l, 100, k);
        SampleDeterminesBytes(before, after, l, k);
      }
    }
  }
}
