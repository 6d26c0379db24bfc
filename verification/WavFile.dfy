/**
  Which file has which layout.  A RIFF file is put together here from its chunks, byte by byte and apart from the walk
  of Wav, and the walk finds the format and the samples in it.
 */
module WavFile {
  import opened Wrappers
  import opened Bytes
  import opened Text
  import opened Wav

  const RIFF_TAG: seq<Byte> := [82, 73, 70, 70]
  const WAVE_TAG: seq<Byte> := [87, 65, 86, 69]
  const FMT_TAG: seq<Byte> := [102, 109, 116, 32]
  const DATA_TAG: seq<Byte> := [100, 97, 116, 97]

  datatype Chunk = Chunk(tag: seq<Byte>, payload: seq<Byte>)

  /** The size of a chunk, low byte first. */
  function SizeBytes(n: nat): (b: seq<Byte>)
    requires n < 0x1_0000_0000
    ensures |b| == 4
  {
    [n % 0x100, n / 0x100 % 0x100, n / 0x1_0000 % 0x100, n / 0x100_0000]
  }

  /** A chunk of odd size is followed by one more byte. */
  function ChunkBytes(c: Chunk, pad: Byte): seq<Byte>
    requires |c.payload| < 0x1_0000_0000
  {
    c.tag + SizeBytes(|c.payload|) + c.payload + if |c.payload| % 2 == 1 then [pad] else []
  }

  /** Chunks that the walk does not refuse: a format has at least 16 bytes. */
  predicate ChunkOk(c: Chunk) {
    |c.tag| == 4 && |c.payload| < 0x1_0000_0000 && (c.tag == FMT_TAG ==> |c.payload| >= 16)
  }

  predicate ChunksOk(chunks: seq<Chunk>) {
    forall i | 0 <= i < |chunks| :: ChunkOk(chunks[i])
  }

  function ChunksBytes(chunks: seq<Chunk>, pad: Byte): seq<Byte>
    requires ChunksOk(chunks)
  {
    if chunks == [] then [] else ChunkBytes(chunks[0], pad) + ChunksBytes(chunks[1..], pad)
  }

  /** The whole file; what its header says of its size is not looked at, nor are up to seven bytes at its end. */
  function FileBytes(size: seq<Byte>, chunks: seq<Chunk>, pad: Byte, tail: seq<Byte>): seq<Byte>
    requires ChunksOk(chunks)
  {
    RIFF_TAG + size + WAVE_TAG + ChunksBytes(chunks, pad) + tail
  }

  /** The last chunk of this tag. */
  function LastChunk(chunks: seq<Chunk>, tag: seq<Byte>): Option<seq<Byte>> {
    if chunks == [] then None
    else
      var later := LastChunk(chunks[1..], tag);
      if later.Some? then later else if chunks[0].tag == tag then Some(chunks[0].payload) else None
  }

  function ChunkSize(c: Chunk): nat {
    8 + |c.payload| + |c.payload| % 2
  }

  /** Where the payload of the last data chunk lies, if the chunks begin at this offset. */
  function DataSpan(chunks: seq<Chunk>, at: nat): Option<Span> {
    if chunks == [] then None
    else
      var later := DataSpan(chunks[1..], at + ChunkSize(chunks[0]));
      if later.Some? then later else if chunks[0].tag == DATA_TAG then Some(Span(at + 8, |chunks[0].payload|)) else None
  }

  lemma SizeIsRead(prefix: seq<Byte>, n: nat, suffix: seq<Byte>)
    requires n < 0x1_0000_0000
    ensures Le32(prefix + SizeBytes(n) + suffix, |prefix|) == n
  {
    var b := prefix + SizeBytes(n) + suffix;
    assert forall i | 0 <= i < 4 :: b[|prefix| + i] == SizeBytes(n)[i];
  }

  lemma TagIsRead(b: seq<Byte>, at: nat, tag: string, bytes: seq<Byte>)
    requires at + 4 <= |b| && |tag| == |bytes| == 4 && forall i | 0 <= i < 4 :: tag[i] as int == bytes[i]
    ensures Tag(b, at, tag) <==> b[at..at + 4] == bytes
  {
    var t := b[at..at + 4];
    assert forall i | 0 <= i < 4 :: t[i] == b[at + i];
    if Tag(b, at, tag) {
      assert forall i | 0 <= i < 4 :: t[i] == bytes[i];
    }
    if t == bytes {
      assert forall i | 0 <= i < 4 :: b[at + i] == bytes[i];
    }
  }

  lemma ChunkTags(b: seq<Byte>, at: nat)
    requires at + 4 <= |b|
    ensures Tag(b, at, "fmt ") <==> b[at..at + 4] == FMT_TAG
    ensures Tag(b, at, "data") <==> b[at..at + 4] == DATA_TAG
  {
    hide Tag;
    TagIsRead(b, at, "fmt ", FMT_TAG);
    TagIsRead(b, at, "data", DATA_TAG);
  }

  lemma FileTags(b: seq<Byte>)
    requires |b| >= 12
    ensures Tag(b, 0, "RIFF") <==> b[0..4] == RIFF_TAG
    ensures Tag(b, 8, "WAVE") <==> b[8..12] == WAVE_TAG
  {
    hide Tag;
    TagIsRead(b, 0, "RIFF", RIFF_TAG);
    TagIsRead(b, 8, "WAVE", WAVE_TAG);
  }

  /** The format in a payload: its first two bytes, and the two from the fifteenth on, low byte first. */
  function FormatIn(payload: seq<Byte>): Format
    requires |payload| >= 16
  {
    Format(payload[0] as int + 0x100 * payload[1] as int, payload[14] as int + 0x100 * payload[15] as int)
  }

  function FoundIn(c: Chunk, at: nat, found: Chunks): Chunks
    requires ChunkOk(c)
  {
    if c.tag == FMT_TAG then found.(format := Some(FormatIn(c.payload)))
    else if c.tag == DATA_TAG then found.(data := Some(Span(at + 8, |c.payload|)))
    else found
  }

  /** The parts of a chunk where the walk looks for them. */
  lemma ChunkInPlace(prefix: seq<Byte>, c: Chunk, pad: Byte, suffix: seq<Byte>)
    requires ChunkOk(c)
    ensures var b, at := prefix + ChunkBytes(c, pad) + suffix, |prefix|;
            && |b| == at + ChunkSize(c) + |suffix| && b[at..at + 4] == c.tag
            && Le32(b, at + 4) == |c.payload| && b[at + 8..at + 8 + |c.payload|] == c.payload
  {
    hide SizeBytes;
    var b, at := prefix + ChunkBytes(c, pad) + suffix, |prefix|;
    var rest := c.payload + (if |c.payload| % 2 == 1 then [pad] else []) + suffix;
    assert b == (prefix + c.tag) + SizeBytes(|c.payload|) + rest;
    SizeIsRead(prefix + c.tag, |c.payload|, rest);
    assert b[at + 8..] == rest;
    assert b[at + 8..at + 8 + |c.payload|] == rest[..|c.payload|] == c.payload;
  }

  lemma FormatInPlace(b: seq<Byte>, at: nat, payload: seq<Byte>)
    requires |payload| >= 16 && at + |payload| <= |b| && b[at..at + |payload|] == payload
    ensures Format(Le16(b, at), Le16(b, at + 14)) == FormatIn(payload)
  {
    var part := b[at..at + |payload|];
    assert part[0] == b[at] && part[1] == b[at + 1] && part[14] == b[at + 14] && part[15] == b[at + 15];
  }

  lemma ChunkIsRead(prefix: seq<Byte>, c: Chunk, pad: Byte, suffix: seq<Byte>, found: Chunks)
    requires ChunkOk(c)
    ensures ChunkAt(prefix + ChunkBytes(c, pad) + suffix, |prefix|, found)
         == Ok((FoundIn(c, |prefix|, found), |prefix| + ChunkSize(c)))
  {
    hide ChunkBytes, Le16, Le32, Tag, FormatIn;
    var b, at := prefix + ChunkBytes(c, pad) + suffix, |prefix|;
    ChunkInPlace(prefix, c, pad, suffix);
    ChunkTags(b, at);
    assert FMT_TAG[0] == 102 && DATA_TAG[0] == 100;
    if c.tag == FMT_TAG {
      FormatInPlace(b, at + 8, c.payload);
    }
  }

  lemma BytesStep(prefix: seq<Byte>, chunks: seq<Chunk>, pad: Byte, tail: seq<Byte>)
    requires chunks != [] && ChunksOk(chunks)
    ensures ChunkOk(chunks[0])
    ensures var b, rest := prefix + ChunksBytes(chunks, pad) + tail, ChunksBytes(chunks[1..], pad);
            && b == prefix + ChunkBytes(chunks[0], pad) + (rest + tail)
            && b == prefix + ChunkBytes(chunks[0], pad) + rest + tail
  {
    hide ChunkBytes;
    FourParts(prefix, ChunkBytes(chunks[0], pad), ChunksBytes(chunks[1..], pad), tail);
  }

  lemma FourParts(a: seq<Byte>, b: seq<Byte>, c: seq<Byte>, d: seq<Byte>)
    ensures a + (b + c) + d == a + b + (c + d) == a + b + c + d
  {
  }

  lemma WalkOn(prefix: seq<Byte>, c: Chunk, pad: Byte, suffix: seq<Byte>, found: Chunks)
    requires ChunkOk(c)
    ensures var b, at := prefix + ChunkBytes(c, pad) + suffix, |prefix|;
            && at + ChunkSize(c) <= |b|
            && Walk(b, at, found) == Walk(b, at + ChunkSize(c), FoundIn(c, at, found))
  {
    hide ChunkBytes, ChunkAt, FoundIn, Le32;
    ChunkIsRead(prefix, c, pad, suffix, found);
    ChunkInPlace(prefix, c, pad, suffix);
  }

  /** What the walk has found after these chunks. */
  function FoundInAll(chunks: seq<Chunk>, at: nat, found: Chunks): Chunks
    requires ChunksOk(chunks)
  {
    var fmt, data := LastChunk(chunks, FMT_TAG), DataSpan(chunks, at);
    FormatIsLong(chunks);
    Chunks(if fmt.Some? then Some(FormatIn(fmt.value)) else found.format, if data.Some? then data else found.data)
  }

  lemma {:induction false} FormatIsLong(chunks: seq<Chunk>)
    requires ChunksOk(chunks)
    ensures LastChunk(chunks, FMT_TAG).Some? ==> |LastChunk(chunks, FMT_TAG).value| >= 16
  {
    if chunks != [] {
      assert ChunkOk(chunks[0]);
      FormatIsLong(chunks[1..]);
    }
  }

  lemma FoundStep(chunks: seq<Chunk>, at: nat, found: Chunks)
    requires chunks != [] && ChunksOk(chunks)
    ensures FoundInAll(chunks, at, found)
         == FoundInAll(chunks[1..], at + ChunkSize(chunks[0]), FoundIn(chunks[0], at, found))
  {
    hide FormatIn;
    assert FMT_TAG[0] == 102 && DATA_TAG[0] == 100;
  }

  lemma {:induction false} ChunksAreRead(prefix: seq<Byte>, chunks: seq<Chunk>, pad: Byte, tail: seq<Byte>,
      found: Chunks)
    requires ChunksOk(chunks)
    ensures var b, at := prefix + ChunksBytes(chunks, pad) + tail, |prefix|;
            Walk(b, at, found) == Walk(b, at + |ChunksBytes(chunks, pad)|, FoundInAll(chunks, at, found))
    decreases |chunks|
  {
    hide ChunkBytes, Walk, FormatIn, Le32, FoundIn, ChunkSize;
    if chunks != [] {
      var c, rest := chunks[0], chunks[1..];
      var next := prefix + ChunkBytes(c, pad);
      BytesStep(prefix, chunks, pad, tail);
      WalkOn(prefix, c, pad, ChunksBytes(rest, pad) + tail, found);
      ChunkInPlace(prefix, c, pad, ChunksBytes(rest, pad) + tail);
      assert |next| == |prefix| + ChunkSize(c);
      ChunksAreRead(next, rest, pad, tail, FoundIn(c, |prefix|, found));
      FoundStep(chunks, |prefix|, found);
    }
  }

  /** The payload of the last data chunk stands in its span. */
  lemma {:induction false} DataInSpan(prefix: seq<Byte>, chunks: seq<Chunk>, pad: Byte, tail: seq<Byte>)
    requires ChunksOk(chunks)
    ensures var b, span := prefix + ChunksBytes(chunks, pad) + tail, DataSpan(chunks, |prefix|);
            && (span.Some? <==> LastChunk(chunks, DATA_TAG).Some?)
            && (span.Some? ==>
                  && span.value.offset + span.value.size <= |b|
                  && b[span.value.offset..span.value.offset + span.value.size] == LastChunk(chunks, DATA_TAG).value)
    decreases |chunks|
  {
    hide ChunkBytes, ChunksBytes, Le32, Le16;
    if chunks != [] {
      var c, rest := chunks[0], chunks[1..];
      BytesStep(prefix, chunks, pad, tail);
      ChunkInPlace(prefix, c, pad, ChunksBytes(rest, pad) + tail);
      DataInSpan(prefix + ChunkBytes(c, pad), rest, pad, tail);
    }
  }

  /** What the bytes of the last format and the last data chunk say. */
  function LayoutIn(format: Option<seq<Byte>>, data: Option<Span>): Result<Layout>
    requires format.Some? ==> |format.value| >= 16
  {
    if format.None? || data.None? then Err("missing fmt or data chunk")
    else
      var f := format.value;
      if f[0] != 1 || f[1] != 0 then Err("unsupported wav encoding (only PCM supported)")
      else if f[14] == 16 && f[15] == 0 then
        if data.value.size % 2 == 1 then Err("invalid 16-bit PCM data size") else Ok(Layout(16, data.value))
      else if f[14] == 8 && f[15] == 0 then Ok(Layout(8, data.value))
      else Err("unsupported bits_per_sample=" + NatToString(f[14] as int + 0x100 * f[15] as int))
  }

  lemma FileIsWalked(size: seq<Byte>, chunks: seq<Chunk>, pad: Byte, tail: seq<Byte>)
    requires |size| == 4 && ChunksOk(chunks) && |FileBytes(size, chunks, pad, tail)| >= 44
    ensures var b, at := FileBytes(size, chunks, pad, tail), 12 + |ChunksBytes(chunks, pad)|;
            && at <= |b|
            && LayoutOf(b) ==
               match Walk(b, at, FoundInAll(chunks, 12, Chunks(None, None)))
               case Err(e) => Err(e)
               case Ok(found) => Checked(found)
  {
    hide Walk, Tag, ChunksBytes, FoundInAll, Checked;
    var prefix := RIFF_TAG + size + WAVE_TAG;
    var b := FileBytes(size, chunks, pad, tail);
    assert b[0..4] == RIFF_TAG && b[8..12] == WAVE_TAG;
    FileTags(b);
    ChunksAreRead(prefix, chunks, pad, tail, Chunks(None, None));
  }

  lemma LayoutIsChecked(chunks: seq<Chunk>)
    requires ChunksOk(chunks)
    ensures var format := LastChunk(chunks, FMT_TAG);
            && (format.Some? ==> |format.value| >= 16)
            && Checked(FoundInAll(chunks, 12, Chunks(None, None))) == LayoutIn(format, DataSpan(chunks, 12))
  {
    hide LastChunk, DataSpan;
    FormatIsLong(chunks);
  }

  /**
    The layout of every file of chunks: that of its last format chunk, 1 for PCM in two bytes and 16 or 8 bits in
    two others, and the payload of its last data chunk, wherever they stand among other chunks of any size.
   */
  lemma FileHasLayout(size: seq<Byte>, chunks: seq<Chunk>, pad: Byte, tail: seq<Byte>)
    requires |size| == 4 && ChunksOk(chunks) && |tail| < 8 && |FileBytes(size, chunks, pad, tail)| >= 44
    ensures var b, format, data := FileBytes(size, chunks, pad, tail), LastChunk(chunks, FMT_TAG), DataSpan(chunks, 12);
            && (format.Some? ==> |format.value| >= 16)
            && LayoutOf(b) == LayoutIn(format, data)
            && (data.Some? ==>
                  && data.value.offset + data.value.size <= |b| && LastChunk(chunks, DATA_TAG).Some?
                  && b[data.value.offset..data.value.offset + data.value.size] == LastChunk(chunks, DATA_TAG).value)
  {
    hide LayoutOf, ChunksBytes, LastChunk, DataSpan, FoundInAll, Checked, LayoutIn;
    var prefix := RIFF_TAG + size + WAVE_TAG;
    FileIsWalked(size, chunks, pad, tail);
    LayoutIsChecked(chunks);
    DataInSpan(prefix, chunks, pad, tail);
  }

  /**
    A chunk that is cut off, a format of fewer than 16 bytes, and a chunk of odd size without its last byte are refused,
    whatever comes before; so is a file without the two tags at its beginning.
   */
  lemma BadChunkIsRefused(size: seq<Byte>, chunks: seq<Chunk>, pad: Byte, tag: seq<Byte>, n: nat, rest: seq<Byte>)
    requires |size| == |tag| == 4 && ChunksOk(chunks) && n < 0x1_0000_0000
    requires |rest| < n + n % 2 || (tag == FMT_TAG && n < 16)
    requires |FileBytes(size, chunks, pad, tag + SizeBytes(n) + rest)| >= 44
    ensures LayoutOf(FileBytes(size, chunks, pad, tag + SizeBytes(n) + rest)) ==
            Err(if |rest| < n then "corrupt wav chunk size"
                else if tag == FMT_TAG && n < 16 then "invalid fmt chunk"
                else "corrupt wav chunk padding")
  {
    hide LayoutOf, ChunksBytes, FoundInAll, Checked, SizeBytes, Le32, Tag;
    var tail := tag + SizeBytes(n) + rest;
    FileIsWalked(size, chunks, pad, tail);
    var b := FileBytes(size, chunks, pad, tail);
    var before := RIFF_TAG + size + WAVE_TAG + ChunksBytes(chunks, pad);
    assert b == (before + tag) + SizeBytes(n) + rest;
    SizeIsRead(before + tag, n, rest);
    ChunkTags(b, |before|);
    assert b[|before|..|before| + 4] == tag;
  }

  lemma OtherFilesAreRefused(b: seq<Byte>)
    ensures |b| < 44 ==> LayoutOf(b) == Err("wav too small")
    ensures |b| >= 44 && (b[0..4] != RIFF_TAG || b[8..12] != WAVE_TAG) ==> LayoutOf(b) == Err("not a RIFF/WAVE file")
  {
    hide Tag, Walk;
    if |b| >= 44 {
      FileTags(b);
    }
  }

  // ---------------------------------------------------------------- samples

  /** A sample of 16 bits, low byte first, negative ones as two's complement. */
  function SampleBytes(s: int): (b: seq<Byte>)
    requires -0x8000 <= s <= 0x7fff
    ensures |b| == 2
  {
    [s % 0x100, (if s < 0 then s + 0x1_0000 else s) / 0x100]
  }

  ghost predicate Fits(samples: seq<int>, lo: int, hi: int) {
    forall i | 0 <= i < |samples| :: lo <= samples[i] <= hi
  }

  function Payload16(samples: seq<int>): (b: seq<Byte>)
    requires Fits(samples, -0x8000, 0x7fff)
    ensures |b| == 2 * |samples|
  {
    if samples == [] then []
    else Payload16(samples[..|samples| - 1]) + SampleBytes(samples[|samples| - 1])
  }

  function Payload8(samples: seq<int>): (b: seq<Byte>)
    requires Fits(samples, -128, 127)
    ensures |b| == |samples| && forall i | 0 <= i < |b| :: b[i] == samples[i] + 128
  {
    seq(|samples|, i requires 0 <= i < |samples| => samples[i] + 128)
  }

  lemma {:induction false} PayloadAt(samples: seq<int>, k: nat)
    requires Fits(samples, -0x8000, 0x7fff) && k < |samples|
    ensures Payload16(samples)[2 * k..2 * k + 2] == SampleBytes(samples[k])
  {
    hide SampleBytes;
    var n := |samples| - 1;
    var before, last := Payload16(samples[..n]), SampleBytes(samples[n]);
    if k < n {
      PayloadAt(samples[..n], k);
      assert (before + last)[2 * k..2 * k + 2] == before[2 * k..2 * k + 2];
    }
  }

  lemma SampleIsRead(b: seq<Byte>, at: nat, s: int)
    requires -0x8000 <= s <= 0x7fff && at + 2 <= |b| && b[at] == SampleBytes(s)[0] && b[at + 1] == SampleBytes(s)[1]
    ensures Sample16(b, at) == s
  {
  }

  lemma SampleInPlace(b: seq<Byte>, offset: nat, payload: seq<Byte>, at: nat, s: int)
    requires -0x8000 <= s <= 0x7fff && at + 2 <= |payload| && payload[at..at + 2] == SampleBytes(s)
    requires offset + |payload| <= |b| && b[offset..offset + |payload|] == payload
    ensures Sample16(b, offset + at) == s
  {
    hide SampleBytes, Sample16;
    assert payload[at] == payload[at..at + 2][0] && payload[at + 1] == payload[at..at + 2][1];
    assert b[offset + at] == payload[at] && b[offset + (at + 1)] == payload[at + 1];
    SampleIsRead(b, offset + at, s);
  }

  /** The samples of a buffer are those that its payload was made of, in 16 bits ... */
  lemma WideSamplesAreRead(b: seq<Byte>, offset: nat, samples: seq<int>, k: nat)
    requires Fits(samples, -0x8000, 0x7fff) && k < |samples| && offset + 2 * |samples| <= |b|
    requires b[offset..offset + 2 * |samples|] == Payload16(samples)
    ensures var l := Layout(16, Span(offset, 2 * |samples|));
            InBuffer(b, l) && SampleCount(l) == |samples| && Sample(b, l, k) == samples[k]
  {
    hide SampleBytes, Payload16, Sample16;
    PayloadAt(samples, k);
    SampleInPlace(b, offset, Payload16(samples), 2 * k, samples[k]);
  }

  /** ... and in 8. */
  lemma NarrowSamplesAreRead(b: seq<Byte>, offset: nat, samples: seq<int>, k: nat)
    requires Fits(samples, -128, 127) && k < |samples| && offset + |samples| <= |b|
    requires b[offset..offset + |samples|] == Payload8(samples)
    ensures var l := Layout(8, Span(offset, |samples|));
            InBuffer(b, l) && SampleCount(l) == |samples| && Sample(b, l, k) == samples[k]
  {
    hide Payload8;
    assert b[offset + k] == b[offset..offset + |samples|][k];
  }
}
