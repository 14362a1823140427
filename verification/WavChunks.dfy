/**
 What AIL_WAV_info makes of any file put together from chunks
 (WebAssembly/shims/Mss.H:982-1063).
 */
module WavChunks {
  import opened Common
  import opened Numbers
  import opened Adpcm
  import opened AdpcmDecoder
  import opened AdpcmAllocation
  import opened AdpcmEncoder
  import opened Wav

  datatype Chunk = Chunk(tag: Bytes, body: Bytes)

  ghost predicate AreTagged(chunks: seq<Chunk>) {
    forall i :: 0 <= i < |chunks| ==> |chunks[i].tag| == 4
  }

  /** The tag, the size, the body, and a byte more if the size is odd. */
  function ChunkBytes(c: Chunk): (bytes: Bytes)
    ensures |bytes| == |c.tag| + 4 + |c.body| + |c.body| % 2
  {
    c.tag + LittleEndian(|c.body|) + c.body + (if |c.body| % 2 == 1 then [0] else [])
  }

  function ChunksBytes(chunks: seq<Chunk>): Bytes {
    if chunks == [] then [] else ChunksBytes(chunks[..|chunks| - 1]) + ChunkBytes(chunks[|chunks| - 1])
  }

  function WaveFile(chunks: seq<Chunk>): Bytes {
    RIFF + LittleEndian(4 + |ChunksBytes(chunks)|) + WAVE + ChunksBytes(chunks)
  }

  // ----- What should be found

  predicate Is(c: Chunk, tag: Bytes, least: nat) {
    c.tag == tag && |c.body| >= least
  }

  /** The last chunk with this tag and at least so many bytes. */
  function LastChunk(chunks: seq<Chunk>, tag: Bytes, least: nat): (last: Option<nat>)
    ensures last.Some? ==> last.value < |chunks| && Is(chunks[last.value], tag, least)
    ensures forall i :: (if last.Some? then last.value + 1 else 0) <= i < |chunks| ==> !Is(chunks[i], tag, least)
  {
    if chunks == [] then None
    else if Is(chunks[|chunks| - 1], tag, least) then Some(|chunks| - 1)
    else LastChunk(chunks[..|chunks| - 1], tag, least)
  }

  /** The number that bytes stand for, the least significant first. */
  function LowFirst(bytes: Bytes): nat {
    if bytes == [] then 0 else bytes[0] + 256 * LowFirst(bytes[1..])
  }

  /** The fields of a format chunk. */
  function FormatOf(body: Bytes): Format
    requires |body| >= 16
  {
    Format(LowFirst(body[..2]), LowFirst(body[2..4]), LowFirst(body[4..8]), LowFirst(body[12..14]),
           LowFirst(body[14..16]))
  }

  function CountOf(body: Bytes): nat
    requires |body| >= 4
  {
    LowFirst(body[..4])
  }

  /** Where the body of a chunk stands in the file. */
  function BodyAt(chunks: seq<Chunk>, i: nat): nat
    requires i < |chunks|
  {
    20 + |ChunksBytes(chunks[..i])|
  }

  /** The last format, the last sample count, and where the last data chunk's bytes are. */
  function Contents(chunks: seq<Chunk>): Found {
    var format, fact, data := LastChunk(chunks, FMT, 16), LastChunk(chunks, FACT, 4), LastChunk(chunks, DATA, 0);
    Found(if format.Some? then Some(FormatOf(chunks[format.value].body)) else None,
          if fact.Some? then CountOf(chunks[fact.value].body) else 0,
          if data.Some? then Some((BodyAt(chunks, data.value), |chunks[data.value].body|)) else None)
  }

  /** A format chunk too short for its fields. */
  predicate HasBadFormat(chunks: seq<Chunk>) {
    exists i :: 0 <= i < |chunks| && IsBadFormat(chunks[i])
  }

  predicate IsBadFormat(c: Chunk) {
    c.tag == FMT && |c.body| < 16
  }

  /** The file as a whole. */
  function InfoOf(chunks: seq<Chunk>): Option<Info> {
    var Found(format, fact, data) := Contents(chunks);
    if HasBadFormat(chunks) || format.None? || data.None? then None
    else
      var f := format.value;
      Some(Info(f.format, data.value.0, data.value.1, f.rate, f.bits, f.channels,
                SampleCount(f, data.value.1, fact), f.blockSize))
  }

  // ----- Reading one chunk

  lemma ChunkStands(data: Bytes, before: Bytes, c: Chunk, after: Bytes)
    requires data == before + ChunkBytes(c) + after && |c.tag| == 4 && |c.body| < TWO_TO_32
    ensures var at := |before|;
            && at + 8 + |c.body| <= |data| && U32At(data, at + 4) == |c.body|
            && data[at + 8..at + 8 + |c.body|] == c.body
            && forall tag :: |tag| == 4 ==> (Tagged(data, at, tag) <==> c.tag == tag)
  {
    hide LittleEndian, U32At;
    var at, bytes := |before|, ChunkBytes(c);
    assert data[at..at + |bytes|] == bytes;
    assert data[at + 4..at + 8] == LittleEndian(|c.body|);
    ReadsField(data, at + 4, |c.body|);
    forall tag: Bytes | |tag| == 4 ensures Tagged(data, at, tag) <==> c.tag == tag {
      TagStands(data, at, c.tag, tag);
    }
  }

  lemma TagStands(data: Bytes, at: nat, stands: Bytes, tag: Bytes)
    requires |stands| == |tag| == 4 && at + 4 <= |data| && data[at..at + 4] == stands
    ensures Tagged(data, at, tag) <==> stands == tag
  {
    assert forall k :: 0 <= k < 4 ==> data[at + k] == stands[k];
    assert stands == [stands[0], stands[1], stands[2], stands[3]] && tag == [tag[0], tag[1], tag[2], tag[3]];
  }

  lemma LowFirstOfTwo(b0: Byte, b1: Byte)
    ensures LowFirst([b0, b1]) == Word(b0, b1)
  {
    assert [b0, b1][1..] == [b1] && [b1][1..] == [];
    assert LowFirst([b1]) == b1;
  }

  lemma LowFirstOfFour(b0: Byte, b1: Byte, b2: Byte, b3: Byte)
    ensures LowFirst([b0, b1, b2, b3]) == Join(b3, b2, b1, b0)
  {
    LowFirstOfTwo(b2, b3);
    assert [b0, b1, b2, b3][1..] == [b1, b2, b3] && [b1, b2, b3][1..] == [b2, b3];
    assert LowFirst([b1, b2, b3]) == b1 + 256 * LowFirst([b2, b3]);
  }

  lemma NumbersStand(data: Bytes, at: nat)
    ensures at + 2 <= |data| ==> U16At(data, at) == LowFirst(data[at..at + 2])
    ensures at + 4 <= |data| ==> U32At(data, at) == LowFirst(data[at..at + 4])
  {
    hide LowFirst, Word, Join;
    if at + 2 <= |data| {
      assert data[at..at + 2] == [data[at], data[at + 1]];
      LowFirstOfTwo(data[at], data[at + 1]);
    }
    if at + 4 <= |data| {
      assert data[at..at + 4] == [data[at], data[at + 1], data[at + 2], data[at + 3]];
      LowFirstOfFour(data[at], data[at + 1], data[at + 2], data[at + 3]);
    }
  }

  lemma FieldsStand(data: Bytes, at: nat, body: Bytes)
    requires at + |body| <= |data| && data[at..at + |body|] == body
    ensures |body| >= 16 ==> FormatAt(data, at) == FormatOf(body)
    ensures |body| >= 4 ==> U32At(data, at) == CountOf(body)
  {
    hide LowFirst, U16At, U32At;
    var end := at + |body|;
    if |body| >= 4 {
      NumbersStand(data, at);
      SliceOfSlice(data, at, end, 0, 4);
    }
    if |body| >= 16 {
      NumbersStand(data, at + 2);
      NumbersStand(data, at + 4);
      NumbersStand(data, at + 12);
      NumbersStand(data, at + 14);
      SliceOfSlice(data, at, end, 0, 2);
      SliceOfSlice(data, at, end, 2, 4);
      SliceOfSlice(data, at, end, 4, 8);
      SliceOfSlice(data, at, end, 12, 14);
      SliceOfSlice(data, at, end, 14, 16);
    }
  }

  lemma LastOfMore(init: seq<Chunk>, c: Chunk, tag: Bytes, least: nat)
    ensures LastChunk(init + [c], tag, least) ==
            if Is(c, tag, least) then Some(|init|) else LastChunk(init, tag, least)
  {
    assert (init + [c])[..|init|] == init;
  }

  lemma BodyOfMore(init: seq<Chunk>, c: Chunk, i: nat)
    requires i <= |init|
    ensures BodyAt(init + [c], i) == if i < |init| then BodyAt(init, i) else 20 + |ChunksBytes(init)|
  {
    assert (init + [c])[..i] == init[..i];
    assert init[..|init|] == init;
  }

  /** What noting one more chunk makes of the contents so far. */
  lemma NotesChunk(data: Bytes, before: Bytes, init: seq<Chunk>, c: Chunk, after: Bytes)
    requires data == before + ChunkBytes(c) + after && |c.tag| == 4 && |c.body| < TWO_TO_32
    requires |before| == 12 + |ChunksBytes(init)|
    ensures Note(data, |before|, |c.body|, |before| + 8, Contents(init)) ==
            if IsBadFormat(c) then None else Some(Contents(init + [c]))
  {
    hide Tagged, FormatAt, U32At, FormatOf, CountOf, LastChunk, ChunksBytes, ChunkBytes;
    ChunkStands(data, before, c, after);
    FieldsStand(data, |before| + 8, c.body);
    LastOfMore(init, c, FMT, 16);
    LastOfMore(init, c, FACT, 4);
    LastOfMore(init, c, DATA, 0);
    BodyOfMore(init, c, |init|);
    if LastChunk(init, DATA, 0).Some? {
      BodyOfMore(init, c, LastChunk(init, DATA, 0).value);
    }
  }

  // ----- Walking over all of them

  lemma {:induction false} ChunksSplit(chunks: seq<Chunk>, k: nat) returns (after: Bytes)
    requires k < |chunks|
    ensures ChunksBytes(chunks) == ChunksBytes(chunks[..k]) + ChunkBytes(chunks[k]) + after
    ensures ChunksBytes(chunks[..k + 1]) == ChunksBytes(chunks[..k]) + ChunkBytes(chunks[k])
  {
    hide ChunkBytes;
    var n := |chunks| - 1;
    assert chunks[..k + 1][..k] == chunks[..k];
    if k == n {
      after := [];
      assert chunks[..k + 1] == chunks;
    } else {
      var less := ChunksSplit(chunks[..n], k);
      assert chunks[..n][..k] == chunks[..k] && chunks[..n][..k + 1] == chunks[..k + 1];
      after := less + ChunkBytes(chunks[n]);
    }
  }

  /** The file, and whatever follows it in memory. */
  ghost predicate IsFile(data: Bytes, chunks: seq<Chunk>) {
    && AreTagged(chunks) && WaveFile(chunks) <= data
    && |WaveFile(chunks)| + 8 < TWO_TO_32
  }

  lemma WalksOn(data: Bytes, chunks: seq<Chunk>, k: nat)
    requires IsFile(data, chunks) && k < |chunks|
    ensures |ChunksBytes(chunks[..k])| < |ChunksBytes(chunks[..k + 1])| <= |ChunksBytes(chunks)| < TWO_TO_32 - 20
    ensures var end, at := 12 + |ChunksBytes(chunks)|, 12 + |ChunksBytes(chunks[..k])|;
            Walk(data, end, at, Contents(chunks[..k])) ==
            if IsBadFormat(chunks[k]) then None
            else Walk(data, end, 12 + |ChunksBytes(chunks[..k + 1])|, Contents(chunks[..k + 1]))
  {
    hide ChunkBytes, ChunksBytes, Contents, Walk, Note, U32At, IsBadFormat, LittleEndian;
    var after := ChunksSplit(chunks, k);
    var c, at := chunks[k], 12 + |ChunksBytes(chunks[..k])|;
    var header := RIFF + LittleEndian(4 + |ChunksBytes(chunks)|) + WAVE;
    var before := header + ChunksBytes(chunks[..k]);
    var rest := after + data[|WaveFile(chunks)|..];
    assert data == WaveFile(chunks) + data[|WaveFile(chunks)|..];
    assert data == before + ChunkBytes(c) + rest;
    LengthOfChunk(c);
    ChunkStands(data, before, c, rest);
    NotesChunk(data, before, chunks[..k], c, rest);
    assert chunks[..k] + [c] == chunks[..k + 1];
    WalkUnfolds(data, 12 + |ChunksBytes(chunks)|, at, Contents(chunks[..k]));
  }

  lemma LengthOfChunk(c: Chunk)
    requires |c.tag| == 4
    ensures |ChunkBytes(c)| == 8 + |c.body| + |c.body| % 2
  {
  }

  lemma {:induction false} WalkFinds(data: Bytes, chunks: seq<Chunk>, k: nat)
    requires IsFile(data, chunks) && k <= |chunks|
    ensures 12 + |ChunksBytes(chunks[..k])| <= 12 + |ChunksBytes(chunks)| < TWO_TO_32 - 8
    ensures Walk(data, 12 + |ChunksBytes(chunks)|, 12 + |ChunksBytes(chunks[..k])|, Contents(chunks[..k])) ==
            if HasBadFormat(chunks[k..]) then None else Some(Contents(chunks))
    decreases |chunks| - k
  {
    hide ChunkBytes, ChunksBytes, Contents, Walk, IsBadFormat;
    if k == |chunks| {
      assert chunks[..k] == chunks;
      WalkUnfolds(data, 12 + |ChunksBytes(chunks)|, 12 + |ChunksBytes(chunks)|, Contents(chunks));
    } else {
      WalksOn(data, chunks, k);
      WalkFinds(data, chunks, k + 1);
      BadFromHere(chunks, k);
    }
  }

  lemma BadFromHere(chunks: seq<Chunk>, k: nat)
    requires k < |chunks|
    ensures HasBadFormat(chunks[k..]) <==> IsBadFormat(chunks[k]) || HasBadFormat(chunks[k + 1..])
  {
    hide IsBadFormat;
    var rest, more := chunks[k..], chunks[k + 1..];
    if i :| 0 <= i < |more| && IsBadFormat(more[i]) {
      assert rest[i + 1] == more[i];
    }
    if i :| 0 <= i < |rest| && IsBadFormat(rest[i]) {
      assert i > 0 ==> more[i - 1] == rest[i];
      assert i == 0 ==> rest[i] == chunks[k];
    }
    if IsBadFormat(chunks[k]) {
      assert rest[0] == chunks[k];
    }
  }

  lemma NothingFound()
    ensures ChunksBytes([]) == [] && Contents([]) == Found(None, 0, None)
  {
  }

  /**
   A file of any chunks in any order is read as its last format chunk, its last
   sample count and its last data chunk say; without a format or data, or with
   a format chunk too short, it is refused. What follows the file does not matter.
   */
  lemma ParsesItsChunks(data: Bytes, chunks: seq<Chunk>)
    requires IsFile(data, chunks)
    ensures Parse(data) == InfoOf(chunks)
  {
    hide ChunksBytes, Contents, Walk, HasBadFormat, U32At, Tagged, LittleEndian, SampleCount;
    NothingFound();
    WalkFinds(data, chunks, 0);
    assert chunks[..0] == [] && chunks[0..] == chunks;
    HeaderStands(data, chunks);
    ContentsAreRead(chunks);
  }

  lemma ContentsAreRead(chunks: seq<Chunk>)
    ensures Contents(chunks).format.Some? ==> IsRead(Contents(chunks).format.value)
  {
    hide LastChunk, ChunksBytes;
    if Contents(chunks).format.Some? {
      var body := chunks[LastChunk(chunks, FMT, 16).value].body;
      FieldsStand(body, 0, body);
    }
  }

  lemma HeaderStands(data: Bytes, chunks: seq<Chunk>)
    requires IsFile(data, chunks)
    ensures Tagged(data, 0, RIFF) && Tagged(data, 8, WAVE) && U32At(data, 4) == 4 + |ChunksBytes(chunks)|
  {
    hide LittleEndian, U32At, ChunksBytes;
    var file := WaveFile(chunks);
    assert file[..4] == RIFF && file[4..8] == LittleEndian(4 + |ChunksBytes(chunks)|) && file[8..12] == WAVE;
    assert data[..4] == file[..4] && data[4..8] == file[4..8] && data[8..12] == file[8..12];
    ReadsField(data, 4, 4 + |ChunksBytes(chunks)|);
    TagStands(data, 0, RIFF, RIFF);
    TagStands(data, 8, WAVE, WAVE);
  }

  // ----- The number of samples

  /** PCM of so many frames is counted as such, whatever the size of its samples. */
  lemma PcmIsCounted(f: Format, frames: nat, sampleBytes: nat)
    requires f.format == PCM && f.bits == 8 * sampleBytes && sampleBytes > 0 && f.channels > 0
    ensures SampleCount(f, frames * (sampleBytes * f.channels), 0) == frames
  {
    ProductPositive(sampleBytes, f.channels);
    Whole(frames, sampleBytes * f.channels);
  }

  lemma Whole(quotient: nat, divisor: nat)
    requires divisor > 0
    ensures quotient * divisor / divisor == quotient
  {
    EveryPlace(quotient * divisor, divisor);
    IndexDistinct(quotient, 0, quotient * divisor / divisor, quotient * divisor % divisor, divisor);
  }

  /** A count in the file goes before any other; without one, ADPCM counts as many frames as decompression yields. */
  lemma AdpcmIsCounted(f: Format, dataLen: nat, fact: nat)
    requires f.format == IMA_ADPCM && f.channels > 0 && f.blockSize > 0
    ensures SampleCount(f, dataLen, fact) ==
            if fact > 0 then fact else TotalFrames(dataLen, f.blockSize, f.channels, 0)
  {
  }

  // ----- The file that decompression writes

  /** A decompressed image is a file of two chunks, its format and its samples. */
  lemma ImageIsAWaveFile(frames: nat, channels: nat, rate: nat, pcm: Bytes)
    requires |pcm| == PcmBytes(frames, channels)
    ensures Header(frames, channels, rate) + pcm ==
            WaveFile([Chunk(FMT, FormatPart(channels, rate)), Chunk(DATA, pcm)])
  {
    hide LittleEndian, FormatPart, PcmBytes;
    PcmIsEven(frames, channels);
    var format, samples := Chunk(FMT, FormatPart(channels, rate)), Chunk(DATA, pcm);
    var chunks := [format, samples];
    assert chunks[..1] == [format] && [format][..0] == [];
    assert ChunksBytes([]) == [] && ChunksBytes([format]) == ChunkBytes(format);
    assert ChunksBytes(chunks) == ChunkBytes(format) + ChunkBytes(samples);
    assert |ChunksBytes(chunks)| == 32 + |pcm|;
    assert ChunkBytes(format) == FMT + LittleEndian(16) + FormatPart(channels, rate);
    assert ChunkBytes(samples) == DATA + LittleEndian(|pcm|) + pcm;
  }

  /** 16-bit PCM: format 1, the channels, the rate, bytes per second and per frame, and bits per sample. */
  lemma FormatFields(channels: nat, rate: nat)
    requires channels < TWO_TO_16 / 2 && rate < TWO_TO_32
    ensures var body := FormatPart(channels, rate);
            && |body| == 16
            && LowFirst(body[..2]) == 1 && LowFirst(body[2..4]) == channels && LowFirst(body[4..8]) == rate
            && LowFirst(body[8..12]) == rate * channels * 2 % 0x1_0000_0000
            && LowFirst(body[12..14]) == 2 * channels && LowFirst(body[14..]) == 16
  {
    hide LittleEndian, LittleEndian16, LowFirst;
    var body := FormatPart(channels, rate);
    assert body[..2] == LittleEndian16(1) && body[2..4] == LittleEndian16(channels);
    assert body[4..8] == LittleEndian(rate) && body[8..12] == LittleEndian(rate * channels * 2);
    assert body[12..14] == LittleEndian16(channels * 2) && body[14..] == LittleEndian16(16);
    WordIsRead(1);
    WordIsRead(channels);
    WordIsRead(channels * 2);
    WordIsRead(16);
    NumberIsRead(rate);
    NumberIsRead(rate * channels * 2);
  }

  lemma WordIsRead(value: nat)
    ensures LowFirst(LittleEndian16(value)) == value % TWO_TO_16
  {
    hide LowFirst, ByteAt, Word;
    LowFirstOfTwo(ByteAt(value, 0), ByteAt(value, 1));
    WordOfBytes(value);
  }

  lemma NumberIsRead(value: nat)
    ensures LowFirst(LittleEndian(value)) == value % TWO_TO_32
  {
    hide LowFirst, ByteAt, Join;
    LowFirstOfFour(ByteAt(value, 0), ByteAt(value, 1), ByteAt(value, 2), ByteAt(value, 3));
    JoinOfBytes(value);
  }

  // ----- Encoded streams

  lemma {:induction false} LengthOfStream(blocks: seq<seq<Passage>>, channels: nat, rounds: nat)
    requires IsStream(blocks, channels, rounds)
    ensures |EncodedStream(blocks, channels, rounds)| == |blocks| * BlockLength(channels, rounds)
  {
    hide EncodedBlock, BlockLength, IsBlock;
    if blocks != [] {
      LengthOfStream(blocks[1..], channels, rounds);
      ProductOfSum(|blocks| - 1, 1, BlockLength(channels, rounds));
    }
  }

  /**
   A stream of encoded blocks of one to eight channels is decompressed, and to as
   many frames as were encoded, modulo 2^32; one of more channels is refused.
   */
  lemma EncodedIsDecompressed(blocks: seq<seq<Passage>>, channels: nat, rounds: nat)
    requires IsStream(blocks, channels, rounds) && channels > 0
    ensures var data, blockSize := EncodedStream(blocks, channels, rounds), BlockLength(channels, rounds);
            && (Decompressible(0x11, Some(data), channels, blockSize) <==> channels <= 8)
            && 0 < 4 * channels <= blockSize
            && TotalFrames(|data|, blockSize, channels, 0) == |blocks| * (8 * rounds + 1) % 0x1_0000_0000
  {
    hide EncodedStream, IsStream, Capacity, FramesPerBlock;
    NextIndex(rounds, channels, 0);
    hide BlockLength;
    LengthOfStream(blocks, channels, rounds);
    CapacityOfWholeBlocks(|blocks|, 0, |EncodedStream(blocks, channels, rounds)|, BlockLength(channels, rounds),
                          channels);
    FramesOfBlock(channels, rounds);
  }
}
