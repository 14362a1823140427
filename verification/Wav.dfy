/**
 WAV images (WebAssembly/shims/Mss.H:980-1063 and 1106-1168): the chunk
 walker of AIL_WAV_info, the image AIL_decompress_ADPCM writes, and their
 agreement.
 */
module Wav {
  import opened Common
  import opened Numbers
  import opened Adpcm
  import opened AdpcmDecoder
  import opened AdpcmAllocation
  import opened AdpcmBlocks

  const PCM := 1
  const IMA_ADPCM := 0x11

  const RIFF: Bytes := [0x52, 0x49, 0x46, 0x46]
  const WAVE: Bytes := [0x57, 0x41, 0x56, 0x45]
  const FMT: Bytes := [0x66, 0x6d, 0x74, 0x20]
  const FACT: Bytes := [0x66, 0x61, 0x63, 0x74]
  const DATA: Bytes := [0x64, 0x61, 0x74, 0x61]

  /** AILSOUNDINFO; `data` is the offset of the data chunk's bytes. */
  datatype Info = Info(format: nat, data: nat, dataLen: nat, rate: nat, bits: nat, channels: nat, samples: nat,
                       blockSize: nat)

  // ----- Reading memory

  /** `data` is the memory from the image's start on, which may go beyond the image; after it all is zero here. */
  function At(data: Bytes, i: nat): Byte {
    if i < |data| then data[i] else 0
  }

  function U16At(data: Bytes, at: nat): (r: nat)
    ensures r < TWO_TO_16
  {
    Word(At(data, at), At(data, at + 1))
  }

  function U32At(data: Bytes, at: nat): (r: nat)
    ensures r < TWO_TO_32
  {
    Join(At(data, at + 3), At(data, at + 2), At(data, at + 1), At(data, at))
  }

  predicate Tagged(data: Bytes, at: nat, tag: Bytes)
    requires |tag| == 4
  {
    At(data, at) == tag[0] && At(data, at + 1) == tag[1] && At(data, at + 2) == tag[2] && At(data, at + 3) == tag[3]
  }

  // ----- The chunk walk

  datatype Format = Format(format: nat, channels: nat, rate: nat, blockSize: nat, bits: nat)

  /** The fields that AIL_WAV_info reads from 16 bits and that sizes depend on. */
  predicate IsRead(format: Format) {
    format.channels < TWO_TO_16 && format.blockSize < TWO_TO_16
  }

  datatype Found = Found(format: Option<Format>, fact: nat, data: Option<(nat, nat)>)

  function FormatAt(data: Bytes, at: nat): (f: Format)
    ensures IsRead(f)
  {
    Format(U16At(data, at), U16At(data, at + 2), U32At(data, at + 4), U16At(data, at + 12), U16At(data, at + 14))
  }

  /** What a chunk adds to what has been found; None if it makes the walk fail. */
  function Note(data: Bytes, offset: nat, size: nat, body: nat, found: Found): Option<Found> {
    if Tagged(data, offset, FMT) then if size < 16 then None else Some(found.(format := Some(FormatAt(data, body))))
    else if Tagged(data, offset, FACT) then Some(if size >= 4 then found.(fact := U32At(data, body)) else found)
    else if Tagged(data, offset, DATA) then Some(found.(data := Some((body, size))))
    else Some(found)
  }

  /** The chunks from `offset` on. */
  function Walk(data: Bytes, end: nat, offset: nat, found: Found): Option<Found>
    requires offset < TWO_TO_32
    decreases TWO_TO_32 - offset
  {
    if U32(offset + 8) > end then Some(found)
    else
      var size, body := U32At(data, offset + 4), U32(offset + 8);
      if U32(body + size) > end then None
      else
        var noted := Note(data, offset, size, body, found);
        var next := U32(body + size + size % 2);
        if noted.None? || next <= offset then None else Walk(data, end, next, noted.value)
  }

  /** Lines 1041-1061: the declared count, or what the data chunk holds. */
  function SampleCount(format: Format, dataLen: nat, fact: nat): nat {
    if fact != 0 then fact
    else if format.channels == 0 then 0
    else if format.format == PCM && format.bits >= 8 then PcmFrames(dataLen, format.bits / 8, format.channels)
    else if format.format == IMA_ADPCM && format.blockSize > 0
        then U32(Capacity(dataLen, 0, format.blockSize, format.channels))
    else 0
  }

  function PcmFrames(dataLen: nat, sampleBytes: nat, channels: nat): nat
    requires sampleBytes > 0 && channels > 0
  {
    ProductPositive(sampleBytes, channels);
    dataLen / (sampleBytes * channels)
  }

  lemma ProductPositive(a: nat, b: nat)
    requires a > 0 && b > 0
    ensures a * b > 0
  {
  }

  function Parse(data: Bytes): Option<Info> {
    if !Tagged(data, 0, RIFF) || !Tagged(data, 8, WAVE) || U32At(data, 4) < 4 then None
    else
      var found := Walk(data, U32(8 + U32At(data, 4)), 12, Found(None, 0, None));
      if found.None? || found.value.format.None? || found.value.data.None? then None
      else
        var Found(Some(f), fact, Some((body, size))) := found.value;
        Some(Info(f.format, body, size, f.rate, f.bits, f.channels, SampleCount(f, size, fact), f.blockSize))
  }

  method WavInfo(data: Bytes) returns (info: Option<Info>)
    ensures info == Parse(data)
  {
    hide Tagged, U16At, U32At, Walk, Capacity;
    if !Tagged(data, 0, RIFF) || !Tagged(data, 8, WAVE) {
      return None;
    }
    var riffSize := U32At(data, 4);
    if riffSize < 4 {
      return None;
    }
    var end := U32(8 + riffSize);
    var format: Option<Format>, fact: nat, body: Option<(nat, nat)> := None, 0, None;
    var offset := 12;
    while U32(offset + 8) <= end
      invariant offset < TWO_TO_32 && (format.Some? ==> IsRead(format.value))
                && (body.Some? ==> body.value.1 < TWO_TO_32)
      invariant Walk(data, end, offset, Found(format, fact, body)) == Walk(data, end, 12, Found(None, 0, None))
      decreases TWO_TO_32 - offset
    {
      WalkUnfolds(data, end, offset, Found(format, fact, body));
      var chunkSize, chunkData := U32At(data, offset + 4), U32(offset + 8);
      if U32(chunkData + chunkSize) > end {
        return None;
      }
      if Tagged(data, offset, FMT) {
        if chunkSize < 16 {
          return None;
        }
        format := Some(FormatAt(data, chunkData));
      } else if Tagged(data, offset, FACT) {
        if chunkSize >= 4 {
          fact := U32At(data, chunkData);
        }
      } else if Tagged(data, offset, DATA) {
        body := Some((chunkData, chunkSize));
      }
      var nextOffset := U32(chunkData + chunkSize + chunkSize % 2);
      if nextOffset <= offset {
        return None;
      }
      offset := nextOffset;
    }
    WalkUnfolds(data, end, offset, Found(format, fact, body));
    if format.None? || body.None? {
      return None;
    }
    var samples := CountSamples(format.value, body.value.1, fact);
    var f := format.value;
    return Some(Info(f.format, body.value.0, body.value.1, f.rate, f.bits, f.channels, samples, f.blockSize));
  }

  lemma WalkUnfolds(data: Bytes, end: nat, offset: nat, found: Found)
    requires offset < TWO_TO_32
    ensures Walk(data, end, offset, found) ==
            if U32(offset + 8) > end then Some(found)
            else
              var size, body := U32At(data, offset + 4), U32(offset + 8);
              if U32(body + size) > end then None
              else
                var noted := Note(data, offset, size, body, found);
                var next := U32(body + size + size % 2);
                if noted.None? || next <= offset then None else Walk(data, end, next, noted.value)
  {
    hide Tagged, U16At, U32At;
  }

  method CountSamples(format: Format, dataLen: nat, fact: nat) returns (samples: nat)
    requires IsRead(format) && dataLen < TWO_TO_32
    ensures samples == SampleCount(format, dataLen, fact)
  {
    samples := 0;
    if fact != 0 {
      samples := fact;
    } else if format.channels > 0 {
      if format.format == PCM && format.bits >= 8 {
        samples := PcmFrames(dataLen, format.bits / 8, format.channels);
      } else if format.format == IMA_ADPCM && format.blockSize > 0 {
        samples := CountFrames(dataLen, format.blockSize, format.channels);
      }
    }
  }

  // ----- The image that decompression writes

  function PcmBytes(frames: nat, channels: nat): nat {
    2 * Index(frames, channels, 0)
  }

  function RiffPart(pcmBytes: nat): (bytes: Bytes)
    ensures |bytes| == 20
  {
    RIFF + LittleEndian(36 + pcmBytes) + WAVE + FMT + LittleEndian(16)
  }

  function FormatPart(channels: nat, rate: nat): (bytes: Bytes)
    ensures |bytes| == 16
  {
    LittleEndian16(PCM) + LittleEndian16(channels) + LittleEndian(rate) + LittleEndian(rate * channels * 2)
    + LittleEndian16(channels * 2) + LittleEndian16(16)
  }

  function DataPart(pcmBytes: nat): (bytes: Bytes)
    ensures |bytes| == 8
  {
    DATA + LittleEndian(pcmBytes)
  }

  function Header(frames: nat, channels: nat, rate: nat): (bytes: Bytes)
    ensures |bytes| == 44
  {
    RiffPart(PcmBytes(frames, channels)) + FormatPart(channels, rate) + DataPart(PcmBytes(frames, channels))
  }

  method WriteHeader(wave: array<Byte>, frames: nat, channels: nat, rate: nat)
    requires wave.Length == 44
    modifies wave
    ensures wave[..] == Header(frames, channels, rate)
  {
    hide LittleEndian, LittleEndian16, PcmBytes;
    var pcmBytes := PcmBytes(frames, channels);
    Put(wave, 0, RIFF);
    Put(wave, 4, LittleEndian(36 + pcmBytes));
    Put(wave, 8, WAVE);
    Put(wave, 12, FMT);
    Put(wave, 16, LittleEndian(16));
    assert wave[..20] == RiffPart(pcmBytes);
    ghost var riff := wave[..20];
    WriteFormat(wave, channels, rate);
    assert wave[..20] == riff;
    ghost var format := wave[20..36];
    Put(wave, 36, DATA);
    Put(wave, 40, LittleEndian(pcmBytes));
    assert wave[..20] == riff && wave[20..36] == format && wave[36..] == DataPart(pcmBytes);
    assert wave[..] == wave[..20] + wave[20..36] + wave[36..];
  }

  method WriteFormat(wave: array<Byte>, channels: nat, rate: nat)
    requires wave.Length == 44
    modifies wave
    ensures wave[20..36] == FormatPart(channels, rate)
    ensures forall k :: 0 <= k < 44 && !(20 <= k < 36) ==> wave[k] == old(wave[k])
  {
    hide LittleEndian, LittleEndian16;
    Put(wave, 20, LittleEndian16(PCM));
    Put(wave, 22, LittleEndian16(channels));
    Put(wave, 24, LittleEndian(rate));
    Put(wave, 28, LittleEndian(rate * channels * 2));
    Put(wave, 32, LittleEndian16(channels * 2));
    Put(wave, 34, LittleEndian16(16));
  }

  /** Whether there is anything to decompress: an ADPCM stream with room for its block headers. */
  predicate Decompressible(format: nat, adpcm: Option<Bytes>, channels: int, blockSize: nat) {
    format == IMA_ADPCM && adpcm.Some? && 1 <= channels <= 8 && 4 * channels <= blockSize
  }

  /**
   AIL_decompress_ADPCM: the header and the samples of the PCM image and the
   size reported for it, or null. The samples are those of the per-channel
   decoder; `out[i]` is what was stored for sample i, at byte Lands(i). All
   stores are within the allocation exactly when the image fits 32 bits.
   */
  method Decompress(format: nat, adpcm: Option<Bytes>, channels: int, blockSize: nat, rate: nat, declared: nat)
    returns (size: nat, wave: array?<Byte>, out: array?<Option<int>>)
    requires adpcm.Some? ==> |adpcm.value| < TWO_TO_32
    requires blockSize <= TWO_TO_32 / 2
    ensures (wave == null <==> out == null) && (wave == null ==> size == 0)
    ensures wave != null <==>
              Decompressible(format, adpcm, channels, blockSize)
                  && TotalFrames(|adpcm.value|, blockSize, channels, declared) > 0
    ensures wave != null ==>
              var total := TotalFrames(|adpcm.value|, blockSize, channels, declared);
              && size == WaveBytes(total, channels)
              && fresh(wave) && wave[..] == Header(total, channels, rate)
              && fresh(out) && out.Length == Index(total, channels, 0)
              && Decoded(out[..], adpcm.value, blockSize, channels, total)
              && (blockSize <= TWO_TO_32 / 4 ==>
                    (StoresOutside(out[..], size) <==> ImageBytes(total, channels) >= TWO_TO_32))
  {
    hide Header, Decoded, Index, Capacity, U32, WaveBytes, ImageBytes, StoresOutside;
    if format != IMA_ADPCM || adpcm.None? || channels < 1 || channels > 8 || blockSize < channels * 4 {
      return 0, null, null;
    }
    var total, bytes, samples := DecodeSamples(adpcm.value, blockSize, channels, declared);
    if total == 0 {
      return 0, null, null;
    }
    var header := new Byte[44](_ => 0);
    WriteHeader(header, total, channels, rate);
    return bytes, header, samples;
  }

  // ----- Agreement

  /** A field of an image, read where the header puts it. */
  lemma ReadsField(image: Bytes, at: nat, value: nat)
    requires at + 4 <= |image| && image[at..at + 4] == LittleEndian(value)
    ensures U32At(image, at) == value % TWO_TO_32
  {
    hide Join, ByteAt;
    JoinOfBytes(value);
    var field := image[at..at + 4];
    assert forall k :: 0 <= k < 4 ==> image[at + k] == field[k];
  }

  lemma ReadsField16(image: Bytes, at: nat, value: nat)
    requires at + 2 <= |image| && image[at..at + 2] == LittleEndian16(value)
    ensures U16At(image, at) == value % TWO_TO_16
  {
    hide Word, ByteAt;
    WordOfBytes(value);
    var field := image[at..at + 2];
    assert forall k :: 0 <= k < 2 ==> image[at + k] == field[k];
  }

  /** The three stretches of an image's header. */
  lemma HeaderParts(image: Bytes, pcmBytes: nat, channels: nat, rate: nat)
    requires |image| >= 44 && image[..44] == RiffPart(pcmBytes) + FormatPart(channels, rate) + DataPart(pcmBytes)
    ensures image[..20] == RiffPart(pcmBytes) && image[20..36] == FormatPart(channels, rate)
            && image[36..44] == DataPart(pcmBytes)
  {
    hide RiffPart, FormatPart, DataPart;
    assert image[..20] == image[..44][..20] && image[20..36] == image[..44][20..36]
           && image[36..44] == image[..44][36..];
  }

  lemma ReadsRiff(image: Bytes, pcmBytes: nat)
    requires |image| >= 44 && image[..20] == RiffPart(pcmBytes)
    ensures Tagged(image, 0, RIFF) && Tagged(image, 8, WAVE) && Tagged(image, 12, FMT)
    ensures U32At(image, 4) == (36 + pcmBytes) % TWO_TO_32 && U32At(image, 16) == 16
  {
    hide LittleEndian, U32At;
    var riff := image[..20];
    assert forall k :: 0 <= k < 20 ==> image[k] == riff[k];
    assert image[4..8] == riff[4..8] == LittleEndian(36 + pcmBytes);
    assert image[16..20] == riff[16..20] == LittleEndian(16);
    ReadsField(image, 4, 36 + pcmBytes);
    ReadsField(image, 16, 16);
  }

  lemma ReadsFormat(image: Bytes, channels: nat, rate: nat)
    requires |image| >= 44 && image[20..36] == FormatPart(channels, rate)
    requires channels < TWO_TO_16 / 2 && rate < TWO_TO_32
    ensures FormatAt(image, 20) == Format(PCM, channels, rate, channels * 2, 16)
  {
    hide LittleEndian, LittleEndian16, U32At, U16At;
    var format := image[20..36];
    SliceOfSlice(image, 20, 36, 0, 2);
    SliceOfSlice(image, 20, 36, 2, 4);
    SliceOfSlice(image, 20, 36, 4, 8);
    SliceOfSlice(image, 20, 36, 12, 14);
    SliceOfSlice(image, 20, 36, 14, 16);
    assert format[0..2] == LittleEndian16(PCM) && format[2..4] == LittleEndian16(channels);
    assert format[4..8] == LittleEndian(rate);
    assert format[12..14] == LittleEndian16(channels * 2) && format[14..16] == LittleEndian16(16);
    ReadsField16(image, 20, PCM);
    ReadsField16(image, 22, channels);
    ReadsField(image, 24, rate);
    ReadsField16(image, 32, channels * 2);
    ReadsField16(image, 34, 16);
  }

  lemma ReadsData(image: Bytes, pcmBytes: nat)
    requires |image| >= 44 && image[36..44] == DataPart(pcmBytes)
    ensures Tagged(image, 36, DATA) && U32At(image, 40) == pcmBytes % TWO_TO_32
  {
    hide LittleEndian, U32At;
    var part := image[36..44];
    assert forall k :: 0 <= k < 8 ==> image[36 + k] == part[k];
    SliceOfSlice(image, 36, 44, 4, 8);
    ReadsField(image, 40, pcmBytes);
  }

  /** What the walk has found when it reaches the end of an image. */
  function FoundInImage(frames: nat, channels: nat, rate: nat): Found {
    Found(Some(Format(PCM, channels, rate, channels * 2, 16)), 0, Some((44, PcmBytes(frames, channels))))
  }

  lemma WalkOfImage(image: Bytes, frames: nat, channels: nat, rate: nat)
    requires 0 < channels <= 8 && rate < TWO_TO_32 && 44 + PcmBytes(frames, channels) < TWO_TO_32
    requires |image| >= 44 && image[..44] == Header(frames, channels, rate)
    ensures Tagged(image, 0, RIFF) && Tagged(image, 8, WAVE) && U32At(image, 4) == 36 + PcmBytes(frames, channels)
    ensures var end := 44 + PcmBytes(frames, channels);
            Walk(image, end, 12, Found(None, 0, None)) == Walk(image, end, end, FoundInImage(frames, channels, rate))
  {
    hide RiffPart, FormatPart, DataPart, Tagged, U32At, FormatAt, PcmBytes, Walk, PcmFrames;
    var pcmBytes := PcmBytes(frames, channels);
    HeaderParts(image, pcmBytes, channels, rate);
    ReadsRiff(image, pcmBytes);
    ReadsFormat(image, channels, rate);
    ReadsData(image, pcmBytes);
    var end := 44 + pcmBytes;
    TagsDiffer(image, 36);
    var none, first := Found(None, 0, None), Found(Some(Format(PCM, channels, rate, channels * 2, 16)), 0, None);
    PcmIsEven(frames, channels);
    WalkUnfolds(image, end, 12, none);
    WalkUnfolds(image, end, 36, first);
  }

  /**
   Parsing the decompressed image gives back what was decompressed: PCM of
   16 bits, the rate and channels, the samples from byte 44 on, and as many
   of them as were decoded, whatever the sample bytes and what follows them are.
   In the last eight bytes below 2^32 the walk's own guard wraps: an image
   that ends there, with zeros behind it, is refused.
   */
  lemma ParsesTheDecompressed(image: Bytes, frames: nat, channels: nat, rate: nat)
    requires 0 < channels <= 8 && rate < TWO_TO_32 && ImageBytes(frames, channels) < TWO_TO_32
    requires |image| >= 44 && image[..44] == Header(frames, channels, rate)
    ensures ImageBytes(frames, channels) + 8 < TWO_TO_32 ==>
              Parse(image) == Some(Info(PCM, 44, PcmBytes(frames, channels), rate, 16, channels, frames, channels * 2))
    ensures ImageBytes(frames, channels) + 8 >= TWO_TO_32 && |image| <= ImageBytes(frames, channels) ==>
              Parse(image) == None
  {
    hide Header, Tagged, U32At, FormatAt, PcmBytes, Walk, PcmFrames;
    ImageIsHeaderAndPcm(frames, channels);
    WalkOfImage(image, frames, channels, rate);
    var end, found := 44 + PcmBytes(frames, channels), FoundInImage(frames, channels, rate);
    if end + 8 < TWO_TO_32 {
      WalkUnfolds(image, end, end, found);
      FramesOfBytes(frames, channels);
    } else if |image| <= end {
      WalkWraps(image, end, found);
    }
  }

  lemma ImageIsHeaderAndPcm(frames: nat, channels: nat)
    ensures ImageBytes(frames, channels) == 44 + PcmBytes(frames, channels)
  {
  }

  /** At the very end of the 32-bit range the walk goes on into the zeros and comes back below where it was. */
  lemma WalkWraps(image: Bytes, end: nat, found: Found)
    requires |image| <= end < TWO_TO_32 <= end + 8
    ensures Walk(image, end, end, found) == None
  {
    hide Walk, Tagged, U32At, FormatAt, U32;
    WalkUnfolds(image, end, end, found);
    NoTagBeyond(image, end, FMT);
    NoTagBeyond(image, end, FACT);
    NoTagBeyond(image, end, DATA);
    ZeroBeyond(image, end + 4);
    U32Wraps(end + 8);
  }

  lemma U32Wraps(value: nat)
    requires TWO_TO_32 <= value < TWO_TO_32 + 8
    ensures U32(value) == value - TWO_TO_32 && U32(U32(value)) == U32(value)
  {
  }

  lemma ZeroBeyond(image: Bytes, at: nat)
    requires at >= |image|
    ensures U32At(image, at) == 0
  {
    assert Join(0, 0, 0, 0) == 0;
  }

  lemma NoTagBeyond(image: Bytes, at: nat, tag: Bytes)
    requires at >= |image| && |tag| == 4 && tag[0] != 0
    ensures !Tagged(image, at, tag)
  {
  }

  lemma PcmIsEven(frames: nat, channels: nat)
    ensures PcmBytes(frames, channels) % 2 == 0
  {
  }

  lemma TagsDiffer(data: Bytes, at: nat)
    requires Tagged(data, at, DATA)
    ensures !Tagged(data, at, FMT) && !Tagged(data, at, FACT)
  {
  }

  lemma FramesOfBytes(frames: nat, channels: nat)
    requires channels > 0
    ensures PcmFrames(PcmBytes(frames, channels), 2, channels) == frames
  {
    Modulo(2 * frames, channels, 0);
    var sum := PcmBytes(frames, channels);
    assert sum == frames * (2 * channels);
    EveryPlace(sum, 2 * channels);
    Modulo(frames, 2 * channels, 0);
    IndexDistinct(sum / (2 * channels), 0, frames, 0, 2 * channels);
  }
}
