/**
 The allocation of AIL_decompress_ADPCM (WebAssembly/shims/Mss.H:1144-1150)
 and the stores of its second pass, which take no notice of it.
 */
module AdpcmAllocation {
  import opened Common
  import opened Numbers
  import opened Adpcm
  import opened AdpcmDecoder
  import opened AdpcmBlocks

  function TotalFrames(length: nat, blockSize: nat, channels: nat, declared: nat): nat
    requires blockSize > 0
  {
    var capacity := U32(Capacity(length, 0, blockSize, channels));
    if declared != 0 && declared < capacity then declared else capacity
  }

  /** The bytes that are asked of malloc for a decompressed image. */
  function WaveBytes(frames: nat, channels: nat): nat {
    U32(44 + U32(2 * Index(frames, channels, 0)))
  }

  /** What a whole image of so many frames takes. */
  function ImageBytes(frames: nat, channels: nat): nat {
    44 + 2 * Index(frames, channels, 0)
  }

  /** The allocation holds the image exactly when its size is below 2^32. */
  lemma AllocationHolds(frames: nat, channels: nat)
    ensures ImageBytes(frames, channels) <= WaveBytes(frames, channels) <==> ImageBytes(frames, channels) < TWO_TO_32
    ensures ImageBytes(frames, channels) < TWO_TO_32 ==> WaveBytes(frames, channels) == ImageBytes(frames, channels)
  {
    hide Index;
    U32OfSum(2 * Index(frames, channels, 0), 44);
  }

  // ----- How large the output gets

  lemma FramesTimesChannels(blockBytes: nat, channels: nat)
    requires 0 < channels * 4 <= blockBytes
    ensures FramesPerBlock(blockBytes, channels) * channels <= 2 * blockBytes
  {
    var doubled := (blockBytes - channels * 4) * 2;
    EveryPlace(doubled, channels);
    assert (doubled / channels + 1) * channels == doubled / channels * channels + channels;
  }

  /** Samples are at most twice as many as bytes. */
  lemma {:induction false} CapacityTimesChannels(length: nat, pos: nat, blockSize: nat, channels: nat)
    requires 0 < 4 * channels <= blockSize
    ensures Capacity(length, pos, blockSize, channels) * channels <= if pos <= length then 2 * (length - pos) else 0
    decreases if pos <= length then length - pos + 1 else 0
  {
    hide FramesPerBlock;
    if pos + channels * 4 <= length {
      var avail := Min(length - pos, blockSize);
      CapacityTimesChannels(length, pos + blockSize, blockSize, channels);
      CapacityUnfolds(length, pos, blockSize, channels);
      FramesTimesChannels(avail, channels);
      ProductOfSum(FramesPerBlock(avail, channels), Capacity(length, pos + blockSize, blockSize, channels), channels);
    } else {
      NoMoreFrames(length, pos, blockSize, channels);
    }
  }

  lemma ProductOfSum(a: nat, b: nat, c: nat)
    ensures (a + b) * c == a * c + b * c
  {
  }

  /** A stream of at most 2^30 - 12 bytes is decompressed within its allocation, whatever the header declares. */
  lemma ShortStreamsFit(length: nat, blockSize: nat, channels: nat, declared: nat)
    requires 0 < 4 * channels <= blockSize && length <= 0x4000_0000 - 12
    ensures ImageBytes(TotalFrames(length, blockSize, channels, declared), channels) < TWO_TO_32
  {
    hide Capacity;
    CapacityTimesChannels(length, 0, blockSize, channels);
    ProductGrows(TotalFrames(length, blockSize, channels, declared), Capacity(length, 0, blockSize, channels),
                 channels);
  }

  lemma {:induction false} CapacityOfWholeBlocks(count: nat, pos: nat, length: nat, blockSize: nat, channels: nat)
    requires 0 < 4 * channels <= blockSize && length == pos + count * blockSize
    ensures Capacity(length, pos, blockSize, channels) == count * FramesPerBlock(blockSize, channels)
    decreases count
  {
    hide FramesPerBlock;
    if count > 0 {
      ProductOfSum(count - 1, 1, blockSize);
      ProductOfSum(count - 1, 1, FramesPerBlock(blockSize, channels));
      CapacityUnfolds(length, pos, blockSize, channels);
      CapacityOfWholeBlocks(count - 1, pos + blockSize, length, blockSize, channels);
    } else {
      NoMoreFrames(length, pos, blockSize, channels);
    }
  }

  // ----- Where the samples are stored

  /** The byte, counted from the start of the allocation, at which sample i is stored: the index is a 32-bit number. */
  function Lands(i: nat): nat {
    44 + 2 * U32(i)
  }

  /** `out` records the stores of the second pass; one of them is not within the first `size` bytes. */
  ghost predicate StoresOutside(out: seq<Option<int>>, size: nat) {
    exists i :: 0 <= i < |out| && out[i].Some? && Lands(i) + 2 > size
  }

  lemma FirstSampleIsStored(data: Bytes, pos: nat, blockSize: nat, channels: nat)
    requires 0 < 4 * channels <= blockSize && pos + channels * 4 <= |data|
    ensures Sample(data, pos, blockSize, channels, 0, 0).Some?
  {
    hide FramesPerBlock, Start;
    HasAFrame(Min(|data| - pos, blockSize), channels);
  }

  /**
   Whatever the limit, some block starts below it and no further away than the
   block is long; the header of a block is stored as its first sample.
   */
  lemma {:induction false} BlockStartsNear(data: Bytes, pos: nat, blockSize: nat, channels: nat, total: nat, limit: nat)
    returns (frame: nat)
    requires 0 < 4 * channels <= blockSize && total <= Capacity(|data|, pos, blockSize, channels)
    requires 0 < limit <= total * channels
    ensures frame < total && frame * channels < limit <= frame * channels + 2 * blockSize
    ensures Sample(data, pos, blockSize, channels, frame, 0).Some?
    decreases if pos <= |data| then |data| - pos + 1 else 0
  {
    hide FramesPerBlock, DecodeChannel;
    BlockIsLeft(|data|, pos, blockSize, channels, total, limit);
    var frames := FramesPerBlock(Min(|data| - pos, blockSize), channels);
    FramesTimesChannels(Min(|data| - pos, blockSize), channels);
    CapacityUnfolds(|data|, pos, blockSize, channels);
    if limit <= frames * channels {
      frame := 0;
      FirstSampleIsStored(data, pos, blockSize, channels);
      ZeroTimes(channels);
    } else {
      MoreFramesAreLeft(frames, total, channels, limit);
      var next := BlockStartsNear(data, pos + blockSize, blockSize, channels, total - frames,
                                  limit - frames * channels);
      frame := frames + next;
      ProductOfSum(frames, next, channels);
    }
  }

  lemma BlockIsLeft(length: nat, pos: nat, blockSize: nat, channels: nat, total: nat, limit: nat)
    requires blockSize > 0 && total <= Capacity(length, pos, blockSize, channels) && 0 < limit <= total * channels
    ensures pos + channels * 4 <= length
  {
    hide FramesPerBlock;
    assert total > 0;
  }

  lemma ZeroTimes(channels: nat)
    ensures 0 * channels == 0
  {
  }

  lemma MoreFramesAreLeft(frames: nat, total: nat, channels: nat, limit: nat)
    requires frames * channels < limit <= total * channels
    ensures frames < total && (total - frames) * channels == total * channels - frames * channels
  {
    if frames >= total {
      ProductGrows(total, frames, channels);
    } else {
      ProductOfSum(frames, total - frames, channels);
    }
  }

  /** In an allocation whose size has wrapped, a byte near the end of the image, or of the index range, is outside. */
  lemma NearTheEndIsOutside(frames: nat, channels: nat, i: nat, blockSize: nat)
    requires ImageBytes(frames, channels) >= TWO_TO_32 && blockSize <= TWO_TO_32 / 4
    requires i < Min(Index(frames, channels, 0), TWO_TO_32) <= i + 2 * blockSize
    ensures Lands(i) >= WaveBytes(frames, channels)
  {
    hide Index;
    U32OfSum(2 * Index(frames, channels, 0), 44);
    WrappedIsSmaller(ImageBytes(frames, channels));
  }

  lemma WrappedIsSmaller(value: nat)
    requires value >= TWO_TO_32
    ensures U32(value) <= value - TWO_TO_32
  {
  }

  /**
   The second pass stores a sample outside its allocation exactly when the
   image does not fit 32 bits. A block is at most 2^30 bytes here.
   */
  lemma StoresOutsideExactly(data: Bytes, out: seq<Option<int>>, blockSize: nat, channels: nat, total: nat)
    requires 0 < 4 * channels <= blockSize <= TWO_TO_32 / 4 && total <= Capacity(|data|, 0, blockSize, channels)
    requires |out| == Index(total, channels, 0) && Decoded(out, data, blockSize, channels, total)
    ensures StoresOutside(out, WaveBytes(total, channels)) <==> ImageBytes(total, channels) >= TWO_TO_32
  {
    hide Index, Capacity, WaveBytes, U32, Decoded;
    if ImageBytes(total, channels) >= TWO_TO_32 {
      IndexIsProduct(total, channels);
      var frame := BlockStartsNear(data, 0, blockSize, channels, total, Min(Index(total, channels, 0), TWO_TO_32));
      IndexIsProduct(frame, channels);
      DecodedAt(data, out, blockSize, channels, total, frame);
      NearTheEndIsOutside(total, channels, Index(frame, channels, 0), blockSize);
      assert out[Index(frame, channels, 0)].Some?;
    } else {
      FittingStoresAreInside(out, channels, total);
    }
  }

  lemma IndexIsProduct(frames: nat, channels: nat)
    ensures Index(frames, channels, 0) == frames * channels
  {
  }

  lemma DecodedAt(data: Bytes, out: seq<Option<int>>, blockSize: nat, channels: nat, total: nat, frame: nat)
    requires 0 < channels && blockSize > 0 && frame < total && Decoded(out, data, blockSize, channels, total)
    ensures Index(frame, channels, 0) < |out|
    ensures out[Index(frame, channels, 0)] == Sample(data, 0, blockSize, channels, frame, 0)
  {
    hide Index;
  }

  lemma FittingStoresAreInside(out: seq<Option<int>>, channels: nat, total: nat)
    requires |out| == Index(total, channels, 0) && ImageBytes(total, channels) < TWO_TO_32
    ensures !StoresOutside(out, WaveBytes(total, channels))
  {
    hide Index, U32;
    AllocationHolds(total, channels);
    forall i | 0 <= i < |out| ensures Lands(i) + 2 <= WaveBytes(total, channels) {
      SmallStaysU32(i);
    }
  }

  /**
   Both passes. The second ends with exactly the frames the first counted,
   capped by the declared sample count, and every sample is the per-channel
   decoder's. `out[i]` is what was stored for sample i, at byte Lands(i); the
   pass does not look at the size of the allocation, and leaves it exactly when
   the image does not fit 32 bits.
   */
  method DecodeSamples(data: Bytes, blockSize: nat, channels: nat, declared: nat)
    returns (total: nat, size: nat, out: array<Option<int>>)
    requires |data| < TWO_TO_32 && 0 < channels <= 8 && 4 * channels <= blockSize <= TWO_TO_32 / 2
    ensures total == TotalFrames(|data|, blockSize, channels, declared) && size == WaveBytes(total, channels)
    ensures fresh(out) && out.Length == Index(total, channels, 0)
    ensures Decoded(out[..], data, blockSize, channels, total)
    ensures blockSize <= TWO_TO_32 / 4 ==>
              (StoresOutside(out[..], size) <==> ImageBytes(total, channels) >= TWO_TO_32)
  {
    hide Index, Decoded, Capacity, U32, WaveBytes, ImageBytes, StoresOutside;
    total := CountFrames(|data|, blockSize, channels);
    U32IsAtMost(Capacity(|data|, 0, blockSize, channels));
    if declared != 0 && declared < total {
      total := declared;
    }
    size := WaveBytes(total, channels);
    out := DecodeAll(data, blockSize, channels, total);
    if blockSize <= TWO_TO_32 / 4 {
      StoresOutsideExactly(data, out[..], blockSize, channels, total);
    }
  }

  /**
   A mono stream of 1052173 blocks of 1024 bytes: 2934 bytes are allocated for
   an image of more than 2^32, and the header of the third block is stored
   beyond them, at byte 8208.
   */
  lemma LargeStreamOverruns(data: Bytes)
    requires |data| == 1052173 * 1024
    ensures |data| < TWO_TO_32 && TotalFrames(|data|, 1024, 1, 0) == 2147485093
    ensures WaveBytes(2147485093, 1) == 2934 && ImageBytes(2147485093, 1) == 4294970230
    ensures Sample(data, 0, 1024, 1, 4082, 0).Some? && Lands(Index(4082, 1, 0)) == 8208
  {
    hide Capacity, DecodeChannel;
    CapacityOfWholeBlocks(1052173, 0, 1052173 * 1024, 1024, 1);
    assert FramesPerBlock(1024, 1) == 2041;
    FirstSampleIsStored(data, 2048, 1024, 1);
    assert Sample(data, 0, 1024, 1, 4082, 0) == Sample(data, 1024, 1024, 1, 2041, 0)
             == Sample(data, 2048, 1024, 1, 0, 0);
  }
}
