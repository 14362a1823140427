/**
 AIL_decompress_ADPCM over all blocks (WebAssembly/shims/Mss.H:1128-1143 and
 1170-1229): the counting pass and the decoding pass. Sizes are 32-bit
 unsigned numbers that wrap; a block is at most 2^31 bytes (AIL_WAV_info reads
 its size from 16 bits).
 */
module AdpcmBlocks {
  import opened Common
  import opened Numbers
  import opened Adpcm
  import opened AdpcmDecoder

  // ----- The counting pass

  lemma CapacityUnfolds(length: nat, pos: nat, blockSize: nat, channels: nat)
    requires blockSize > 0 && pos + channels * 4 <= length
    ensures Capacity(length, pos, blockSize, channels) ==
            FramesPerBlock(Min(length - pos, blockSize), channels)
                + Capacity(length, pos + blockSize, blockSize, channels)
  {
    hide FramesPerBlock;
  }

  lemma NoMoreFrames(length: nat, pos: nat, blockSize: nat, channels: nat)
    requires blockSize > 0 && pos + channels * 4 > length
    ensures Capacity(length, pos, blockSize, channels) == 0
  {
  }

  /** A block with room for its headers carries at least the frame they hold. */
  lemma HasAFrame(blockBytes: nat, channels: nat)
    requires 0 < channels * 4 <= blockBytes
    ensures FramesPerBlock(blockBytes, channels) > 0
  {
  }

  /** What is left in the stream once a block has been counted, also when the loop runs on past its last block. */
  lemma BlockCounted(length: nat, pos: nat, blockSize: nat, channels: nat)
    requires 0 < blockSize && pos <= length
    ensures var avail := Min(length - pos, blockSize);
            Capacity(length, pos, blockSize, channels)
            == FramesPerBlock(avail, channels) + if avail < blockSize then 0
                else Capacity(length, pos + blockSize, blockSize, channels)
  {
    hide FramesPerBlock;
    if pos + channels * 4 > length {
      NoFrames(Min(length - pos, blockSize), channels);
    }
  }

  lemma NoFrames(blockBytes: nat, channels: nat)
    requires blockBytes < channels * 4
    ensures FramesPerBlock(blockBytes, channels) == 0
  {
  }

  /**
   The first pass; the parser's sample count for ADPCM (lines 1049-1060) is the
   same loop. Its guard and its sum wrap: the guard then lets through blocks
   that hold no frame, and the count is the capacity modulo 2^32.
   */
  method CountFrames(length: nat, blockSize: nat, channels: nat) returns (capacity: nat)
    requires length < TWO_TO_32 && 0 < blockSize <= TWO_TO_32 / 2 && channels < TWO_TO_16
    ensures capacity == U32(Capacity(length, 0, blockSize, channels))
  {
    hide FramesPerBlock, Capacity, U32;
    capacity := 0;
    var pos: nat := 0;
    ghost var counted: nat := 0;
    SmallStaysU32(0);
    while U32(pos + channels * 4) <= length
      invariant pos <= length && capacity == U32(counted)
      invariant counted + Capacity(length, pos, blockSize, channels) == Capacity(length, 0, blockSize, channels)
      decreases length + blockSize - pos
    {
      var avail := if length - pos < blockSize then length - pos else blockSize;
      BlockCounted(length, pos, blockSize, channels);
      U32OfSum(counted, FramesPerBlock(avail, channels));
      capacity := U32(capacity + FramesPerBlock(avail, channels));
      counted := counted + FramesPerBlock(avail, channels);
      if avail < blockSize {
        return;
      }
      SmallStaysU32(pos + blockSize);
      pos := U32(pos + blockSize);
    }
    U32IsAtMost(pos + channels * 4);
    NoMoreFrames(length, pos, blockSize, channels);
  }

  lemma SmallStaysU32(value: nat)
    ensures value < TWO_TO_32 ==> U32(value) == value
  {
  }

  lemma U32IsAtMost(value: nat)
    ensures U32(value) <= value
  {
  }

  // ----- The decoding pass

  /** The first `done` frames are as the per-channel decoder gives them, and the rest are untouched. */
  ghost predicate Decoded(out: seq<Option<int>>, data: Bytes, blockSize: nat, channels: nat, done: nat)
    requires blockSize > 0
  {
    && (forall f: nat, c: nat :: f < done && c < channels ==>
          Index(f, channels, c) < |out| && out[Index(f, channels, c)] == Sample(data, 0, blockSize, channels, f, c))
    && (forall i :: Index(done, channels, 0) <= i < |out| ==> out[i] == None)
  }

  ghost predicate ShiftedAt(data: Bytes, blockSize: nat, channels: nat, pos: nat, skipped: nat, f: nat, c: nat)
    requires blockSize > 0
  {
    c < channels ==>
      Sample(data, 0, blockSize, channels, skipped + f, c) == Sample(data, pos, blockSize, channels, f, c)
  }

  /** Samples of the whole stream, counted from a block on. */
  ghost predicate Shifted(data: Bytes, blockSize: nat, channels: nat, pos: nat, skipped: nat)
    requires blockSize > 0
  {
    forall f: nat, c: nat :: ShiftedAt(data, blockSize, channels, pos, skipped, f, c)
  }

  lemma NextBlockShifts(data: Bytes, blockSize: nat, channels: nat, pos: nat, skipped: nat)
    requires 0 < 4 * channels <= blockSize && pos + channels * 4 <= |data|
             && Shifted(data, blockSize, channels, pos, skipped)
    ensures Shifted(data, blockSize, channels, pos + blockSize,
                    skipped + FramesPerBlock(|BlockAt(data, pos, blockSize)|, channels))
  {
    hide DecodeChannel, FramesPerBlock;
    var frames := FramesPerBlock(|BlockAt(data, pos, blockSize)|, channels);
    var next, passed := pos + blockSize, skipped + frames;
    forall f: nat, c: nat ensures ShiftedAt(data, blockSize, channels, next, passed, f, c) {
      assert ShiftedAt(data, blockSize, channels, pos, skipped, frames + f, c);
    }
  }

  /** Decoding one more block, possibly cut short by the total, extends what is decoded. */
  lemma BlockExtends(out: seq<Option<int>>, after: seq<Option<int>>, data: Bytes, blockSize: nat, channels: nat,
                     pos: nat, done: nat, frames: nat)
    requires 0 < 4 * channels <= blockSize && pos + channels * 4 <= |data|
    requires Decoded(out, data, blockSize, channels, done) && Shifted(data, blockSize, channels, pos, done)
    requires frames <= FramesPerBlock(|BlockAt(data, pos, blockSize)|, channels)
    requires var block := BlockAt(data, pos, blockSize);
             Output(after, out, TracksAt(block, channels, |Payload(block, channels)|), done, frames)
    ensures Decoded(after, data, blockSize, channels, done + frames)
  {
    hide Index, FramesPerBlock, DecodeChannel, Output;
    forall f: nat, c: nat | f < done + frames && c < channels
      ensures Index(f, channels, c) < |after| && after[Index(f, channels, c)]
                == Sample(data, 0, blockSize, channels, f, c)
    {
      if f < done {
        assert out[Index(f, channels, c)] == Sample(data, 0, blockSize, channels, f, c);
        EarlierFramesStay(out, after, data, blockSize, channels, pos, done, frames, f, c);
      } else {
        assert ShiftedAt(data, blockSize, channels, pos, done, f - done, c);
        NewFrameIsDecoded(out, after, data, blockSize, channels, pos, done, frames, f - done, c);
      }
    }
    LaterPlacesStay(out, after, data, blockSize, channels, pos, done, frames);
  }

  lemma EarlierFramesStay(out: seq<Option<int>>, after: seq<Option<int>>, data: Bytes, blockSize: nat, channels: nat,
                          pos: nat, done: nat, frames: nat, f: nat, c: nat)
    requires 0 < 4 * channels <= blockSize && pos + channels * 4 <= |data| && f < done && c < channels
    requires Index(f, channels, c) < |out|
    requires var block := BlockAt(data, pos, blockSize);
             Output(after, out, TracksAt(block, channels, |Payload(block, channels)|), done, frames)
    ensures Index(f, channels, c) < |after| && after[Index(f, channels, c)] == out[Index(f, channels, c)]
  {
    hide Index, TracksAt;
    IndexBounds(f, done, channels, c);
  }

  lemma LaterPlacesStay(out: seq<Option<int>>, after: seq<Option<int>>, data: Bytes, blockSize: nat, channels: nat,
                        pos: nat, done: nat, frames: nat)
    requires 0 < 4 * channels <= blockSize && pos + channels * 4 <= |data|
    requires forall i :: Index(done, channels, 0) <= i < |out| ==> out[i] == None
    requires var block := BlockAt(data, pos, blockSize);
             Output(after, out, TracksAt(block, channels, |Payload(block, channels)|), done, frames)
    ensures forall i :: Index(done + frames, channels, 0) <= i < |after| ==> after[i] == None
  {
    hide TracksAt;
    ProductGrows(done, done + frames, channels);
  }

  lemma NewFrameIsDecoded(out: seq<Option<int>>, after: seq<Option<int>>, data: Bytes, blockSize: nat, channels: nat,
                          pos: nat, done: nat, frames: nat, f: nat, c: nat)
    requires 0 < 4 * channels <= blockSize && pos + channels * 4 <= |data| && f < frames && c < channels
    requires forall i :: Index(done, channels, 0) <= i < |out| ==> out[i] == None
    requires frames <= FramesPerBlock(|BlockAt(data, pos, blockSize)|, channels)
    requires var block := BlockAt(data, pos, blockSize);
             Output(after, out, TracksAt(block, channels, |Payload(block, channels)|), done, frames)
    ensures Index(done + f, channels, c) < |after|
    ensures after[Index(done + f, channels, c)] == Sample(data, pos, blockSize, channels, f, c)
  {
    hide Index, FramesPerBlock, FeedAll, Start;
    var block := BlockAt(data, pos, blockSize);
    var tracks := TracksAt(block, channels, |Payload(block, channels)|);
    IndexBounds(done + f, done + frames, channels, c);
    assert IsPlaced(after, out, tracks, done, f, c);
    assert Payload(block, channels)[..|Payload(block, channels)|] == block[4 * channels..];
    assert tracks[c] == DecodeChannel(block, channels, c);
    if f >= |tracks[c].samples| {
      IndexGrows(done, done + f, channels, c);
    }
  }

  /** The second pass. Its position may wrap, but only once all frames are done. */
  method DecodeAll(data: Bytes, blockSize: nat, channels: nat, total: nat) returns (out: array<Option<int>>)
    requires |data| < TWO_TO_32 && 0 < channels <= 8 && 4 * channels <= blockSize <= TWO_TO_32 / 2
    requires total <= Capacity(|data|, 0, blockSize, channels)
    ensures fresh(out) && out.Length == Index(total, channels, 0)
    ensures Decoded(out[..], data, blockSize, channels, total)
  {
    hide FramesPerBlock, Index, Decoded, Shifted, Output, TracksAt, Capacity, U32;
    out := new Option<int>[Index(total, channels, 0)](_ => None);
    var pos: nat, framesDone: nat := 0, 0;
    ghost var counted: nat := 0;
    NothingDecoded(out[..], data, blockSize, channels);
    while U32(pos + channels * 4) <= |data| && framesDone < total
      invariant framesDone <= total && Decoded(out[..], data, blockSize, channels, framesDone)
      invariant framesDone < total ==> Remaining(data, blockSize, channels, pos, framesDone, total)
      decreases total - framesDone
    {
      FramesRemain(data, blockSize, channels, pos, framesDone, total);
      var blockFrames := DecodeNext(out, data, blockSize, channels, pos, framesDone, total);
      framesDone := framesDone + blockFrames;
      pos := U32(pos + blockSize);
    }
    if framesDone < total {
      U32IsAtMost(pos + channels * 4);
      FramesRemain(data, blockSize, channels, pos, framesDone, total);
    }
  }

  /** The frames not yet done are in the blocks from `pos` on. */
  ghost predicate Remaining(data: Bytes, blockSize: nat, channels: nat, pos: nat, framesDone: nat, total: nat)
    requires blockSize > 0
  {
    total <= framesDone + Capacity(|data|, pos, blockSize, channels)
        && Shifted(data, blockSize, channels, pos, framesDone)
  }

  lemma FramesRemain(data: Bytes, blockSize: nat, channels: nat, pos: nat, framesDone: nat, total: nat)
    requires blockSize > 0 && framesDone < total && Remaining(data, blockSize, channels, pos, framesDone, total)
    ensures pos + channels * 4 <= |data|
  {
    hide Capacity, Shifted;
    if pos + channels * 4 > |data| {
      NoMoreFrames(|data|, pos, blockSize, channels);
    }
  }

  /** One turn of the second pass: the block's frames, cut to what the total leaves. */
  method DecodeNext(out: array<Option<int>>, data: Bytes, blockSize: nat, channels: nat, pos: nat, framesDone: nat,
                    total: nat)
    returns (blockFrames: nat)
    requires 0 < channels <= 8 && 4 * channels <= blockSize && pos + channels * 4 <= |data| < TWO_TO_32
    requires framesDone < total && out.Length == Index(total, channels, 0)
    requires Remaining(data, blockSize, channels, pos, framesDone, total)
    requires Decoded(out[..], data, blockSize, channels, framesDone)
    modifies out
    ensures 0 < blockFrames <= total - framesDone
    ensures Decoded(out[..], data, blockSize, channels, framesDone + blockFrames)
    ensures framesDone + blockFrames < total ==>
              Remaining(data, blockSize, channels, U32(pos + blockSize), framesDone + blockFrames, total)
  {
    hide Index, Decoded, Shifted, Output, TracksAt, FramesPerBlock, Capacity, U32;
    var block := BlockAt(data, pos, blockSize);
    var available := FramesPerBlock(|block|, channels);
    HasAFrame(|block|, channels);
    blockFrames := available;
    if blockFrames > total - framesDone {
      blockFrames := total - framesDone;
    }
    ProductFits(framesDone + blockFrames, total, channels);
    ghost var before := out[..];
    DecodeBlock(out, block, channels, framesDone, blockFrames);
    BlockExtends(before, out[..], data, blockSize, channels, pos, framesDone, blockFrames);
    if framesDone + blockFrames < total {
      NextRemains(data, blockSize, channels, pos, framesDone, total);
    }
  }

  lemma NextRemains(data: Bytes, blockSize: nat, channels: nat, pos: nat, framesDone: nat, total: nat)
    requires 0 < 4 * channels <= blockSize && pos + channels * 4 <= |data| < TWO_TO_32
    requires Remaining(data, blockSize, channels, pos, framesDone, total)
    requires framesDone + FramesPerBlock(|BlockAt(data, pos, blockSize)|, channels) < total
    ensures Remaining(data, blockSize, channels, U32(pos + blockSize),
                      framesDone + FramesPerBlock(|BlockAt(data, pos, blockSize)|, channels), total)
  {
    hide Shifted, FramesPerBlock, Capacity, U32;
    var next := framesDone + FramesPerBlock(|BlockAt(data, pos, blockSize)|, channels);
    CapacityUnfolds(|data|, pos, blockSize, channels);
    NextBlockShifts(data, blockSize, channels, pos, framesDone);
    assert Remaining(data, blockSize, channels, pos + blockSize, next, total);
    FramesRemain(data, blockSize, channels, pos + blockSize, next, total);
    SmallStaysU32(pos + blockSize);
  }

  lemma ProductFits(frames: nat, total: nat, channels: nat)
    requires frames <= total
    ensures Index(frames, channels, 0) <= Index(total, channels, 0)
  {
    ProductGrows(frames, total, channels);
  }

  lemma NothingDecoded(out: seq<Option<int>>, data: Bytes, blockSize: nat, channels: nat)
    requires blockSize > 0 && forall i :: 0 <= i < |out| ==> out[i] == None
    ensures Decoded(out, data, blockSize, channels, 0) && Shifted(data, blockSize, channels, 0, 0)
  {
  }
}
