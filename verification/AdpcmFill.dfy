/**
 Which samples AIL_decompress_ADPCM leaves unwritten
 (WebAssembly/shims/Mss.H:975-981 and 1170-1229).
 */
module AdpcmFill {
  import opened Common
  import opened Adpcm
  import opened AdpcmDecoder
  import opened AdpcmBlocks

  // ----- Which samples are written

  /** How many bytes of a payload of this length belong to a channel. */
  ghost function Share(length: nat, channels: nat, channel: nat): nat
    requires channels > 0
  {
    if length == 0 then 0
    else Share(length - 1, channels, channel) + if Owner(length - 1, channels) == channel then 1 else 0
  }

  lemma {:induction false} ShareIsLength(payload: Bytes, channels: nat, channel: nat)
    requires channels > 0
    ensures |ChannelBytes(payload, channels, channel)| == Share(|payload|, channels, channel)
  {
    if payload != [] {
      ShareIsLength(payload[..|payload| - 1], channels, channel);
    }
  }

  /** Whole rounds give every channel four bytes; the rest go to the channels in turn. */
  lemma {:induction false} ShareInRounds(round: nat, channels: nat, turn: nat, i: nat, channel: nat)
    requires turn < channels && channel < channels && i < 4
    ensures Share(4 * Index(round, channels, turn) + i, channels, channel) ==
            4 * round + (if channel < turn then 4 else if channel == turn then i else 0)
    decreases round, turn, i
  {
    hide Owner;
    var length := 4 * Index(round, channels, turn) + i;
    if i > 0 {
      ShareInRounds(round, channels, turn, i - 1, channel);
      OwnerOfGroup(round, channels, turn, i - 1);
    } else if turn > 0 {
      ShareInRounds(round, channels, turn - 1, 3, channel);
      OwnerOfGroup(round, channels, turn - 1, 3);
      assert length == 4 * Index(round, channels, turn - 1) + 4;
    } else if round > 0 {
      ShareInRounds(round - 1, channels, channels - 1, 3, channel);
      OwnerOfGroup(round - 1, channels, channels - 1, 3);
      assert length == 4 * Index(round - 1, channels, channels - 1) + 4;
    }
  }

  /** The bytes of the last channel, which never has more than another. */
  function LastShare(length: nat, channels: nat): nat
    requires channels > 0
  {
    4 * (length / 4 / channels) + if Owner(length, channels) == channels - 1 then length % 4 else 0
  }

  lemma LastShareIsLeast(length: nat, channels: nat, channel: nat)
    requires channel < channels
    ensures Share(length, channels, channels - 1) == LastShare(length, channels) <= Share(length, channels, channel)
  {
    var groups := length / 4;
    EveryPlace(groups, channels);
    ShareInRounds(groups / channels, channels, groups % channels, length % 4, channels - 1);
    ShareInRounds(groups / channels, channels, groups % channels, length % 4, channel);
  }

  /** In every block that is decoded, the last channel's bytes reach the last of the block's frames. */
  predicate BlocksFill(length: nat, pos: nat, blockSize: nat, channels: nat, total: nat)
    requires 0 < 4 * channels <= blockSize
    decreases if pos <= length then length - pos + 1 else 0
  {
    if pos + channels * 4 > length || total == 0 then true
    else
      var avail := Min(length - pos, blockSize);
      var frames := FramesPerBlock(avail, channels);
      && Min(frames, total) <= 1 + 2 * LastShare(avail - 4 * channels, channels)
      && BlocksFill(length, pos + blockSize, blockSize, channels, if frames <= total then total - frames else 0)
  }

  ghost predicate AllWritten(data: Bytes, pos: nat, blockSize: nat, channels: nat, total: nat)
    requires blockSize > 0
  {
    forall f: nat, c: nat :: f < total && c < channels ==> Sample(data, pos, blockSize, channels, f, c).Some?
  }

  lemma BlockSamples(data: Bytes, pos: nat, blockSize: nat, channels: nat, c: nat)
    requires 0 < 4 * channels <= blockSize && pos + channels * 4 <= |data| && c < channels
    ensures var avail := Min(|data| - pos, blockSize);
            && |BlockAt(data, pos, blockSize)| == avail
            && |DecodeChannel(BlockAt(data, pos, blockSize), channels, c).samples|
                 == 1 + 2 * Share(avail - 4 * channels, channels, c)
  {
    hide Start;
    var block := BlockAt(data, pos, blockSize);
    ShareIsLength(block[4 * channels..], channels, c);
  }

  /**
   Every sample of the output is written exactly when, in each decoded block,
   the last channel has bytes for all of the block's frames.
   */
  lemma {:induction false} EverySampleIsWritten(data: Bytes, pos: nat, blockSize: nat, channels: nat, total: nat)
    requires 0 < 4 * channels <= blockSize && total <= Capacity(|data|, pos, blockSize, channels)
    ensures AllWritten(data, pos, blockSize, channels, total) <==> BlocksFill(|data|, pos, blockSize, channels, total)
    decreases if pos <= |data| then |data| - pos + 1 else 0
  {
    hide FramesPerBlock, DecodeChannel, Share, LastShare;
    if pos + channels * 4 <= |data| && total > 0 {
      var avail := Min(|data| - pos, blockSize);
      var frames := FramesPerBlock(avail, channels);
      var rest := if frames <= total then total - frames else 0;
      CapacityUnfolds(|data|, pos, blockSize, channels);
      EverySampleIsWritten(data, pos + blockSize, blockSize, channels, rest);
      if BlocksFill(|data|, pos, blockSize, channels, total) {
        FilledBlockIsWritten(data, pos, blockSize, channels, total);
      } else if AllWritten(data, pos, blockSize, channels, total) {
        WrittenBlockIsFilled(data, pos, blockSize, channels, total);
        assert false;
      }
    }
  }

  lemma FilledBlockIsWritten(data: Bytes, pos: nat, blockSize: nat, channels: nat, total: nat)
    requires 0 < 4 * channels <= blockSize && pos + channels * 4 <= |data|
    requires var avail := Min(|data| - pos, blockSize);
             var frames := FramesPerBlock(avail, channels);
             && Min(frames, total) <= 1 + 2 * LastShare(avail - 4 * channels, channels)
             && AllWritten(data, pos + blockSize, blockSize, channels, if frames <= total then total - frames else 0)
    ensures AllWritten(data, pos, blockSize, channels, total)
  {
    hide FramesPerBlock, DecodeChannel, Share, LastShare;
    forall f: nat, c: nat | f < total && c < channels ensures Sample(data, pos, blockSize, channels, f, c).Some? {
      BlockSamples(data, pos, blockSize, channels, c);
      LastShareIsLeast(Min(|data| - pos, blockSize) - 4 * channels, channels, c);
      var frames := FramesPerBlock(Min(|data| - pos, blockSize), channels);
      if f >= frames {
        assert Sample(data, pos + blockSize, blockSize, channels, f - frames, c).Some?;
      }
    }
  }

  lemma WrittenBlockIsFilled(data: Bytes, pos: nat, blockSize: nat, channels: nat, total: nat)
    requires 0 < 4 * channels <= blockSize && pos + channels * 4 <= |data| && total > 0
    requires AllWritten(data, pos, blockSize, channels, total)
    ensures var avail := Min(|data| - pos, blockSize);
            var frames := FramesPerBlock(avail, channels);
            && Min(frames, total) <= 1 + 2 * LastShare(avail - 4 * channels, channels)
            && AllWritten(data, pos + blockSize, blockSize, channels, if frames <= total then total - frames else 0)
  {
    hide FramesPerBlock, DecodeChannel, Share, LastShare;
    var avail := Min(|data| - pos, blockSize);
    var frames := FramesPerBlock(avail, channels);
    HasAFrame(avail, channels);
    var last := channels - 1;
    BlockSamples(data, pos, blockSize, channels, last);
    LastShareIsLeast(avail - 4 * channels, channels, last);
    assert Sample(data, pos, blockSize, channels, Min(frames, total) - 1, last).Some?;
    if frames <= total {
      var next := pos + blockSize;
      forall f: nat, c: nat | f < total - frames && c < channels
        ensures Sample(data, next, blockSize, channels, f, c).Some?
      {
        BlockSamples(data, pos, blockSize, channels, c);
        assert Sample(data, pos, blockSize, channels, frames + f, c).Some?;
      }
    }
  }

  lemma QuotientAtMost(x: nat, d: nat, k: nat)
    requires d > 0
    ensures x / d <= k <==> x < (k + 1) * d
  {
    EveryPlace(x, d);
    IndexBounds(x / d, k + 1, d, x % d);
  }

  /** The payload in whole rounds of four bytes for each channel, whole groups of four, and single bytes. */
  lemma PayloadParts(payload: nat, channels: nat) returns (rounds: nat, groups: nat, i: nat)
    requires channels > 0
    ensures groups < channels && i < 4 && payload % (4 * channels) == 4 * groups + i
    ensures payload == 4 * (rounds * channels) + 4 * groups + i
    ensures LastShare(payload, channels) == 4 * rounds + if groups == channels - 1 then i else 0
  {
    rounds, groups, i := payload / 4 / channels, payload / 4 % channels, payload % 4;
    EveryPlace(payload / 4, channels);
    assert payload == rounds * (4 * channels) + (4 * groups + i) by {
      assert rounds * (4 * channels) == 4 * (rounds * channels);
    }
    Modulo(rounds, 4 * channels, 4 * groups + i);
  }

  /** Whether the last channel's bytes reach all frames of a block that is not cut short. */
  predicate Fills(payload: nat, channels: nat)
    requires channels > 0
  {
    FramesPerBlock(4 * channels + payload, channels) <= 1 + 2 * LastShare(payload, channels)
  }

  /**
   A block that is not cut short by the declared count is filled exactly when
   it is mono, or what its payload leaves over whole rounds of four bytes for
   each channel is less than half a byte for each channel.
   */
  lemma FillsExactly(payload: nat, channels: nat)
    requires channels > 0
    ensures Fills(payload, channels) <==> channels == 1 || 2 * (payload % (4 * channels)) < channels
  {
    hide LastShare, Fills;
    var rounds, groups, i := PayloadParts(payload, channels);
    var over := if groups == channels - 1 then i else 0;
    FillsMeans(payload, channels);
    ShareTimes(rounds, over, channels);
    LeftOver(groups, i, channels);
  }

  lemma FillsMeans(payload: nat, channels: nat)
    requires channels > 0
    ensures Fills(payload, channels) <==> payload * 2 < (2 * LastShare(payload, channels) + 1) * channels
  {
    hide LastShare;
    QuotientAtMost(payload * 2, channels, 2 * LastShare(payload, channels));
  }

  lemma ShareTimes(rounds: nat, over: nat, channels: nat)
    ensures (2 * (4 * rounds + over) + 1) * channels == 8 * (rounds * channels) + (2 * over + 1) * channels
  {
    assert 2 * (4 * rounds + over) + 1 == 8 * rounds + (2 * over + 1);
  }

  lemma LeftOver(groups: nat, i: nat, channels: nat)
    requires groups < channels && i < 4
    ensures var left, over := 4 * groups + i, if groups == channels - 1 then i else 0;
            2 * left < (2 * over + 1) * channels <==> channels == 1 || 2 * left < channels
  {
    if groups == channels - 1 {
      assert i == 0 || i == 1 || i == 2 || i == 3;
    }
  }

  /** The condition of FillsExactly, which a caller can check on the sizes alone. */
  predicate Even(payload: nat, channels: nat)
    requires channels > 0
  {
    channels == 1 || 2 * (payload % (4 * channels)) < channels
  }

  /** A stream that no declared count cuts short is filled exactly when its block size and its last block are even. */
  lemma {:induction false} UncutStream(length: nat, pos: nat, blockSize: nat, channels: nat)
    requires 0 < 4 * channels <= blockSize && pos <= length
    ensures BlocksFill(length, pos, blockSize, channels, Capacity(length, pos, blockSize, channels))
            <==> && (length - pos >= blockSize ==> Even(blockSize - 4 * channels, channels))
                 && ((length - pos) % blockSize >= 4 * channels ==>
                       Even((length - pos) % blockSize - 4 * channels, channels))
    decreases length - pos
  {
    hide FramesPerBlock, LastShare, Even;
    var rest := length - pos;
    if rest >= 4 * channels {
      var avail := Min(rest, blockSize);
      CapacityUnfolds(length, pos, blockSize, channels);
      HasAFrame(avail, channels);
      FillsExactly(avail - 4 * channels, channels);
      EvenIsFilled(avail - 4 * channels, channels);
      if rest >= blockSize {
        UncutStream(length, pos + blockSize, blockSize, channels);
        RestOfRest(rest, blockSize);
      } else {
        NoMoreFrames(length, pos + blockSize, blockSize, channels);
        SmallRest(rest, blockSize);
      }
    } else {
      NoMoreFrames(length, pos, blockSize, channels);
      SmallRest(rest, blockSize);
    }
  }

  lemma EvenIsFilled(payload: nat, channels: nat)
    requires channels > 0
    ensures Even(payload, channels)
            <==> FramesPerBlock(4 * channels + payload, channels) <= 1 + 2 * LastShare(payload, channels)
  {
    hide FramesPerBlock, LastShare;
    FillsExactly(payload, channels);
  }

  lemma RestOfRest(rest: nat, size: nat)
    requires 0 < size <= rest
    ensures rest % size == (rest - size) % size
  {
    EveryPlace(rest, size);
    assert rest - size == (rest / size - 1) * size + rest % size;
    Modulo(rest / size - 1, size, rest % size);
  }

  lemma SmallRest(rest: nat, size: nat)
    requires rest < size
    ensures rest % size == rest
  {
  }

  /** One group for two channels: the block counts five frames, and the second channel has one sample. */
  lemma StereoCanBeLeftUnwritten(data: Bytes)
    requires |data| == 12
    ensures Capacity(12, 0, 12, 2) == 5
    ensures forall f: nat :: 0 < f < 5 ==> Sample(data, 0, 12, 2, f, 1) == None
  {
    BlockSamples(data, 0, 12, 2, 1);
    LastShareIsLeast(4, 2, 1);
  }
}
