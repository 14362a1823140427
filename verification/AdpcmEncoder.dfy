/**
 The block format from the encoder's side (WebAssembly/shims/Mss.H:1106-1229):
 headers, then rounds of four bytes for each channel in turn; and the result
 that a stream written this way is heard as it was meant.
 */
module AdpcmEncoder {
  import opened Common
  import opened Adpcm
  import opened AdpcmDecoder
  import opened AdpcmBlocks
  import opened AdpcmQuantiser
  import opened AdpcmChannel

  /** One channel of one block: its first sample, the index its coder starts at, and the samples to follow. */
  datatype Passage = Passage(first: int, index: nat, targets: seq<int>)

  ghost predicate IsPassage(p: Passage, rounds: nat) {
    && Is16Bit(p.first) && p.index <= 88 && |p.targets| == 8 * rounds && Tracks(State(p.first, p.index), p.targets)
  }

  /** One passage per channel. */
  ghost predicate IsBlock(ps: seq<Passage>, rounds: nat) {
    ps != [] && forall c :: 0 <= c < |ps| ==> IsPassage(ps[c], rounds)
  }

  /** The first sample in two's complement, low byte first, the index, and a spare byte. */
  function ChannelHeader(p: Passage): (bytes: Bytes)
    requires Is16Bit(p.first) && p.index <= 88
    ensures |bytes| == 4
  {
    [p.first % 256, p.first / 256 % 256, p.index, 0]
  }

  ghost function ChannelCode(p: Passage, rounds: nat): (bytes: Bytes)
    requires IsPassage(p, rounds)
    ensures |bytes| == 4 * rounds
  {
    Code(State(p.first, p.index), p.targets)
  }

  /** Four bytes of a channel: its header, or those of one round. */
  ghost function Quad(p: Passage, rounds: nat, turn: nat): (bytes: Bytes)
    requires IsPassage(p, rounds) && turn <= rounds
    ensures |bytes| == 4
  {
    if turn == 0 then ChannelHeader(p) else ChannelCode(p, rounds)[4 * (turn - 1)..4 * turn]
  }

  /** The bytes of a block with so many rounds. */
  function BlockLength(channels: nat, rounds: nat): nat {
    4 * Index(rounds + 1, channels, 0)
  }

  lemma QuadExists(k: nat, channels: nat, rounds: nat)
    requires k < BlockLength(channels, rounds)
    ensures channels > 0 && k / 4 / channels <= rounds && k / 4 % channels < channels
  {
    if channels > 0 {
      EveryPlace(k / 4, channels);
      IndexBounds(k / 4 / channels, rounds + 1, channels, k / 4 % channels);
    }
  }

  /** The headers of all channels, then the first four bytes of each, then the next, and so on. */
  ghost function EncodedBlock(ps: seq<Passage>, rounds: nat): (block: Bytes)
    requires IsBlock(ps, rounds)
    ensures |block| == BlockLength(|ps|, rounds)
  {
    seq(BlockLength(|ps|, rounds), k requires 0 <= k < BlockLength(|ps|, rounds) =>
      QuadExists(k, |ps|, rounds);
      Quad(ps[k / 4 % |ps|], rounds, k / 4 / |ps|)[k % 4])
  }

  lemma Quotients(turn: nat, channels: nat, channel: nat, i: nat)
    requires channel < channels && i < 4
    ensures var k := 4 * Index(turn, channels, channel) + i;
            k % 4 == i && k / 4 % channels == channel && k / 4 / channels == turn
  {
    var g := Index(turn, channels, channel);
    assert (4 * g + i) / 4 == g;
    EveryPlace(g, channels);
    IndexDistinct(turn, channel, g / channels, g % channels, channels);
  }

  lemma QuadStands(ps: seq<Passage>, rounds: nat, turn: nat, channel: nat, i: nat)
    requires IsBlock(ps, rounds) && turn <= rounds && channel < |ps| && i < 4
    ensures 4 * Index(turn, |ps|, channel) + i < |EncodedBlock(ps, rounds)|
    ensures EncodedBlock(ps, rounds)[4 * Index(turn, |ps|, channel) + i] == Quad(ps[channel], rounds, turn)[i]
  {
    hide Quad;
    Quotients(turn, |ps|, channel, i);
    IndexBounds(turn, rounds + 1, |ps|, channel);
  }

  // ----- The decoder's view of a block

  lemma HeaderStands(ps: seq<Passage>, rounds: nat, channel: nat)
    requires IsBlock(ps, rounds) && channel < |ps|
    ensures 4 * channel + 4 <= |EncodedBlock(ps, rounds)|
    ensures Start(EncodedBlock(ps, rounds), channel)
              == Track([ps[channel].first], State(ps[channel].first, ps[channel].index))
  {
    hide EncodedBlock, BlockLength;
    assert Index(0, |ps|, channel) == channel;
    QuadStands(ps, rounds, 0, channel, 0);
    QuadStands(ps, rounds, 0, channel, 1);
    QuadStands(ps, rounds, 0, channel, 2);
    QuadStands(ps, rounds, 0, channel, 3);
    SignedOfBytes(ps[channel].first);
  }

  lemma SignedOfBytes(x: int)
    requires Is16Bit(x)
    ensures Signed(x % 256, x / 256 % 256) == x
  {
  }

  /** Where the next byte of a round goes. */
  lemma NextByte(ps: seq<Passage>, rounds: nat, round: nat, turn: nat, i: nat, channel: nat)
    requires IsBlock(ps, rounds) && round < rounds && turn < |ps| && i < 4 && channel < |ps|
    ensures var k, payload := 4 * Index(round, |ps|, turn) + i, EncodedBlock(ps, rounds)[4 * |ps|..];
            && k < |payload|
            && ChannelBytes(payload[..k + 1], |ps|, channel) ==
               ChannelBytes(payload[..k], |ps|, channel)
               + if turn == channel then [ChannelCode(ps[channel], rounds)[4 * round + i]] else []
  {
    hide Owner, EncodedBlock, BlockLength, ChannelCode;
    var k := 4 * Index(round, |ps|, turn) + i;
    QuadStands(ps, rounds, round + 1, turn, i);
    NextIndex(round, |ps|, turn);
    OwnerOfGroup(round, |ps|, turn, i);
    var payload := EncodedBlock(ps, rounds)[4 * |ps|..];
    assert payload[k] == EncodedBlock(ps, rounds)[4 * |ps| + k];
    assert payload[..k + 1][..k] == payload[..k];
  }

  lemma NextIndex(round: nat, channels: nat, turn: nat)
    ensures Index(round + 1, channels, turn) == channels + Index(round, channels, turn)
  {
  }

  /** The bytes of a channel that have been passed when the next is the i-th of a group. */
  function Passed(round: nat, turn: nat, i: nat, channel: nat): nat {
    4 * round + (if channel < turn then 4 else if channel == turn then i else 0)
  }

  /** The first k bytes of the payload hold the first `passed` bytes of a channel's code. */
  ghost predicate IsOut(ps: seq<Passage>, rounds: nat, k: nat, passed: nat, channel: nat)
    requires IsBlock(ps, rounds) && channel < |ps| && 4 * |ps| <= |EncodedBlock(ps, rounds)|
  {
    var payload := EncodedBlock(ps, rounds)[4 * |ps|..];
    && k <= |payload| && passed <= 4 * rounds
    && ChannelBytes(payload[..k], |ps|, channel) == ChannelCode(ps[channel], rounds)[..passed]
  }

  lemma OneMoreOut(ps: seq<Passage>, rounds: nat, round: nat, turn: nat, i: nat, channel: nat)
    requires IsBlock(ps, rounds) && round < rounds && turn < |ps| && i < 4 && channel < |ps|
    requires 4 * |ps| <= |EncodedBlock(ps, rounds)|
    requires IsOut(ps, rounds, 4 * Index(round, |ps|, turn) + i, Passed(round, turn, i, channel), channel)
    ensures IsOut(ps, rounds, 4 * Index(round, |ps|, turn) + i + 1,
                  Passed(round, turn, i, channel) + if turn == channel then 1 else 0, channel)
  {
    hide EncodedBlock, ChannelCode, Index, ChannelBytes, IsPassage;
    NextByte(ps, rounds, round, turn, i, channel);
    var code, passed := ChannelCode(ps[channel], rounds), Passed(round, turn, i, channel);
    if turn == channel {
      assert code[..passed] + [code[passed]] == code[..passed + 1];
    } else {
      assert code[..passed] + [] == code[..passed];
    }
  }

  /** Taking the payload apart gives every channel its code. */
  lemma {:induction false} CodeComesOut(ps: seq<Passage>, rounds: nat, round: nat, turn: nat, i: nat, channel: nat)
    requires IsBlock(ps, rounds) && turn < |ps| && i < 4 && channel < |ps|
    requires round < rounds || (round == rounds && turn == 0 && i == 0)
    ensures 4 * |ps| <= |EncodedBlock(ps, rounds)|
    ensures IsOut(ps, rounds, 4 * Index(round, |ps|, turn) + i, Passed(round, turn, i, channel), channel)
    decreases round, turn, i
  {
    hide EncodedBlock, Index, IsOut, IsBlock, BlockLength;
    PayloadLength(ps, rounds);
    IndexSteps(round, |ps|, turn);
    if i > 0 {
      CodeComesOut(ps, rounds, round, turn, i - 1, channel);
      OneMoreOut(ps, rounds, round, turn, i - 1, channel);
    } else if turn > 0 {
      IndexSteps(round, |ps|, turn - 1);
      CodeComesOut(ps, rounds, round, turn - 1, 3, channel);
      OneMoreOut(ps, rounds, round, turn - 1, 3, channel);
    } else if round > 0 {
      IndexSteps(round - 1, |ps|, |ps| - 1);
      CodeComesOut(ps, rounds, round - 1, |ps| - 1, 3, channel);
      OneMoreOut(ps, rounds, round - 1, |ps| - 1, 3, channel);
    } else {
      NothingOut(ps, rounds, channel);
    }
  }

  lemma NothingOut(ps: seq<Passage>, rounds: nat, channel: nat)
    requires IsBlock(ps, rounds) && channel < |ps| && 4 * |ps| <= |EncodedBlock(ps, rounds)|
    ensures IsOut(ps, rounds, 0, 0, channel)
  {
    hide EncodedBlock;
  }

  lemma PayloadLength(ps: seq<Passage>, rounds: nat)
    requires IsBlock(ps, rounds)
    ensures 4 * |ps| <= |EncodedBlock(ps, rounds)|
    ensures |EncodedBlock(ps, rounds)| - 4 * |ps| == 4 * Index(rounds, |ps|, 0)
  {
    hide EncodedBlock;
    NextIndex(rounds, |ps|, 0);
  }

  /** A block decodes to its first samples, and to what its code stands for. */
  lemma BlockDecodes(ps: seq<Passage>, rounds: nat, channel: nat)
    requires IsBlock(ps, rounds) && channel < |ps|
    ensures 4 * |ps| <= |EncodedBlock(ps, rounds)|
    ensures var p := ps[channel];
            DecodeChannel(EncodedBlock(ps, rounds), |ps|, channel)
              == FeedAll(Track([p.first], State(p.first, p.index)), Code(State(p.first, p.index), p.targets))
  {
    hide EncodedBlock, Code, FeedAll, ChannelBytes, Start;
    HeaderStands(ps, rounds, channel);
    PayloadLength(ps, rounds);
    CodeComesOut(ps, rounds, rounds, 0, 0, channel);
    var payload := EncodedBlock(ps, rounds)[4 * |ps|..];
    assert payload[..4 * Index(rounds, |ps|, 0)] == payload;
    var code := ChannelCode(ps[channel], rounds);
    assert code[..4 * rounds] == code;
  }

  lemma FramesOfBlock(channels: nat, rounds: nat)
    requires channels > 0
    ensures FramesPerBlock(BlockLength(channels, rounds), channels) == 8 * rounds + 1
  {
    NextIndex(rounds, channels, 0);
    ExactQuotient(8 * rounds, channels, 8 * Index(rounds, channels, 0));
  }

  lemma ExactQuotient(q: nat, d: nat, n: nat)
    requires d > 0 && n == Index(q, d, 0)
    ensures n / d == q
  {
    EveryPlace(n, d);
    IndexDistinct(q, 0, n / d, n % d, d);
  }

  // ----- A stream of blocks

  /** What must be heard of a passage. */
  ghost predicate IsHeardIn(sample: Option<int>, p: Passage, frame: nat)
    requires Is16Bit(p.first) && p.index <= 88 && frame <= |p.targets|
  {
    if frame == 0 then sample == Some(p.first)
    else
      var s := State(p.first, p.index);
      sample.Some? && IsHeard(sample.value, p.targets[frame - 1], StepOf(Reached(s, p.targets[..frame - 1])))
  }

  /** All blocks of a stream have as many channels and rounds. */
  ghost predicate IsStream(blocks: seq<seq<Passage>>, channels: nat, rounds: nat) {
    forall b :: 0 <= b < |blocks| ==> |blocks[b]| == channels && IsBlock(blocks[b], rounds)
  }

  ghost function EncodedStream(blocks: seq<seq<Passage>>, channels: nat, rounds: nat): Bytes
    requires IsStream(blocks, channels, rounds)
  {
    if blocks == [] then [] else EncodedBlock(blocks[0], rounds) + EncodedStream(blocks[1..], channels, rounds)
  }

  lemma SampleOfBlock(before: Bytes, ps: seq<Passage>, after: Bytes, rounds: nat, frame: nat, channel: nat)
    requires IsBlock(ps, rounds) && channel < |ps| && frame <= 8 * rounds
    ensures var data := before + EncodedBlock(ps, rounds) + after;
            IsHeardIn(Sample(data, |before|, BlockLength(|ps|, rounds), |ps|, frame, channel), ps[channel], frame)
  {
    hide EncodedBlock, DecodeChannel, FramesPerBlock, BlockLength, Sample;
    var block, data := EncodedBlock(ps, rounds), before + EncodedBlock(ps, rounds) + after;
    PayloadLength(ps, rounds);
    FramesOfBlock(|ps|, rounds);
    BlockOfStream(before, block, after);
    SampleInBlock(data, |before|, BlockLength(|ps|, rounds), |ps|, frame, channel);
    HeardInBlock(ps, rounds, frame, channel);
  }

  lemma BlockOfStream(before: Bytes, block: Bytes, after: Bytes)
    ensures BlockAt(before + block + after, |before|, |block|) == block
  {
  }

  lemma SampleInBlock(data: Bytes, pos: nat, blockSize: nat, channels: nat, frame: nat, channel: nat)
    requires channel < channels && 4 * channels <= blockSize && pos + blockSize <= |data|
    requires frame < FramesPerBlock(blockSize, channels)
    ensures var samples := DecodeChannel(BlockAt(data, pos, blockSize), channels, channel).samples;
            Sample(data, pos, blockSize, channels, frame, channel)
              == if frame < |samples| then Some(samples[frame]) else None
  {
    hide DecodeChannel, FramesPerBlock;
  }

  lemma HeardInBlock(ps: seq<Passage>, rounds: nat, frame: nat, channel: nat)
    requires IsBlock(ps, rounds) && channel < |ps| && frame <= 8 * rounds && 4 * |ps| <= |EncodedBlock(ps, rounds)|
    ensures var samples := DecodeChannel(EncodedBlock(ps, rounds), |ps|, channel).samples;
            frame < |samples| && IsHeardIn(Some(samples[frame]), ps[channel], frame)
  {
    hide EncodedBlock, DecodeChannel, Code, FeedAll, Reached, IsHeard, Tracks, StepOf;
    var p := ps[channel];
    BlockDecodes(ps, rounds, channel);
    if p.targets == [] {
      NothingToFeed(p);
    } else {
      EncodedChannelIsHeard(State(p.first, p.index), p.targets, if frame == 0 then 0 else frame - 1);
    }
  }

  lemma NothingToFeed(p: Passage)
    requires p.targets == [] && Is16Bit(p.first) && p.index <= 88
    ensures FeedAll(Track([p.first], State(p.first, p.index)), Code(State(p.first, p.index), [])).samples == [p.first]
  {
  }

  lemma LaterBlock(data: Bytes, pos: nat, blockSize: nat, channels: nat, frame: nat, channel: nat)
    requires channel < channels && 4 * channels <= blockSize && pos + blockSize <= |data|
    ensures var frames := FramesPerBlock(blockSize, channels);
            Sample(data, pos, blockSize, channels, frames + frame, channel)
              == Sample(data, pos + blockSize, blockSize, channels, frame, channel)
  {
    hide DecodeChannel, FramesPerBlock;
  }

  lemma {:induction false} StreamIsHeardFrom(before: Bytes, blocks: seq<seq<Passage>>, channels: nat, rounds: nat,
                                             b: nat, frame: nat, channel: nat)
    requires IsStream(blocks, channels, rounds) && b < |blocks| && channel < channels && frame <= 8 * rounds
    ensures IsHeardIn(Sample(before + EncodedStream(blocks, channels, rounds), |before|,
                             BlockLength(channels, rounds), channels, Index(b, 8 * rounds + 1, frame), channel),
                      blocks[b][channel], frame)
    decreases |blocks|
  {
    hide EncodedBlock, IsHeardIn, FramesPerBlock, Sample, BlockLength, IsBlock;
    var first, rest := EncodedBlock(blocks[0], rounds), EncodedStream(blocks[1..], channels, rounds);
    var data := before + EncodedStream(blocks, channels, rounds);
    assert data == before + first + rest;
    if b == 0 {
      SampleOfBlock(before, blocks[0], rest, rounds, frame, channel);
    } else {
      PayloadLength(blocks[0], rounds);
      FramesOfBlock(channels, rounds);
      NextIndex(b - 1, 8 * rounds + 1, frame);
      LaterBlock(data, |before|, BlockLength(channels, rounds), channels, Index(b - 1, 8 * rounds + 1, frame), channel);
      StreamIsHeardFrom(before + first, blocks[1..], channels, rounds, b - 1, frame, channel);
    }
  }

  /**
   Whatever samples a decoder leaves for a stream that was written this way
   (`Decoded` is what decompression ensures), the first of each block is the
   one meant, and every other is within an eighth of its step, and less than
   one, of the one meant, in its own channel and frame.
   */
  lemma EncodedStreamIsHeard(blocks: seq<seq<Passage>>, channels: nat, rounds: nat, out: seq<Option<int>>, total: nat,
                             b: nat, frame: nat, channel: nat)
    requires IsStream(blocks, channels, rounds) && b < |blocks| && channel < channels && frame <= 8 * rounds
    requires BlockLength(channels, rounds) > 0
    requires Decoded(out, EncodedStream(blocks, channels, rounds), BlockLength(channels, rounds), channels, total)
    requires Index(b, 8 * rounds + 1, frame) < total
    ensures var place := Index(Index(b, 8 * rounds + 1, frame), channels, channel);
            place < |out| && IsHeardIn(out[place], blocks[b][channel], frame)
  {
    hide EncodedStream, Sample, BlockLength, IsHeardIn, IsStream;
    StreamIsHeardFrom([], blocks, channels, rounds, b, frame, channel);
    assert [] + EncodedStream(blocks, channels, rounds) == EncodedStream(blocks, channels, rounds);
  }
}
