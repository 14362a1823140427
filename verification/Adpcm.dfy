/**
 The IMA ADPCM decoder of WebAssembly/shims/Mss.H:970-979 and 1065-1229: an
 interleaved decoder over blocks, against one that takes each channel's bytes
 apart and decodes them alone.
 */
module Adpcm {
  import opened Common

  /** The rows in which the source writes its table. */
  function StepRow(k: nat): (row: seq<int>)
    requires k < 9
    ensures |row| == if k == 8 then 9 else 10
  {
    match k
    case 0 => [7, 8, 9, 10, 11, 12, 13, 14, 16, 17]
    case 1 => [19, 21, 23, 25, 28, 31, 34, 37, 41, 45]
    case 2 => [50, 55, 60, 66, 73, 80, 88, 97, 107, 118]
    case 3 => [130, 143, 157, 173, 190, 209, 230, 253, 279, 307]
    case 4 => [337, 371, 408, 449, 494, 544, 598, 658, 724, 796]
    case 5 => [876, 963, 1060, 1166, 1282, 1411, 1552, 1707, 1878, 2066]
    case 6 => [2272, 2499, 2749, 3024, 3327, 3660, 4026, 4428, 4871, 5358]
    case 7 => [5894, 6484, 7132, 7845, 8630, 9493, 10442, 11487, 12635, 13899]
    case _ => [15289, 16818, 18500, 20350, 22385, 24623, 27086, 29794, 32767]
  }

  const STEP_TABLE: seq<int> :=
    StepRow(0) + StepRow(1) + StepRow(2) + StepRow(3) + StepRow(4) + StepRow(5) + StepRow(6) + StepRow(7) + StepRow(8)

  const INDEX_TABLE: seq<int> := [-1, -1, -1, -1, 2, 4, 6, 8, -1, -1, -1, -1, 2, 4, 6, 8]

  function Clamp(value: int, low: int, high: int): (r: int)
    requires low <= high
    ensures low <= r <= high
  {
    if value < low then low else if value > high then high else value
  }

  // ----- One nibble

  /** A channel's running state: a 16-bit predictor and an index into the step table. */
  datatype State = State(predictor: int, index: int) {
    predicate Valid() {
      -32768 <= predictor <= 32767 && 0 <= index <= 88
    }
  }

  function Difference(step: int, nibble: nat): int {
    (2 * (nibble % 8) + 1) * step / 8
  }

  function Next(s: State, nibble: nat): (next: State)
    requires s.Valid() && nibble < 16
    ensures next.Valid()
  {
    var difference := Difference(STEP_TABLE[s.index], nibble);
    State(Clamp(s.predictor + (if nibble >= 8 then -difference else difference), -32768, 32767),
          Clamp(s.index + INDEX_TABLE[nibble], 0, 88))
  }

  // ----- One channel on its own

  /** The samples a channel has produced, and its state after them. */
  datatype Track = Track(samples: seq<int>, state: State)

  function Feed(t: Track, nibble: nat): (r: Track)
    requires t.state.Valid() && nibble < 16
    ensures r.state.Valid()
  {
    var next := Next(t.state, nibble);
    Track(t.samples + [next.predictor], next)
  }

  function Low(b: Byte): nat {
    b % 16
  }

  function High(b: Byte): nat {
    b / 16
  }

  /** A byte is two samples, the low nibble's first. */
  function FeedByte(t: Track, b: Byte): (r: Track)
    requires t.state.Valid()
    ensures r.state.Valid() && |r.samples| == |t.samples| + 2
  {
    Feed(Feed(t, Low(b)), High(b))
  }

  function FeedAll(t: Track, bytes: Bytes): (r: Track)
    requires t.state.Valid()
    ensures r.state.Valid() && |r.samples| == |t.samples| + 2 * |bytes|
  {
    if bytes == [] then t else FeedByte(FeedAll(t, bytes[..|bytes| - 1]), bytes[|bytes| - 1])
  }

  function Signed(low: int, high: int): (r: int)
    requires 0 <= low < 256 && 0 <= high < 256
    ensures -32768 <= r <= 32767
  {
    if high >= 128 then low + 256 * high - 65536 else low + 256 * high
  }

  /** The block header gives each channel its first sample and its step index. */
  function Start(block: Bytes, channel: nat): (t: Track)
    requires 4 * channel + 4 <= |block|
    ensures t.state.Valid() && |t.samples| == 1
  {
    var predictor := Signed(block[4 * channel], block[4 * channel + 1]);
    Track([predictor], State(predictor, Clamp(block[4 * channel + 2], 0, 88)))
  }

  /** The channel that the k-th payload byte belongs to: four bytes for each in turn. */
  function Owner(k: nat, channels: nat): nat
    requires channels > 0
  {
    k / 4 % channels
  }

  /** One channel's bytes, taken out of the interleaving. */
  function ChannelBytes(payload: Bytes, channels: nat, channel: nat): Bytes
    requires channels > 0
  {
    if payload == [] then []
    else
      var before := ChannelBytes(payload[..|payload| - 1], channels, channel);
      if Owner(|payload| - 1, channels) == channel then before + [payload[|payload| - 1]] else before
  }

  /** A channel of a block, decoded by itself. */
  function DecodeChannel(block: Bytes, channels: nat, channel: nat): (t: Track)
    requires channel < channels && 4 * channels <= |block|
    ensures t.state.Valid()
  {
    FeedAll(Start(block, channel), ChannelBytes(block[4 * channels..], channels, channel))
  }

  // ----- Frames in blocks

  function FramesPerBlock(blockBytes: nat, channels: nat): nat {
    if channels == 0 || blockBytes < channels * 4 then 0 else (blockBytes - channels * 4) * 2 / channels + 1
  }

  function BlockAt(data: Bytes, pos: nat, blockSize: nat): Bytes
    requires pos <= |data|
  {
    data[pos..Min(|data|, pos + blockSize)]
  }

  /** The frames that the blocks from `pos` on can carry. */
  function Capacity(length: nat, pos: nat, blockSize: nat, channels: nat): nat
    requires blockSize > 0
    decreases if pos <= length then length - pos + 1 else 0
  {
    if pos + channels * 4 > length then 0
    else
      var avail := Min(length - pos, blockSize);
      FramesPerBlock(avail, channels) + if avail < blockSize then 0
          else Capacity(length, pos + blockSize, blockSize, channels)
  }

  /** A sample as the per-channel decoder gives it: None where a block's frame count outruns the channel's bytes. */
  function Sample(data: Bytes, pos: nat, blockSize: nat, channels: nat, frame: nat, channel: nat): Option<int>
    requires blockSize > 0 && channel < channels
    decreases if pos <= |data| then |data| - pos + 1 else 0
  {
    if pos + channels * 4 > |data| || blockSize < channels * 4 then None
    else
      var block := BlockAt(data, pos, blockSize);
      var frames := FramesPerBlock(|block|, channels);
      if frame >= frames then Sample(data, pos + blockSize, blockSize, channels, frame - frames, channel)
      else
        var samples := DecodeChannel(block, channels, channel).samples;
        if frame < |samples| then Some(samples[frame]) else None
  }
}
