/**
 AIL_decompress_ADPCM (WebAssembly/shims/Mss.H:1106-1229): the loops over
 blocks, channel groups and nibbles, and what they leave in the output.
 */
module AdpcmDecoder {
  import opened Common
  import opened Adpcm

  // ----- Places in the output

  /** The output is interleaved: a frame's samples, one per channel, stand together. */
  function Index(frame: nat, channels: nat, channel: nat): nat {
    frame * channels + channel
  }

  lemma IndexBounds(frame: nat, frames: nat, channels: nat, channel: nat)
    requires channel < channels
    ensures frame < frames <==> Index(frame, channels, channel) < Index(frames, channels, 0)
  {
    if frame < frames {
      ProductGrows(frame + 1, frames, channels);
    } else {
      ProductGrows(frames, frame, channels);
    }
  }

  lemma ProductGrows(a: nat, b: nat, c: nat)
    requires a <= b
    ensures a * c <= b * c
  {
  }

  lemma IndexSteps(frame: nat, channels: nat, channel: nat)
    ensures Index(0, channels, 0) == 0
    ensures Index(frame, channels, channel + 1) == Index(frame, channels, channel) + 1
    ensures Index(frame, channels, channels) == Index(frame + 1, channels, 0)
  {
  }

  lemma IndexGrows(frame: nat, later: nat, channels: nat, channel: nat)
    requires frame <= later
    ensures Index(frame, channels, 0) <= Index(later, channels, channel)
  {
    ProductGrows(frame, later, channels);
  }

  lemma IndexDistinct(f: nat, c: nat, g: nat, d: nat, channels: nat)
    requires c < channels && d < channels && Index(f, channels, c) == Index(g, channels, d)
    ensures f == g && c == d
  {
    if f < g {
      ProductGrows(f + 1, g, channels);
    } else if g < f {
      ProductGrows(g + 1, f, channels);
    }
  }

  /** Every place of the output is a frame and a channel. */
  lemma EveryPlace(i: nat, channels: nat)
    requires channels > 0
    ensures i == Index(i / channels, channels, i % channels) && i % channels < channels
  {
  }

  // ----- One nibble

  method DecodeNibble(predictor: array<int>, stepIndex: array<int>, channel: nat, nibble: nat) returns (sample: int)
    requires predictor != stepIndex && channel < predictor.Length == stepIndex.Length && nibble < 16
    requires State(predictor[channel], stepIndex[channel]).Valid()
    modifies predictor, stepIndex
    ensures State(predictor[channel], stepIndex[channel])
              == Next(State(old(predictor[channel]), old(stepIndex[channel])), nibble)
    ensures sample == predictor[channel]
    ensures forall k :: 0 <= k < predictor.Length && k != channel ==>
              predictor[k] == old(predictor[k]) && stepIndex[k] == old(stepIndex[k])
  {
    var step := STEP_TABLE[stepIndex[channel]];
    var diff := (2 * (nibble % 8) + 1) * step / 8;
    predictor[channel] := predictor[channel] + (if nibble >= 8 then -diff else diff);
    if predictor[channel] > 32767 {
      predictor[channel] := 32767;
    } else if predictor[channel] < -32768 {
      predictor[channel] := -32768;
    }
    stepIndex[channel] := stepIndex[channel] + INDEX_TABLE[nibble];
    if stepIndex[channel] < 0 {
      stepIndex[channel] := 0;
    } else if stepIndex[channel] > 88 {
      stepIndex[channel] := 88;
    }
    sample := predictor[channel];
  }

  // ----- What the block loop maintains

  /** The decoder's three arrays stand for one track per channel. */
  ghost predicate Tracking(predictor: seq<int>, stepIndex: seq<int>, written: seq<nat>, tracks: seq<Track>) {
    && |predictor| == |stepIndex| == |written| == |tracks|
    && forall c :: 0 <= c < |tracks| ==>
         tracks[c].state.Valid() && State(predictor[c], stepIndex[c]) == tracks[c].state
             && written[c] == |tracks[c].samples|
  }

  /** What a place of the output holds: a sample of the block if its channel has reached it. */
  ghost function Placed(before: seq<Option<int>>, tracks: seq<Track>, base: nat, frame: nat, channel: nat): Option<int>
    requires channel < |tracks| && Index(base + frame, |tracks|, channel) < |before|
  {
    if frame < |tracks[channel].samples| then Some(tracks[channel].samples[frame])
    else before[Index(base + frame, |tracks|, channel)]
  }

  ghost predicate IsPlaced(out: seq<Option<int>>, before: seq<Option<int>>, tracks: seq<Track>, base: nat, f: nat,
                           c: nat)
    requires |out| == |before|
  {
    && c < |tracks| && Index(base + f, |tracks|, c) < |out|
    && out[Index(base + f, |tracks|, c)] == Placed(before, tracks, base, f, c)
  }

  ghost predicate Output(out: seq<Option<int>>, before: seq<Option<int>>, tracks: seq<Track>, base: nat, frames: nat) {
    && |out| == |before| && Index(base + frames, |tracks|, 0) <= |out|
    && (forall i :: 0 <= i < |out| && !(Index(base, |tracks|, 0) <= i < Index(base + frames, |tracks|, 0)) ==>
          out[i] == before[i])
    && (forall f: nat, c: nat :: f < frames && c < |tracks| ==> IsPlaced(out, before, tracks, base, f, c))
  }

  /** One more sample of one channel, stored if the block's frames reach that far. */
  lemma OneMoreSample(out: seq<Option<int>>, after: seq<Option<int>>, before: seq<Option<int>>, tracks: seq<Track>,
                      base: nat, frames: nat, channel: nat, track: Track)
    requires Output(out, before, tracks, base, frames) && channel < |tracks|
    requires |track.samples| > 0 && track.samples[..|track.samples| - 1] == tracks[channel].samples
    requires var written := |tracks[channel].samples|;
             Index(base + written, |tracks|, channel) < |out| || written >= frames
    requires var written := |tracks[channel].samples|;
             after == if written < frames
                      then out[Index(base + written, |tracks|, channel) := Some(track.samples[written])] else out
    ensures Output(after, before, tracks[channel := track], base, frames)
  {
    hide Index;
    var written, channels := |tracks[channel].samples|, |tracks|;
    var more := tracks[channel := track];
    if written < frames {
      IndexBounds(base + written, base + frames, channels, channel);
      IndexBounds(base + written, base, channels, channel);
    }
    forall f: nat, c: nat | f < frames && c < |more| ensures IsPlaced(after, before, more, base, f, c) {
      IndexBounds(base + f, base + frames, channels, c);
      assert IsPlaced(out, before, tracks, base, f, c);
      if written < frames && Index(base + f, channels, c) == Index(base + written, channels, channel) {
        IndexDistinct(base + f, c, base + written, channel, channels);
      }
    }
  }

  /** Decodes one nibble of one channel, and stores the sample unless the block has no frame for it. */
  method StoreNibble(out: array<Option<int>>, predictor: array<int>, stepIndex: array<int>, written: array<nat>,
                     channel: nat, nibble: nat, base: nat, frames: nat,
                     ghost before: seq<Option<int>>, ghost tracks: seq<Track>)
    requires predictor != stepIndex && channel < |tracks| && nibble < 16
    requires Tracking(predictor[..], stepIndex[..], written[..], tracks)
    requires Output(out[..], before, tracks, base, frames)
    modifies out, predictor, stepIndex, written
    ensures Tracking(predictor[..], stepIndex[..], written[..], tracks[channel := Feed(tracks[channel], nibble)])
    ensures Output(out[..], before, tracks[channel := Feed(tracks[channel], nibble)], base, frames)
  {
    hide Next, Output, Index;
    var sample := DecodeNibble(predictor, stepIndex, channel, nibble);
    ghost var outBefore := out[..];
    ghost var track := Feed(tracks[channel], nibble);
    assert track.samples[..|track.samples| - 1] == tracks[channel].samples;
    if written[channel] < frames {
      PlaceExists(outBefore, before, tracks, base, frames, channel, written[channel]);
      out[(base + written[channel]) * written.Length + channel] := Some(sample);
    }
    OneMoreSample(outBefore, out[..], before, tracks, base, frames, channel, track);
    written[channel] := written[channel] + 1;
  }

  lemma PlaceExists(out: seq<Option<int>>, before: seq<Option<int>>, tracks: seq<Track>, base: nat, frames: nat,
                    channel: nat, frame: nat)
    requires Output(out, before, tracks, base, frames) && channel < |tracks| && frame < frames
    ensures Index(base + frame, |tracks|, channel) == (base + frame) * |tracks| + channel < |out|
  {
    IndexBounds(base + frame, base + frames, |tracks|, channel);
  }

  // ----- The payload of a block

  function Payload(block: Bytes, channels: nat): Bytes
    requires 4 * channels <= |block|
  {
    block[4 * channels..]
  }

  /** Every channel's track once the first `taken` payload bytes have been decoded. */
  ghost function TracksAt(block: Bytes, channels: nat, taken: nat): (tracks: seq<Track>)
    requires channels > 0 && 4 * channels <= |block| && taken <= |Payload(block, channels)|
    ensures |tracks| == channels
    ensures forall c :: 0 <= c < channels ==> tracks[c].state.Valid()
  {
    seq(channels, c requires 0 <= c < channels =>
      FeedAll(Start(block, c), ChannelBytes(Payload(block, channels)[..taken], channels, c)))
  }

  lemma OneMoreByte(block: Bytes, channels: nat, taken: nat)
    requires channels > 0 && 4 * channels <= |block| && taken < |Payload(block, channels)|
    ensures Owner(taken, channels) < channels
    ensures TracksAt(block, channels, taken + 1) ==
            TracksAt(block, channels, taken)[Owner(taken, channels) :=
              FeedByte(TracksAt(block, channels, taken)[Owner(taken, channels)], block[4 * channels + taken])]
  {
    hide FeedByte, Start;
    var payload, owner := Payload(block, channels), Owner(taken, channels);
    assert payload[..taken + 1][..taken] == payload[..taken];
    var b := block[4 * channels + taken];
    assert payload[taken] == b;
    forall c | 0 <= c < channels
      ensures ChannelBytes(payload[..taken + 1], channels, c) ==
              if c == owner then ChannelBytes(payload[..taken], channels, c) + [b]
                  else ChannelBytes(payload[..taken], channels, c)
    {
    }
    var bytes := ChannelBytes(payload[..taken], channels, owner);
    assert (bytes + [b])[..|bytes|] == bytes;
  }

  /** Bytes come in groups of four, one group per channel in turn. */
  lemma OwnerOfGroup(round: nat, channels: nat, channel: nat, i: nat)
    requires channel < channels && i < 4
    ensures Owner(4 * Index(round, channels, channel) + i, channels) == channel
  {
    assert (4 * Index(round, channels, channel) + i) / 4 == Index(round, channels, channel);
    Modulo(round, channels, channel);
  }

  lemma Modulo(quotient: nat, divisor: nat, rest: nat)
    requires rest < divisor
    ensures (quotient * divisor + rest) % divisor == rest
  {
    var sum := quotient * divisor + rest;
    assert sum == sum / divisor * divisor + sum % divisor;
    IndexDistinct(quotient, rest, sum / divisor, sum % divisor, divisor);
  }

  /** The two nibbles of the next byte of a channel. */
  method DecodeByte(out: array<Option<int>>, predictor: array<int>, stepIndex: array<int>, written: array<nat>,
                    block: Bytes, channels: nat, channel: nat, cursor: nat, base: nat, frames: nat,
                    ghost before: seq<Option<int>>)
    requires predictor != stepIndex && 0 < 4 * channels <= cursor < |block|
    requires Owner(cursor - 4 * channels, channels) == channel
    requires Tracking(predictor[..], stepIndex[..], written[..], TracksAt(block, channels, cursor - 4 * channels))
    requires Output(out[..], before, TracksAt(block, channels, cursor - 4 * channels), base, frames)
    modifies out, predictor, stepIndex, written
    ensures Tracking(predictor[..], stepIndex[..], written[..], TracksAt(block, channels, cursor + 1 - 4 * channels))
    ensures Output(out[..], before, TracksAt(block, channels, cursor + 1 - 4 * channels), base, frames)
  {
    hide TracksAt, Tracking, Output, Feed, Owner;
    OneMoreByte(block, channels, cursor - 4 * channels);
    var byte := block[cursor];
    ghost var tracks := TracksAt(block, channels, cursor - 4 * channels);
    StoreNibble(out, predictor, stepIndex, written, channel, Low(byte), base, frames, before, tracks);
    ghost var half := tracks[channel := Feed(tracks[channel], Low(byte))];
    StoreNibble(out, predictor, stepIndex, written, channel, High(byte), base, frames, before, half);
    assert half[channel := Feed(half[channel], High(byte))] == tracks[channel := FeedByte(tracks[channel], byte)];
  }

  /** Up to four bytes of one channel. */
  method DecodeGroup(out: array<Option<int>>, predictor: array<int>, stepIndex: array<int>, written: array<nat>,
                     block: Bytes, channels: nat, channel: nat, start: nat, base: nat, frames: nat,
                     ghost round: nat, ghost before: seq<Option<int>>) returns (cursor: nat)
    requires predictor != stepIndex && channel < channels && 4 * channels <= start < |block|
    requires start == 4 * channels + 4 * Index(round, channels, channel)
    requires Tracking(predictor[..], stepIndex[..], written[..], TracksAt(block, channels, start - 4 * channels))
    requires Output(out[..], before, TracksAt(block, channels, start - 4 * channels), base, frames)
    modifies out, predictor, stepIndex, written
    ensures start < cursor <= |block| && (cursor == |block| || cursor == start + 4)
    ensures Tracking(predictor[..], stepIndex[..], written[..], TracksAt(block, channels, cursor - 4 * channels))
    ensures Output(out[..], before, TracksAt(block, channels, cursor - 4 * channels), base, frames)
  {
    hide TracksAt, Tracking, Output, Index, Owner;
    cursor := start;
    var i := 0;
    while i < 4 && cursor < |block|
      invariant 0 <= i <= 4 && cursor == start + i <= |block|
      invariant Tracking(predictor[..], stepIndex[..], written[..], TracksAt(block, channels, cursor - 4 * channels))
      invariant Output(out[..], before, TracksAt(block, channels, cursor - 4 * channels), base, frames)
    {
      OwnerOfGroup(round, channels, channel, i);
      DecodeByte(out, predictor, stepIndex, written, block, channels, channel, cursor, base, frames, before);
      i := i + 1;
      cursor := cursor + 1;
    }
  }

  /** All channel groups of a block's payload. */
  method DecodePayload(out: array<Option<int>>, predictor: array<int>, stepIndex: array<int>, written: array<nat>,
                       block: Bytes, channels: nat, base: nat, frames: nat, ghost before: seq<Option<int>>)
    requires predictor != stepIndex && 0 < 4 * channels <= |block|
    requires Tracking(predictor[..], stepIndex[..], written[..], TracksAt(block, channels, 0))
    requires Output(out[..], before, TracksAt(block, channels, 0), base, frames)
    modifies out, predictor, stepIndex, written
    ensures Output(out[..], before, TracksAt(block, channels, |Payload(block, channels)|), base, frames)
  {
    hide TracksAt, Tracking, Output, Index;
    var cursor := 4 * channels;
    ghost var round := 0;
    IndexSteps(0, channels, 0);
    while cursor < |block|
      invariant 4 * channels <= cursor <= |block|
      invariant cursor == |block| || cursor == 4 * channels + 4 * Index(round, channels, 0)
      invariant Tracking(predictor[..], stepIndex[..], written[..], TracksAt(block, channels, cursor - 4 * channels))
      invariant Output(out[..], before, TracksAt(block, channels, cursor - 4 * channels), base, frames)
    {
      var channel := 0;
      ghost var from := cursor;
      while channel < channels && cursor < |block|
        invariant 0 <= channel <= channels && from <= cursor <= |block| && (channel > 0 ==> from < cursor)
        invariant cursor == |block| || cursor == 4 * channels + 4 * Index(round, channels, channel)
        invariant Tracking(predictor[..], stepIndex[..], written[..], TracksAt(block, channels, cursor - 4 * channels))
        invariant Output(out[..], before, TracksAt(block, channels, cursor - 4 * channels), base, frames)
      {
        cursor := DecodeGroup(out, predictor, stepIndex, written, block, channels, channel, cursor, base, frames,
                              round, before);
        IndexSteps(round, channels, channel);
        channel := channel + 1;
      }
      IndexSteps(round, channels, channels);
      round := round + 1;
    }
  }

  // ----- One block

  ghost function Untouched(block: Bytes, channels: nat, done: nat): (tracks: seq<Track>)
    requires channels > 0 && 4 * channels <= |block| && done <= channels
    ensures |tracks| == channels
  {
    seq(channels, c requires 0 <= c < channels => if c < done then Start(block, c) else Start(block, c).(samples := []))
  }

  lemma StartsUntouched(block: Bytes, channels: nat, out: seq<Option<int>>, base: nat, frames: nat)
    requires channels > 0 && 4 * channels <= |block| && Index(base + frames, channels, 0) <= |out|
    ensures Output(out, out, Untouched(block, channels, 0), base, frames)
  {
    hide Start, Index;
    var tracks := Untouched(block, channels, 0);
    forall f: nat, c: nat | f < frames && c < |tracks| ensures IsPlaced(out, out, tracks, base, f, c) {
      IndexBounds(base + f, base + frames, channels, c);
      assert tracks[c].samples == [];
    }
  }

  lemma StartsTracked(block: Bytes, channels: nat)
    requires channels > 0 && 4 * channels <= |block|
    ensures Untouched(block, channels, channels) == TracksAt(block, channels, 0)
    ensures forall c :: 0 <= c < channels ==> TracksAt(block, channels, 0)[c] == Start(block, c)
  {
    hide Start;
    forall c | 0 <= c < channels ensures TracksAt(block, channels, 0)[c] == Start(block, c) {
      assert ChannelBytes(Payload(block, channels)[..0], channels, c) == [];
    }
  }

  method DecodeBlock(out: array<Option<int>>, block: Bytes, channels: nat, base: nat, frames: nat)
    requires 0 < channels <= 8 && 4 * channels <= |block| && frames > 0
             && Index(base + frames, channels, 0) <= out.Length
    modifies out
    ensures Output(out[..], old(out[..]), TracksAt(block, channels, |Payload(block, channels)|), base, frames)
  {
    hide Output, Index, TracksAt;
    ghost var before := out[..];
    var predictor, stepIndex, written := new int[channels](_ => 0), new int[channels](_ => 0),
        new nat[channels](_ => 1);
    for channel := 0 to channels
      invariant out[..] == before && forall c :: 0 <= c < channels ==> written[c] == 1
      invariant forall c :: 0 <= c < channel ==> State(predictor[c], stepIndex[c]) == Start(block, c).state
    {
      predictor[channel] := Signed(block[4 * channel], block[4 * channel + 1]);
      var index: int := block[4 * channel + 2];
      stepIndex[channel] := if index > 88 then 88 else index;
    }
    StartsUntouched(block, channels, before, base, frames);
    StartsTracked(block, channels);
    PlaceFirstFrame(out, predictor, block, channels, base, frames);
    assert Tracking(predictor[..], stepIndex[..], written[..], TracksAt(block, channels, 0));
    DecodePayload(out, predictor, stepIndex, written, block, channels, base, frames, before);
  }

  /** The header predictors are the block's first frame. */
  method PlaceFirstFrame(out: array<Option<int>>, predictor: array<int>, block: Bytes, channels: nat, base: nat,
                         frames: nat)
    requires 0 < channels == predictor.Length && 4 * channels <= |block| && frames > 0
    requires Output(out[..], out[..], Untouched(block, channels, 0), base, frames)
    requires forall c :: 0 <= c < channels ==> predictor[c] == Start(block, c).state.predictor
    modifies out
    ensures Output(out[..], old(out[..]), Untouched(block, channels, channels), base, frames)
  {
    hide Output, Index;
    ghost var before := out[..];
    for channel := 0 to channels
      invariant Output(out[..], before, Untouched(block, channels, channel), base, frames)
    {
      ghost var outBefore, tracks := out[..], Untouched(block, channels, channel);
      PlaceExists(outBefore, before, tracks, base, frames, channel, 0);
      out[base * channels + channel] := Some(predictor[channel]);
      OneMoreSample(outBefore, out[..], before, tracks, base, frames, channel, Start(block, channel));
      assert tracks[channel := Start(block, channel)] == Untouched(block, channels, channel + 1);
    }
  }
}
