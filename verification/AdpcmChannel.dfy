/**
 A whole channel through encoder and decoder: what an encoder that follows
 the quantiser writes is heard within an eighth of the step
 (WebAssembly/shims/Mss.H:1065-1229).
 */
module AdpcmChannel {
  import opened Common
  import opened Adpcm
  import opened AdpcmQuantiser

  /** The encoder's own idea of the decoder's state, after these targets. */
  ghost function Reached(s: State, targets: seq<int>): (r: State)
    requires s.Valid()
    ensures r.Valid()
  {
    if targets == [] then s
    else var before := Reached(s, targets[..|targets| - 1]); Next(before, NibbleFor(before, targets[|targets| - 1]))
  }

  /** The nibbles it writes. */
  ghost function Nibbles(s: State, targets: seq<int>): (nibbles: seq<nat>)
    requires s.Valid()
    ensures |nibbles| == |targets|
  {
    if targets == [] then []
    else
      var init, last := targets[..|targets| - 1], targets[|targets| - 1];
      Nibbles(s, init) + [NibbleFor(Reached(s, init), last)]
  }

  lemma {:induction false} NibbleAt(s: State, targets: seq<int>, k: nat)
    requires s.Valid() && k < |targets|
    ensures Nibbles(s, targets)[k] == NibbleFor(Reached(s, targets[..k]), targets[k]) < 16
    ensures Reached(s, targets[..k + 1]) == Next(Reached(s, targets[..k]), Nibbles(s, targets)[k])
  {
    hide NibbleFor, Next;
    var init := targets[..|targets| - 1];
    if k < |targets| - 1 {
      NibbleAt(s, init, k);
      assert init[..k] == targets[..k] && init[..k + 1] == targets[..k + 1];
    } else {
      assert targets[..k + 1] == targets;
    }
  }

  /** No target is more than two steps from where the decoder will be. */
  ghost predicate Tracks(s: State, targets: seq<int>)
    requires s.Valid()
  {
    forall k :: 0 <= k < |targets| ==> Is16Bit(targets[k]) && IsNear(Reached(s, targets[..k]), targets[k])
  }

  ghost predicate IsNear(s: State, target: int)
    requires s.Valid()
  {
    Abs(target - s.predictor) <= 2 * StepOf(s)
  }

  /** A sample within an eighth of the step of its target, and less than one. */
  ghost predicate IsHeard(sample: int, target: int, step: nat) {
    8 * Abs(sample - target) < step + 8
  }

  // ----- Any signal that moves slowly is tracked

  lemma NextStepIsNoMuchSmaller(s: State, nibble: nat)
    requires s.Valid() && nibble < 16
    ensures 7 * StepOf(s) <= 8 * StepOf(Next(s, nibble))
  {
    hide STEP_TABLE, Next, StepOf;
    NibbleMovesTheIndex(s, nibble);
    var next := Next(s, nibble);
    StepsOfIndices(s, next);
  }

  lemma StepsOfIndices(s: State, next: State)
    requires s.Valid() && next.Valid() && next.index >= s.index - 1
    ensures 7 * StepOf(s) <= 8 * StepOf(next)
  {
    hide STEP_TABLE;
    if next.index == s.index - 1 {
      TableRises(next.index);
    } else if next.index > s.index {
      StepsGrow(s.index, next.index);
    }
    StepsAreBounded(s.index);
  }

  ghost predicate IsSlow(first: int, targets: seq<int>) {
    && Is16Bit(first) && forall k :: 0 <= k < |targets| ==>
         Is16Bit(targets[k]) && Abs(targets[k] - (if k == 0 then first else targets[k - 1])) <= 7
  }

  /** Neighbours that differ by at most seven can be followed from any step. */
  lemma {:induction false} SlowSignalsAreTracked(s: State, targets: seq<int>)
    requires s.Valid() && IsSlow(s.predictor, targets)
    ensures Tracks(s, targets)
  {
    hide NibbleFor, Next, StepOf, IsHeard, Reached;
    if targets != [] {
      var k := |targets| - 1;
      var init := targets[..k];
      SlowSignalsAreTracked(s, init);
      TracksUpTo(s, targets, k);
      LastIsNear(s, targets);
    }
  }

  lemma TracksUpTo(s: State, targets: seq<int>, k: nat)
    requires s.Valid() && k <= |targets| && Tracks(s, targets[..k])
    ensures forall i :: 0 <= i < k ==> Is16Bit(targets[i]) && IsNear(Reached(s, targets[..i]), targets[i])
  {
    hide Reached, StepOf;
    forall i | 0 <= i < k ensures Is16Bit(targets[i]) && IsNear(Reached(s, targets[..i]), targets[i]) {
      assert targets[..k][i] == targets[i] && targets[..k][..i] == targets[..i];
    }
  }

  lemma LastIsNear(s: State, targets: seq<int>)
    requires s.Valid() && IsSlow(s.predictor, targets) && targets != []
    requires forall i :: 0 <= i < |targets| - 1 ==> IsNear(Reached(s, targets[..i]), targets[i])
    ensures IsNear(Reached(s, targets[..|targets| - 1]), targets[|targets| - 1])
  {
    hide NibbleFor, Next, StepOf, STEP_TABLE;
    var k := |targets| - 1;
    if k == 0 {
      assert targets[..0] == [];
    } else {
      var before := Reached(s, targets[..k - 1]);
      NibbleAt(s, targets, k - 1);
      assert IsNear(before, targets[k - 1]);
      QuantiserLaw(before, targets[k - 1]);
      NextStepIsNoMuchSmaller(before, NibbleFor(before, targets[k - 1]));
      StillNear(Reached(s, targets[..k]).predictor, targets[k - 1], targets[k], StepOf(before),
                StepOf(Reached(s, targets[..k])));
    }
  }

  lemma StillNear(predictor: int, before: int, target: int, step: nat, next: nat)
    requires 8 * Abs(predictor - before) < step + 8 && Abs(target - before) <= 7 && 7 * step <= 8 * next && next >= 7
    ensures Abs(target - predictor) <= 2 * next
  {
  }

  // ----- Through the decoder

  ghost function FeedNibbles(t: Track, nibbles: seq<nat>): (r: Track)
    requires t.state.Valid() && forall k :: 0 <= k < |nibbles| ==> nibbles[k] < 16
    ensures r.state.Valid()
  {
    if nibbles == [] then t else Feed(FeedNibbles(t, nibbles[..|nibbles| - 1]), nibbles[|nibbles| - 1])
  }

  /** Two nibbles to a byte, the earlier in the lower half. */
  ghost function Packed(nibbles: seq<nat>): (bytes: Bytes)
    requires forall k :: 0 <= k < |nibbles| ==> nibbles[k] < 16
    ensures |bytes| == |nibbles| / 2
  {
    seq(|nibbles| / 2, i requires 0 <= i < |nibbles| / 2 => nibbles[2 * i] + 16 * nibbles[2 * i + 1])
  }

  lemma {:induction false} PackedIsFed(t: Track, nibbles: seq<nat>)
    requires t.state.Valid() && forall k :: 0 <= k < |nibbles| ==> nibbles[k] < 16
    requires |nibbles| % 2 == 0
    ensures FeedAll(t, Packed(nibbles)) == FeedNibbles(t, nibbles)
  {
    hide Feed;
    if nibbles != [] {
      var n := |nibbles|;
      var init := nibbles[..n - 2];
      PackedIsFed(t, init);
      assert Packed(nibbles)[..n / 2 - 1] == Packed(init);
      var b := Packed(nibbles)[n / 2 - 1];
      assert Low(b) == nibbles[n - 2] && High(b) == nibbles[n - 1];
      assert nibbles[..n - 1][..n - 2] == init;
    }
  }

  /** After k nibbles: the encoder's idea of the state, and sample i of those before. */
  lemma {:induction false} FedNibbles(t: Track, nibbles: seq<nat>, targets: seq<int>, k: nat, i: nat)
    requires t.state.Valid() && k <= |targets| && nibbles == Nibbles(t.state, targets)
    requires forall j :: 0 <= j < |nibbles| ==> nibbles[j] < 16
    ensures var r := FeedNibbles(t, nibbles[..k]);
            && r.state == Reached(t.state, targets[..k]) && |r.samples| == |t.samples| + k
            && (i < |t.samples| ==> r.samples[i] == t.samples[i])
            && (|t.samples| <= i < |t.samples| + k ==>
                  r.samples[i] == Reached(t.state, targets[..i - |t.samples| + 1]).predictor)
  {
    hide Next, NibbleFor;
    if k > 0 {
      FedNibbles(t, nibbles, targets, k - 1, i);
      NibbleAt(t.state, targets, k - 1);
      assert nibbles[..k][..k - 1] == nibbles[..k - 1];
    }
  }

  lemma {:induction false} NibblesAreSmall(s: State, targets: seq<int>)
    requires s.Valid()
    ensures forall i :: 0 <= i < |targets| ==> Nibbles(s, targets)[i] < 16
  {
    forall i | 0 <= i < |targets| ensures Nibbles(s, targets)[i] < 16 {
      NibbleAt(s, targets, i);
    }
  }

  /** The bytes the encoder writes for a channel. */
  ghost function Code(s: State, targets: seq<int>): (bytes: Bytes)
    requires s.Valid()
    ensures |bytes| == |targets| / 2
  {
    NibblesAreSmall(s, targets);
    Packed(Nibbles(s, targets))
  }

  /**
   Decoding what was encoded gives every target back within an eighth of the step
   then in force, and less than one.
   */
  lemma EncodedChannelIsHeard(s: State, targets: seq<int>, k: nat)
    requires s.Valid() && Tracks(s, targets) && |targets| % 2 == 0 && k < |targets|
    ensures var samples := FeedAll(Track([s.predictor], s), Code(s, targets)).samples;
            && |samples| == 1 + |targets| && samples[0] == s.predictor
            && IsHeard(samples[1 + k], targets[k], StepOf(Reached(s, targets[..k])))
  {
    hide FeedNibbles, FeedAll, Reached, Packed, IsHeard, StepOf, Tracks;
    NibblesAreSmall(s, targets);
    var t, nibbles := Track([s.predictor], s), Nibbles(s, targets);
    hide Nibbles;
    PackedIsFed(t, nibbles);
    FedNibbles(t, nibbles, targets, |targets|, 0);
    FedNibbles(t, nibbles, targets, |targets|, k + 1);
    assert nibbles[..|targets|] == nibbles;
    TargetIsHeard(s, targets, k);
  }

  lemma TargetIsHeard(s: State, targets: seq<int>, k: nat)
    requires s.Valid() && Tracks(s, targets) && k < |targets|
    ensures IsHeard(Reached(s, targets[..k + 1]).predictor, targets[k], StepOf(Reached(s, targets[..k])))
  {
    hide Reached, Next, NibbleFor, StepOf;
    NibbleAt(s, targets, k);
    assert IsNear(Reached(s, targets[..k]), targets[k]);
    QuantiserLaw(Reached(s, targets[..k]), targets[k]);
  }
}
