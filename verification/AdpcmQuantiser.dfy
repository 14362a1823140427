/**
 What a nibble means (MSSImaAdpcmDecodeNibble, WebAssembly/shims/Mss.H:1065-1105):
 a signed move by a multiple of the step, and a quantiser that an encoder can use.
 */
module AdpcmQuantiser {
  import opened Common
  import opened Adpcm

  function Abs(x: int): nat {
    if x < 0 then -x else x
  }

  // ----- The tables

  lemma TableByRows(i: nat)
    requires i < 89
    ensures |STEP_TABLE| == 89 && STEP_TABLE[i] == StepRow(i / 10)[i % 10]
  {
    hide StepRow;
  }

  /** From one step to the next, by at most a seventh. */
  predicate Rises(step: int, next: int) {
    0 < step < next && 7 * next <= 8 * step
  }

  lemma EarlyRowRises(k: nat, c: nat)
    requires k < 5 && c < 9
    ensures Rises(StepRow(k)[c], StepRow(k)[c + 1])
  {
  }

  lemma LateRowRises(k: nat, c: nat)
    requires 5 <= k < 9 && c + 1 < |StepRow(k)|
    ensures Rises(StepRow(k)[c], StepRow(k)[c + 1])
  {
  }

  lemma RowsJoin(k: nat)
    requires k < 8
    ensures Rises(StepRow(k)[9], StepRow(k + 1)[0])
    ensures StepRow(0)[0] == 7 && StepRow(8)[8] == 32767
  {
  }

  lemma TableRises(i: nat)
    requires i < 88
    ensures |STEP_TABLE| == 89 && Rises(STEP_TABLE[i], STEP_TABLE[i + 1])
  {
    hide StepRow, Rises;
    TableByRows(i);
    TableByRows(i + 1);
    if i % 10 < 9 {
      if i < 50 {
        EarlyRowRises(i / 10, i % 10);
      } else {
        LateRowRises(i / 10, i % 10);
      }
    } else {
      RowsJoin(i / 10);
    }
  }

  lemma TableEnds()
    ensures |STEP_TABLE| == 89 && STEP_TABLE[0] == 7 && STEP_TABLE[88] == 32767
  {
    hide StepRow;
    TableByRows(0);
    TableByRows(88);
    RowsJoin(0);
  }

  /** The steps grow strictly, from 7 to 32767. */
  lemma {:induction false} StepsGrow(i: nat, j: nat)
    requires i < j < 89
    ensures |STEP_TABLE| == 89 && STEP_TABLE[0] == 7 && STEP_TABLE[88] == 32767
    ensures STEP_TABLE[i] < STEP_TABLE[j]
    decreases j - i
  {
    hide STEP_TABLE;
    TableEnds();
    TableRises(j - 1);
    if i < j - 1 {
      StepsGrow(i, j - 1);
    }
  }

  function StepOf(s: State): (step: nat)
    requires s.Valid()
    ensures 7 <= step <= 32767
  {
    TableEnds();
    StepsAreBounded(s.index);
    STEP_TABLE[s.index]
  }

  lemma StepsAreBounded(i: nat)
    requires i < 89
    ensures |STEP_TABLE| == 89 && 7 <= STEP_TABLE[i] <= 32767
  {
    hide STEP_TABLE;
    TableEnds();
    if i > 0 { StepsGrow(0, i); }
    if i < 88 { StepsGrow(i, 88); }
  }

  // ----- What a nibble does

  /** Not at either end of what 16 bits hold. */
  predicate Unsaturated(s: State) {
    -32768 < s.predictor < 32767
  }

  /** The first eight nibbles never lower a signal, the others never raise it. */
  lemma NibbleHasADirection(s: State, nibble: nat)
    requires s.Valid() && nibble < 16
    ensures nibble < 8 ==> Next(s, nibble).predictor >= s.predictor
    ensures nibble >= 8 ==> Next(s, nibble).predictor <= s.predictor
  {
    hide STEP_TABLE;
    DifferenceIsProportional(s, nibble);
  }

  /** x is an odd multiple of the step; the difference is an eighth of it. */
  lemma DifferenceIsProportional(s: State, nibble: nat)
    requires s.Valid() && nibble < 16
    ensures StepOf(s) == STEP_TABLE[s.index]
    ensures var x, d := (2 * (nibble % 8) + 1) * StepOf(s), Difference(STEP_TABLE[s.index], nibble);
            8 * d <= x < 8 * d + 8 && d >= 0
  {
    hide STEP_TABLE;
    TableEnds();
    ProductIsPositive(2 * (nibble % 8) + 1, StepOf(s));
  }

  lemma ProductIsPositive(a: nat, b: nat)
    ensures a * b >= 0
  {
  }

  /** By how much: an odd number of eighths of the step, rounded down. */
  lemma NibbleMovesByEighths(s: State, nibble: nat)
    requires s.Valid() && nibble < 16 && Unsaturated(Next(s, nibble))
    ensures var d := Abs(Next(s, nibble).predictor - s.predictor);
            8 * d <= (2 * (nibble % 8) + 1) * StepOf(s) < 8 * d + 8
  {
    hide STEP_TABLE, Difference, StepOf;
    DifferenceIsProportional(s, nibble);
  }

  /** Eight more is the same move the other way. */
  lemma NibbleIsMirrored(s: State, nibble: nat)
    requires s.Valid() && nibble < 8
    ensures Next(s, nibble + 8).index == Next(s, nibble).index
    ensures Unsaturated(Next(s, nibble)) && Unsaturated(Next(s, nibble + 8)) ==>
              Next(s, nibble + 8).predictor - s.predictor == -(Next(s, nibble).predictor - s.predictor)
  {
    hide STEP_TABLE;
    TableEnds();
    assert (nibble + 8) % 8 == nibble % 8;
    assert Difference(STEP_TABLE[s.index], nibble + 8) == Difference(STEP_TABLE[s.index], nibble);
    hide Difference;
  }

  /** Small moves make the next step one smaller, large ones two to eight greater, within the table. */
  lemma NibbleMovesTheIndex(s: State, nibble: nat)
    requires s.Valid() && nibble < 16
    ensures var m := nibble % 8;
            Next(s, nibble).index == Max(0, Min(88, if m < 4 then s.index - 1 else s.index + 2 * (m - 3)))
  {
    hide STEP_TABLE, Difference;
  }

  // ----- A quantiser

  /** How many quarters of the step the distance has, at most seven. */
  function Magnitude(step: nat, distance: nat): nat
    requires step > 0
  {
    Min(7, 4 * distance / step)
  }

  /** The nibble that an encoder picks to bring the predictor to the target. */
  function NibbleFor(s: State, target: int): (nibble: nat)
    requires s.Valid()
    ensures nibble < 16
  {
    (if target < s.predictor then 8 else 0) + Magnitude(StepOf(s), Abs(target - s.predictor))
  }

  lemma Quotient(a: nat, b: nat)
    requires b > 0
    ensures a / b * b <= a < a / b * b + b
  {
  }

  /** The distance lies between that many quarters of the step and one more. */
  lemma MagnitudeIsNearest(step: nat, distance: nat, x: int)
    requires step > 0 && distance <= 2 * step && x == (2 * Magnitude(step, distance) + 1) * step
    ensures x - step <= 8 * distance <= x + step
  {
    var m, product := Magnitude(step, distance), 4 * distance / step * step;
    Quotient(4 * distance, step);
    assert x == 2 * (m * step) + step;
    if 4 * distance / step <= 7 {
      assert m * step == product;
    } else {
      MultiplesGrow(7, 4 * distance / step, step);
    }
  }

  lemma MultiplesGrow(a: nat, b: nat, step: nat)
    requires a <= b
    ensures a * step <= b * step
  {
  }

  predicate Is16Bit(x: int) {
    -32768 <= x <= 32767
  }

  /** The decoder comes within an eighth of the step, and less than one, of a target no more than two steps away. */
  lemma QuantiserLaw(s: State, target: int)
    requires s.Valid() && Is16Bit(target) && Abs(target - s.predictor) <= 2 * StepOf(s)
    ensures 8 * Abs(Next(s, NibbleFor(s, target)).predictor - target) < StepOf(s) + 8
  {
    hide STEP_TABLE, Difference, StepOf, Magnitude;
    var nibble := NibbleFor(s, target);
    var m := Magnitude(StepOf(s), Abs(target - s.predictor));
    DifferenceIsProportional(s, nibble);
    assert nibble % 8 == m by { MagnitudeFits(StepOf(s), Abs(target - s.predictor)); }
    MagnitudeIsNearest(StepOf(s), Abs(target - s.predictor), (2 * m + 1) * StepOf(s));
  }

  lemma MagnitudeFits(step: nat, distance: nat)
    requires step > 0
    ensures Magnitude(step, distance) < 8
  {
  }
}
