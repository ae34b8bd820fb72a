/**
 How many samples the resampler has taken and produced. Output k stands k / ratio
 input samples in, and is produced once that is less than the samples taken; the
 counts after any call are then closed forms of the ratio.
 */
module ResampleCounts {

  function Ceil(x: real): int { -((-x).Floor) }

  function Max0(n: int): nat { if n < 0 then 0 else n }

  /** Input position of output k. */
  function Pos(ratio: real, k: int): real
    requires ratio > 0.0
  {
    k as real / ratio
  }

  /** Outputs that c input samples allow. */
  function TotalOut(ratio: real, c: int): int { Ceil(ratio * c as real) }

  /** Input samples that must have been taken before the first m outputs are out. */
  function Needed(ratio: real, m: nat): int
    requires ratio > 0.0
  {
    if m == 0 then 0 else Pos(ratio, m - 1).Floor + 1
  }

  /** Outputs of a call that starts after c samples and g outputs. */
  function CallOutputs(ratio: real, c: nat, g: nat, numIn: nat, numOut: nat): nat {
    var ready := Max0(TotalOut(ratio, c + numIn) - g);
    if ready < numOut then ready else numOut
  }

  /** Input samples such a call takes. */
  function CallInputs(ratio: real, c: nat, g: nat, numIn: nat, numOut: nat): nat
    requires ratio > 0.0
  {
    if CallOutputs(ratio, c, g, numIn, numOut) < numOut then numIn
    else if numOut == 0 then 0 else Max0(Needed(ratio, g + numOut) - c)
  }

  /** No output is early and no sample was taken before it was wanted. */
  ghost predicate Greedy(ratio: real, c: int, g: int)
    requires ratio > 0.0
  {
    && 0 <= c && 0 <= g
    && (g > 0 ==> Pos(ratio, g - 1) < c as real)
    && (c > 0 ==> (c - 1) as real <= Pos(ratio, g))
  }

  // ----- positions -----

  lemma PosSteps(ratio: real, k: int)
    requires ratio > 0.0
    ensures Pos(ratio, k + 1) == Pos(ratio, k) + 1.0 / ratio
    ensures Pos(ratio, k) < Pos(ratio, k + 1)
    ensures Pos(ratio, 0) == 0.0
  {
    var step := 1.0 / ratio;
    assert step * ratio == 1.0;
    DivIsMul(k as real, ratio);
    DivIsMul((k + 1) as real, ratio);
    assert (k + 1) as real * step == k as real * step + step;
  }

  lemma DivIsMul(x: real, ratio: real)
    requires ratio > 0.0
    ensures x / ratio == x * (1.0 / ratio)
  {
    var step := 1.0 / ratio;
    assert step * ratio == 1.0;
    assert x * step * ratio == x * (step * ratio);
    QuotientUnique(x, ratio, x * step);
  }

  lemma QuotientUnique(x: real, ratio: real, q: real)
    requires ratio > 0.0 && q * ratio == x
    ensures x / ratio == q
  {
  }

  /** Multiplying by the ratio turns positions into counts. */
  lemma PosBelow(ratio: real, k: int, c: int)
    requires ratio > 0.0
    ensures Pos(ratio, k) < c as real <==> k as real < ratio * c as real
  {
    var p := Pos(ratio, k);
    assert p * ratio == k as real;
    OrderTimes(p, c as real, ratio);
  }

  lemma OrderTimes(x: real, y: real, r: real)
    requires r > 0.0
    ensures x < y <==> x * r < y * r
  {
    if x < y {
      assert (y - x) * r > 0.0;
    } else {
      assert (x - y) * r >= 0.0;
    }
  }

  /** Output k is ready after c samples exactly when k is below the total. */
  lemma ReadyIffBelowTotal(ratio: real, k: int, c: int)
    requires ratio > 0.0
    ensures Pos(ratio, k) < c as real <==> k < TotalOut(ratio, c)
  {
    PosBelow(ratio, k, c);
    var x := ratio * c as real;
    assert Ceil(x) as real >= x > (Ceil(x) - 1) as real;
  }

  // ----- the closed forms -----

  /** A call that stops because nothing more is ready has taken all its input and made every output it allows. */
  lemma StopsDry(ratio: real, c: nat, g: nat, numIn: nat, numOut: nat, used: nat, made: nat)
    requires ratio > 0.0 && used == numIn && made < numOut
    requires Greedy(ratio, c + used, g + made) && Pos(ratio, g + made) >= (c + used) as real
    ensures made == CallOutputs(ratio, c, g, numIn, numOut) && used == CallInputs(ratio, c, g, numIn, numOut)
  {
    ReadyIffBelowTotal(ratio, g + made, c + used);
    if g + made > 0 { ReadyIffBelowTotal(ratio, g + made - 1, c + used); }
  }

  /** A call that stops because the output is full has taken what the last output needed and no more. */
  lemma StopsFull(ratio: real, c: nat, g: nat, numIn: nat, numOut: nat, used: nat)
    requires ratio > 0.0 && used <= numIn && numOut > 0 && Greedy(ratio, c, g)
    requires Pos(ratio, g + numOut - 1) < (c + used) as real
    requires used > 0 ==> (c + used - 1) as real <= Pos(ratio, g + numOut - 1)
    ensures numOut == CallOutputs(ratio, c, g, numIn, numOut) && used == CallInputs(ratio, c, g, numIn, numOut)
  {
    ReadyIffBelowTotal(ratio, g + numOut - 1, c + used);
    ReadyIffBelowTotal(ratio, g + numOut - 1, c + numIn);
  }

  /** Once a state has nothing ready, the outputs so far are exactly the ratio times the input, rounded up. */
  lemma NoDrift(ratio: real, c: nat, g: nat)
    requires ratio > 0.0 && Greedy(ratio, c, g) && Pos(ratio, g) >= c as real
    ensures g == TotalOut(ratio, c)
  {
    ReadyIffBelowTotal(ratio, g, c);
    if g > 0 {
      ReadyIffBelowTotal(ratio, g - 1, c);
    } else {
      assert ratio * c as real >= 0.0;
    }
  }
}
