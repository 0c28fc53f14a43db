/** Exponential decay of a log-odds value toward its baseline.

    Time is counted in whole ticks (microseconds) and a half-life of `h` ticks is the per-tick
    factor r with r^h = 1/2, so `pow(0.5, elapsed / half_life)` is `Factor(r, elapsed)`. */
module Decay {

  type Time = int
  type Rate = r: real | 0.0 < r < 1.0 witness 0.5

  function Factor(r: Rate, n: nat): (f: real)
    ensures 0.0 < f <= 1.0
    ensures n > 0 ==> f < 1.0
  {
    if n == 0 then 1.0 else r * Factor(r, n - 1)
  }

  lemma FactorNext(r: Rate, n: nat)
    ensures Factor(r, n + 1) == r * Factor(r, n) && Factor(r, 0) == 1.0
  {
  }

  lemma {:induction false} FactorAdd(r: Rate, a: nat, b: nat)
    ensures Factor(r, a + b) == Factor(r, a) * Factor(r, b)
  {
    hide Factor;
    FactorNext(r, 0);
    if a > 0 {
      FactorAdd(r, a - 1, b);
      FactorNext(r, a - 1);
      FactorNext(r, a - 1 + b);
      Associate(r, Factor(r, a - 1), Factor(r, b));
    }
  }

  lemma Associate(x: real, y: real, z: real)
    ensures (x * y) * z == x * (y * z)
  {}

  /** The share of a deviation that survives from one instant to another. */
  function Fade(r: Rate, from: Time, to: Time): (f: real)
    ensures 0.0 < f <= 1.0
    ensures f == 1.0 <==> to <= from
  {
    if to <= from then 1.0 else Factor(r, to - from)
  }

  /** A whole power of the rate per tick, and nothing where no time has passed. */
  lemma FadeIsFactor(r: Rate, from: Time, to: Time)
    ensures to > from ==> Fade(r, from, to) == Factor(r, to - from)
    ensures to <= from ==> Fade(r, from, to) == 1.0
  {
  }

  lemma FadeChain(r: Rate, a: Time, b: Time, c: Time)
    requires a <= b <= c
    ensures Fade(r, a, c) == Fade(r, a, b) * Fade(r, b, c)
  {
    FactorAdd(r, b - a, c - b);
  }

  function DecayLogOdds(current: real, baseline: real, rate: Rate, from: Time, to: Time): (v: real)
  {
    if to <= from then current else baseline + (current - baseline) * Factor(rate, to - from)
  }

  /** What is left at `to` of a deviation that stood at `from`. */
  function Carry(deviation: real, rate: Rate, from: Time, to: Time): real {
    deviation * Fade(rate, from, to)
  }

  lemma DecayIsCarry(current: real, baseline: real, rate: Rate, from: Time, to: Time)
    ensures DecayLogOdds(current, baseline, rate, from, to)
         == baseline + Carry(current - baseline, rate, from, to)
  {}

  lemma CarryAdd(x: real, y: real, rate: Rate, from: Time, to: Time)
    ensures Carry(x + y, rate, from, to) == Carry(x, rate, from, to) + Carry(y, rate, from, to)
    ensures Carry(x - y, rate, from, to) == Carry(x, rate, from, to) - Carry(y, rate, from, to)
    ensures Carry(0.0, rate, from, to) == 0.0
  {}

  lemma CarryChain(x: real, rate: Rate, a: Time, b: Time, c: Time)
    requires a <= b <= c
    ensures Carry(Carry(x, rate, a, b), rate, b, c) == Carry(x, rate, a, c)
  {
    FadeChain(rate, a, b, c);
    Associate(x, Fade(rate, a, b), Fade(rate, b, c));
  }

  /** Decaying in two legs is decaying once. */
  lemma DecaySplit(current: real, baseline: real, rate: Rate, a: Time, b: Time, c: Time)
    requires a <= b <= c
    ensures DecayLogOdds(DecayLogOdds(current, baseline, rate, a, b), baseline, rate, b, c)
         == DecayLogOdds(current, baseline, rate, a, c)
  {
    DecayIsCarry(current, baseline, rate, a, b);
    DecayIsCarry(DecayLogOdds(current, baseline, rate, a, b), baseline, rate, b, c);
    DecayIsCarry(current, baseline, rate, a, c);
    CarryChain(current - baseline, rate, a, b, c);
  }

  function DecayThrough(current: real, baseline: real, rate: Rate, from: Time, stops: seq<Time>): real
    decreases stops
  {
    if stops == [] then current
    else DecayThrough(DecayLogOdds(current, baseline, rate, from, stops[0]), baseline, rate, stops[0], stops[1..])
  }

  /** However a decay is cut into legs at intermediate instants, the value at the end is the same. */
  lemma {:induction false} DecaySplitsAnywhere(
    current: real, baseline: real, rate: Rate, from: Time, stops: seq<Time>)
    requires stops != [] && from <= stops[0]
    requires forall i, j :: 0 <= i < j < |stops| ==> stops[i] <= stops[j]
    ensures DecayThrough(current, baseline, rate, from, stops)
         == DecayLogOdds(current, baseline, rate, from, stops[|stops| - 1])
    decreases stops
  {
    var v := DecayLogOdds(current, baseline, rate, from, stops[0]);
    if |stops| > 1 {
      DecaySplitsAnywhere(v, baseline, rate, stops[0], stops[1..]);
      DecaySplit(current, baseline, rate, from, stops[0], stops[|stops| - 1]);
    } else {
      assert DecayThrough(v, baseline, rate, stops[0], stops[1..]) == v;
    }
  }

  function Abs(x: real): (a: real)
    ensures a >= 0.0 && a >= x && a >= -x && (a == x || a == -x)
  {
    if x < 0.0 then -x else x
  }

  lemma ScaledAbs(x: real, f: real, bound: real)
    requires 0.0 < f <= 1.0 && Abs(x) <= bound
    ensures Abs(x * f) <= bound
  {
    var y := x * f;
    if x >= 0.0 {
      assert 0.0 <= y <= x;
    } else {
      assert x <= y <= 0.0;
      assert Abs(x) == -x;
    }
  }

  lemma CarryBound(x: real, rate: Rate, from: Time, to: Time, bound: real)
    requires Abs(x) <= bound
    ensures Abs(Carry(x, rate, from, to)) <= bound
  {
    ScaledAbs(x, Fade(rate, from, to), bound);
  }

  /** Decay never amplifies a difference between two values. */
  lemma DecayContracts(x: real, y: real, baseline: real, rate: Rate, from: Time, to: Time)
    ensures Abs(DecayLogOdds(x, baseline, rate, from, to) - DecayLogOdds(y, baseline, rate, from, to)) <= Abs(x - y)
  {
    DecayIsCarry(x, baseline, rate, from, to);
    DecayIsCarry(y, baseline, rate, from, to);
    CarryAdd(x - baseline, y - baseline, rate, from, to);
    ScaledAbs(x - y, Fade(rate, from, to), Abs(x - y));
  }
}
