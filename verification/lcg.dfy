/** The seeded linear congruential generator inside `getRandomizedWeights`. JavaScript computes
    `(a * state + c) % m` in double precision: the product can exceed 2^53 and is rounded to
    the nearest double, and `%` keeps the sign of the dividend. Both are written out here. */
module Lcg {

  const M: int := 0x8000_0000
  const A: int := 1103515245
  const C: int := 12345
  const TwoPow53: int := 0x20_0000_0000_0000

  function Pow2(e: nat): (r: nat)
    ensures r >= 1
  {
    if e == 0 then 1 else 2 * Pow2(e - 1)
  }

  /** How many low bits a double drops when it holds `n`. */
  function Exponent(n: nat): nat
  {
    if n < TwoPow53 then 0 else 1 + Exponent(n / 2)
  }

  /** The double nearest to `n` (ties to even), for a non-negative integer `n`. */
  function RoundNat(n: nat): (r: nat)
    ensures n < TwoPow53 ==> r == n
    ensures var u := Pow2(Exponent(n)); n - u <= r <= n + u
  {
    var e := Exponent(n);
    if e == 0 then n
    else
      var u := Pow2(e);
      var q := n / u;
      var rem := n % u;
      var down := q * u;
      assert down == n - rem;
      if rem * 2 > u || (rem * 2 == u && q % 2 == 1) then down + u else down
  }

  /** The double nearest to the integer `n`; rounding is symmetric about zero. */
  function RoundInt(n: int): (r: int)
    ensures n >= 0 ==> r >= 0
    ensures n <= 0 ==> r <= 0
    ensures -TwoPow53 < n < TwoPow53 ==> r == n
  {
    if n >= 0 then RoundNat(n) else var m: int := RoundNat(-n); -m
  }

  /** JavaScript `x % m` for `m > 0`: the remainder takes the sign of `x`. */
  function JsRem(x: int, m: int): (r: int)
    requires m > 0
    ensures x >= 0 ==> 0 <= r < m
    ensures x < 0 ==> -m < r <= 0
  {
    if x >= 0 then x % m else -((-x) % m)
  }

  /** One step of the generator exactly as the source writes it. */
  function StepAsWritten(state: int): int
  {
    JsRem(RoundInt(RoundInt(A * state) + C), M)
  }

  /** One step with the remainder taken into `[0, m)` for every state, as the `[0, 1]` range of
      `state / (m - 1)` and the `-maxChange .. +maxChange` comment intend. */
  function Step(state: int): (r: int)
    ensures 0 <= r < M
  {
    RoundInt(RoundInt(A * state) + C) % M
  }

  /** For a state that is not negative the two steps agree. */
  lemma StepAgreesOnNonNegative(state: int)
    requires state >= 0
    ensures StepAsWritten(state) == Step(state)
    ensures 0 <= StepAsWritten(state) < M
  {
  }

  /** The state the generator starts from: the seed, or a `Math.random` draw when the seed is
      `0` (falsy), which the caller supplies as `fallback`. */
  function InitialState(seed: int, fallback: int): (s: int)
    ensures seed != 0 ==> s == seed
    ensures seed == 0 ==> s == fallback
  {
    if seed != 0 then seed else fallback
  }

  /** The states after 1, 2, ..., n calls of the generator. */
  function States(start: int, n: nat): (r: seq<int>)
    ensures |r| == n
    ensures forall i :: 0 <= i < n ==> 0 <= r[i] < M
    ensures n > 0 ==> r[0] == Step(start)
    ensures forall i :: 0 < i < n ==> r[i] == Step(r[i - 1])
  {
    if n == 0 then [] else
      var prev := States(start, n - 1);
      prev + [Step(if n == 1 then start else prev[n - 2])]
  }

  /** The same sequence of states with the step as written. */
  function StatesAsWritten(start: int, n: nat): (r: seq<int>)
    ensures |r| == n
  {
    if n == 0 then [] else
      var prev := StatesAsWritten(start, n - 1);
      prev + [StepAsWritten(if n == 1 then start else prev[n - 2])]
  }

  lemma {:induction false} StatesAgreeOnNonNegative(start: int, n: nat)
    requires start >= 0
    ensures StatesAsWritten(start, n) == States(start, n)
  {
    if n > 0 {
      StatesAgreeOnNonNegative(start, n - 1);
      var prev := States(start, n - 1);
      StepAgreesOnNonNegative(if n == 1 then start else prev[n - 2]);
    }
  }

  /** `(state / (m - 1) - 0.5) * 2 * maxChange`, in exact real arithmetic. */
  function Change(state: int, maxChange: real): real
  {
    (state as real / (M - 1) as real - 0.5) * 2.0 * maxChange
  }

  /** A state in `[0, m - 1]` gives a change between `-|maxChange|` and `|maxChange|`. */
  lemma ChangeInRange(state: int, maxChange: real)
    requires 0 <= state <= M - 1
    ensures var bound := if maxChange >= 0.0 then maxChange else -maxChange;
            -bound <= Change(state, maxChange) <= bound
  {
    var t := state as real / (M - 1) as real;
    assert 0.0 <= t <= 1.0;
    var d := (t - 0.5) * 2.0;
    assert -1.0 <= d <= 1.0;
    assert Change(state, maxChange) == d * maxChange;
    if maxChange >= 0.0 {
      assert d * maxChange <= maxChange;
      assert -maxChange <= d * maxChange;
    } else {
      assert d * maxChange <= -maxChange;
      assert maxChange <= d * maxChange;
    }
  }

  /** The step as written leaves `[0, m)` on the seed -1: the first state is -1103502900, and
      with `maxChange = 0.3` the first change is below -0.3. */
  lemma NegativeSeedLeavesRange()
    ensures StepAsWritten(-1) == -1103502900
    ensures Change(StepAsWritten(-1), 0.3) < -0.3
  {
    assert A * -1 + C == -1103502900;
  }
}
