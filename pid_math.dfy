/** The arithmetic of the PID controller over the reals: the least-squares
    slope weights, the dot product that applies them to the sample window, the
    integral clamp, the low-pass filter recurrence, the control law and output
    voltage, the conversion to a 12-bit actuator code and the decimation
    counter. */
module PIDMath {
  import opened Bits

  /** Size of the window the derivative is fitted over. */
  const DERIV_NUM: nat := 5

  /** Supply voltage of the output stage. */
  const VCC: real := 5.0

  /** Coefficients of the second-order derivative filter:
      `y[n] = NUM . (x[n], x[n-1], x[n-2]) - DENOM[1] y[n-1] - DENOM[2] y[n-2]`. */
  const NUM: seq<real> := [0.00000682859420, 0.0000136751884, 0.00000682859420]
  const DENOM: seq<real> := [1.0, -1.99259523, 0.99262254]

  type NonNegReal = r: real | r >= 0.0

  // ---------------------------------------------------------------------------
  // Least-squares slope weights

  /** The integer factors of the fit: both divisions are exact for `N = 5`. */
  lemma FitIntegers()
    ensures DERIV_NUM * (DERIV_NUM - 1) * (2 * DERIV_NUM - 1) / 6 == 30
    ensures (DERIV_NUM * (DERIV_NUM - 1) * (2 * DERIV_NUM - 1)) % 6 == 0
    ensures DERIV_NUM * (DERIV_NUM - 1) / 2 == 10
    ensures (DERIV_NUM * (DERIV_NUM - 1)) % 2 == 0
  {
    assert DERIV_NUM * (DERIV_NUM - 1) == 20;
    assert DERIV_NUM * (DERIV_NUM - 1) * (2 * DERIV_NUM - 1) == 180;
  }

  /** `pow(x, 2)`. */
  function Squared(x: real): real
  {
    x * x
  }

  /** `a = N(N-1)(2N-1)/6 * pow(dt, 2)`; the integer factor is computed in C
      `int` arithmetic, where the division is exact. */
  function FitA(dt: real): real
  {
    ((DERIV_NUM * (DERIV_NUM - 1) * (2 * DERIV_NUM - 1) / 6) as real) * Squared(dt)
  }

  /** `b = N(N-1)/2 * dt`, again with an exact integer factor. */
  function FitB(dt: real): real
  {
    ((DERIV_NUM * (DERIV_NUM - 1) / 2) as real) * dt
  }

  lemma FitAValue(dt: real)
    ensures FitA(dt) == 30.0 * Squared(dt)
  {
    FitIntegers();
  }

  lemma FitBValue(dt: real)
    ensures FitB(dt) == 10.0 * dt
  {
    FitIntegers();
  }

  predicate Positive(x: real)
  {
    x > 0.0
  }

  lemma SquarePositive(x: real)
    requires x != 0.0
    ensures x * x > 0.0
  {
    if x < 0.0 {
      var m := -x;
      assert m * m > 0.0;
      assert m * m == x * x;
    }
  }

  /** The square of a non-zero real is positive. The step from `x * x` to
      `Squared(x)` goes through the predicate `Positive`, so that it is an
      equality of terms rather than arithmetic. */
  lemma SquaredPositive(x: real)
    requires x != 0.0
    ensures Squared(x) > 0.0
  {
    SquarePositive(x);
    assert Positive(x * x);
    assert Positive(Squared(x));
  }

  /** `a N - pow(b, 2)`, the determinant of the normal equations of the
      straight-line fit through `N` equally spaced points. */
  function FitDet(dt: real): real
  {
    FitA(dt) * (DERIV_NUM as real) - Squared(FitB(dt))
  }

  /** The determinant is `50 dt^2`, positive for a non-zero sampling
      interval, so `coef` is well defined. */
  lemma FitDeterminant(dt: real)
    requires dt != 0.0
    ensures FitDet(dt) == 50.0 * Squared(dt)
    ensures FitDet(dt) > 0.0
  {
    FitAValue(dt);
    FitBValue(dt);
    assert Squared(10.0 * dt) == 100.0 * Squared(dt);
    SquaredPositive(dt);
  }

  /** `coef = 1 / (a N - pow(b, 2))`. */
  function FitCoef(dt: real): (r: real)
    requires dt != 0.0
    ensures r * (50.0 * Squared(dt)) == 1.0
  {
    FitDeterminant(dt);
    1.0 / FitDet(dt)
  }

  /** With `c` the inverse of `50 dt^2`, `c (5 k dt - 10 dt)` times `10 dt` is
      `k - 2`. */
  lemma WeightScale(c: real, dt: real, k: real)
    requires c * (50.0 * Squared(dt)) == 1.0
    ensures c * (5.0 * k * dt - 10.0 * dt) * (10.0 * dt) == k - 2.0
  {
    assert (5.0 * k * dt - 10.0 * dt) * (10.0 * dt) == (k - 2.0) * (50.0 * (dt * dt));
    assert c * (5.0 * k * dt - 10.0 * dt) * (10.0 * dt) == c * ((k - 2.0) * (50.0 * (dt * dt)));
    assert c * ((k - 2.0) * (50.0 * (dt * dt))) == (k - 2.0) * (c * (50.0 * (dt * dt)));
  }

  /** The constructor's weight `v[i] = coef * (N*i*dt - b)`; it is the slope
      weight `(i - 2) / (10 dt)` of a least-squares line through five samples
      taken `dt` apart. */
  function Weight(dt: real, i: nat): (r: real)
    requires dt != 0.0
    ensures r * (10.0 * dt) == (i as real) - 2.0
  {
    var c := FitCoef(dt);
    FitBValue(dt);
    assert ((DERIV_NUM * i) as real) == 5.0 * (i as real);
    WeightScale(c, dt, i as real);
    c * (((DERIV_NUM * i) as real) * dt - FitB(dt))
  }

  /** The constructor's array `v`: weight `i` times `10 dt` is `i - 2`, so the
      weights are `-2k, -k, 0, k, 2k` with `k = 1 / (10 dt)`. */
  function Weights(dt: real): (r: seq<real>)
    requires dt != 0.0
    ensures |r| == DERIV_NUM
    ensures forall i :: 0 <= i < DERIV_NUM ==> r[i] * (10.0 * dt) == (i as real) - 2.0
  {
    seq(DERIV_NUM, i requires 0 <= i < DERIV_NUM => Weight(dt, i))
  }

  /** Sum of `u[i] * w[i]` for `i < n`, accumulated from index 0 upward. */
  function DotUpTo(u: seq<real>, w: seq<real>, n: nat): real
    requires n <= |u| && n <= |w|
  {
    if n == 0 then 0.0 else DotUpTo(u, w, n - 1) + u[n - 1] * w[n - 1]
  }

  function Dot(u: seq<real>, w: seq<real>): real
    requires |u| == |w|
  {
    DotUpTo(u, w, |u|)
  }

  /** A window of five: the dot product written out term by term. */
  lemma DotFive(u: seq<real>, w: seq<real>)
    requires |u| == |w| == DERIV_NUM
    ensures Dot(u, w) == u[0] * w[0] + u[1] * w[1] + u[2] * w[2] + u[3] * w[3] + u[4] * w[4]
  {
    assert DotUpTo(u, w, 1) == u[0] * w[0];
    assert DotUpTo(u, w, 3) == DotUpTo(u, w, 1) + u[1] * w[1] + u[2] * w[2];
    assert DotUpTo(u, w, 5) == DotUpTo(u, w, 3) + u[3] * w[3] + u[4] * w[4];
  }

  /** Samples `c + s * j * dt`, oldest (`j = 0`) first: a straight line of slope
      `s` sampled every `dt`. */
  function Ramp(c: real, s: real, dt: real): (r: seq<real>)
    ensures |r| == DERIV_NUM
  {
    seq(DERIV_NUM, j requires 0 <= j < DERIV_NUM => c + s * (j as real) * dt)
  }

  /** The weights fitted to a straight line recover its slope exactly. */
  lemma SlopeRecovery(dt: real, c: real, s: real)
    requires dt != 0.0
    ensures Dot(Weights(dt), Ramp(c, s, dt)) == s
  {
    var v, r := Weights(dt), Ramp(c, s, dt);
    DotFive(v, r);
    var k := Weight(dt, 3);
    assert k * (10.0 * dt) == 1.0;
    WeightIsMultiple(dt, k);
    assert v[0] == -2.0 * k && v[1] == -k && v[2] == 0.0 && v[3] == k && v[4] == 2.0 * k;
    assert r[0] == c && r[1] == c + s * dt && r[3] == c + 3.0 * s * dt && r[4] == c + 4.0 * s * dt;
    assert Dot(v, r) == k * (10.0 * dt) * s;
  }

  /** `Weight(dt, i) == (i - 2) k` where `k` is the weight of index 3. */
  lemma WeightIsMultiple(dt: real, k: real)
    requires dt != 0.0 && k * (10.0 * dt) == 1.0
    ensures Weight(dt, 0) == -2.0 * k && Weight(dt, 1) == -k && Weight(dt, 2) == 0.0
    ensures Weight(dt, 3) == k && Weight(dt, 4) == 2.0 * k
  {
    var d := 10.0 * dt;
    assert d != 0.0;
    WeightUnique(dt, 0, -2.0 * k);
    WeightUnique(dt, 1, -k);
    WeightUnique(dt, 2, 0.0);
    WeightUnique(dt, 3, k);
    WeightUnique(dt, 4, 2.0 * k);
  }

  lemma WeightUnique(dt: real, i: nat, x: real)
    requires dt != 0.0 && x * (10.0 * dt) == (i as real) - 2.0
    ensures Weight(dt, i) == x
  {
    var d := 10.0 * dt;
    var w := Weight(dt, i);
    assert (w - x) * d == 0.0;
    assert d != 0.0;
  }

  /** The weights sum to zero: a constant window has slope zero. */
  lemma ConstantWindow(dt: real, c: real)
    requires dt != 0.0
    ensures Dot(Weights(dt), seq(DERIV_NUM, _ => c)) == 0.0
  {
    SlopeRecovery(dt, c, 0.0);
    assert Ramp(c, 0.0, dt) == seq(DERIV_NUM, _ => c);
  }

  /** The first moment of the weights is one: `sum v[i] * i * dt == 1`. */
  lemma WeightsMoment(dt: real)
    requires dt != 0.0
    ensures Dot(Weights(dt), seq(DERIV_NUM, j => (j as real) * dt)) == 1.0
  {
    SlopeRecovery(dt, 0.0, 1.0);
    assert Ramp(0.0, 1.0, dt) == seq(DERIV_NUM, j => (j as real) * dt);
  }

  // ---------------------------------------------------------------------------
  // The sample window

  /** The circular buffer `ys` read from slot `start` onward, wrapping round:
      with `start` one past the slot written last, oldest sample first. */
  function Rotate(ys: seq<real>, start: int): (r: seq<real>)
    requires |ys| == DERIV_NUM
    ensures |r| == DERIV_NUM
  {
    seq(DERIV_NUM, i requires 0 <= i < DERIV_NUM => ys[(start + i) % DERIV_NUM])
  }

  /** The window after a new sample arrives: the oldest sample drops out. */
  function Push(w: seq<real>, x: real): (r: seq<real>)
    requires |w| > 0
  {
    w[1..] + [x]
  }

  /** Writing `x` over the oldest slot and reading from the slot after it
      shifts the window by one sample. */
  lemma RotateAfterWrite(ys: seq<real>, ind: int, x: real)
    requires |ys| == DERIV_NUM && 0 <= ind < DERIV_NUM
    ensures Rotate(ys[ind := x], ind + 1) == Push(Rotate(ys, ind), x)
  {
    var r, w := Rotate(ys[ind := x], ind + 1), Push(Rotate(ys, ind), x);
    forall i | 0 <= i < DERIV_NUM
      ensures r[i] == w[i]
    {
      if i < DERIV_NUM - 1 {
        assert (ind + 1 + i) % DERIV_NUM != ind;
        assert w[i] == Rotate(ys, ind)[i + 1];
      } else {
        assert (ind + 1 + i) % DERIV_NUM == ind;
      }
    }
  }

  /** Reading from `ind + 1` is reading from the advanced cursor
      `(ind + 1) % N`. */
  lemma RotateWrap(ys: seq<real>, ind: int)
    requires |ys| == DERIV_NUM && 0 <= ind < DERIV_NUM
    ensures Rotate(ys, (ind + 1) % DERIV_NUM) == Rotate(ys, ind + 1)
  {
    var r, w := Rotate(ys, (ind + 1) % DERIV_NUM), Rotate(ys, ind + 1);
    forall i | 0 <= i < DERIV_NUM
      ensures r[i] == w[i]
    {
      assert ((ind + 1) % DERIV_NUM + i) % DERIV_NUM == (ind + 1 + i) % DERIV_NUM;
    }
  }

  /** The window after the samples `xs` arrive one by one. */
  function PushAll(w: seq<real>, xs: seq<real>): (r: seq<real>)
    requires |w| > 0
    ensures |r| == |w|
    decreases |xs|
  {
    if xs == [] then w else PushAll(Push(w, xs[0]), xs[1..])
  }

  /** Once at least `|w|` samples have arrived the window holds exactly the
      most recent `|w|` of them, oldest first, whatever it held before. */
  lemma {:induction false} PushAllRecent(w: seq<real>, xs: seq<real>)
    requires |w| > 0
    ensures |xs| >= |w| ==> PushAll(w, xs) == xs[|xs| - |w|..]
    ensures |xs| < |w| ==> PushAll(w, xs) == w[|xs|..] + xs
    decreases |xs|
  {
    if xs != [] {
      var w1 := Push(w, xs[0]);
      PushAllRecent(w1, xs[1..]);
      if |xs| - 1 < |w| {
        assert w1[|xs| - 1..] == w[|xs|..] + [xs[0]];
        assert [xs[0]] + xs[1..] == xs;
      }
    }
  }

  /** A constant input held for a whole window gives a derivative of zero. */
  lemma ConstantInputDerivative(dt: real, w: seq<real>, xs: seq<real>, c: real)
    requires dt != 0.0 && |w| == DERIV_NUM && |xs| >= DERIV_NUM
    requires forall j :: |xs| - DERIV_NUM <= j < |xs| ==> xs[j] == c
    ensures Dot(Weights(dt), PushAll(w, xs)) == 0.0
  {
    PushAllRecent(w, xs);
    assert PushAll(w, xs) == seq(DERIV_NUM, _ => c);
    ConstantWindow(dt, c);
  }

  /** An input that rises by `s * dt` per sample gives a derivative of `s`
      once it has filled the window. */
  lemma RampInputDerivative(dt: real, w: seq<real>, xs: seq<real>, c: real, s: real)
    requires dt != 0.0 && |w| == DERIV_NUM && |xs| >= DERIV_NUM
    requires xs[|xs| - DERIV_NUM..] == Ramp(c, s, dt)
    ensures Dot(Weights(dt), PushAll(w, xs)) == s
  {
    PushAllRecent(w, xs);
    SlopeRecovery(dt, c, s);
  }

  // ---------------------------------------------------------------------------
  // Integral anti-windup

  /** `update_int`'s clamp of the accumulated integral `x`: when `Ki * x`
      reaches `10` or `-10` the integral is set so that it equals that bound. */
  function AntiWindup(x: real, Ki: real): real
  {
    if Ki * x >= 10.0 then 10.0 / Ki
    else if Ki * x <= -10.0 then -10.0 / Ki
    else x
  }

  /** `update_int`: the integral after accumulating `err * dt` and clamping. */
  function IntegralStep(integral: real, err: real, dt: real, Ki: real): real
  {
    AntiWindup(integral + err * dt, Ki)
  }

  /** The anti-windup invariant: the integral term `Ki * integral` lies in
      [-10, 10]. */
  predicate WithinWindupBound(Ki: real, integral: real)
  {
    -10.0 <= Ki * integral <= 10.0
  }

  /** After the clamp `Ki * integral` lies in [-10, 10]; a value strictly
      inside is kept, one outside is moved onto the bound it crossed. */
  lemma AntiWindupBounds(x: real, Ki: real)
    ensures WithinWindupBound(Ki, AntiWindup(x, Ki))
    ensures -10.0 < Ki * x < 10.0 ==> AntiWindup(x, Ki) == x
    ensures Ki * x >= 10.0 ==> Ki * AntiWindup(x, Ki) == 10.0
    ensures Ki * x <= -10.0 ==> Ki * AntiWindup(x, Ki) == -10.0
  {
  }

  /** With no integral gain the clamp never fires. */
  lemma AntiWindupZeroGain(x: real)
    ensures AntiWindup(x, 0.0) == x
  {
    assert 0.0 * x == 0.0;
  }

  // ---------------------------------------------------------------------------
  // Derivative filter

  /** The filter output for input `xn` and histories `xn1, xn2` (inputs) and
      `yn1, yn2` (outputs). */
  function FilterOut(xn: real, xn1: real, xn2: real, yn1: real, yn2: real): (r: real)
    ensures DENOM[0] * r + DENOM[1] * yn1 + DENOM[2] * yn2
         == NUM[0] * xn + NUM[1] * xn1 + NUM[2] * xn2
  {
    NUM[0] * xn + NUM[1] * xn1 + NUM[2] * xn2 - DENOM[1] * yn1 - DENOM[2] * yn2
  }

  /** The filter is linear in its inputs and history together. */
  lemma FilterLinear(xn: real, xn1: real, xn2: real, yn1: real, yn2: real,
                     xm: real, xm1: real, xm2: real, ym1: real, ym2: real)
    ensures FilterOut(xn + xm, xn1 + xm1, xn2 + xm2, yn1 + ym1, yn2 + ym2)
         == FilterOut(xn, xn1, xn2, yn1, yn2) + FilterOut(xm, xm1, xm2, ym1, ym2)
  {
    var a := FilterOut(xn, xn1, xn2, yn1, yn2);
    var b := FilterOut(xm, xm1, xm2, ym1, ym2);
    var c := FilterOut(xn + xm, xn1 + xm1, xn2 + xm2, yn1 + ym1, yn2 + ym2);
    assert DENOM[0] * (c - a - b) == 0.0;
  }

  // ---------------------------------------------------------------------------
  // Control law and output stage

  /** `pout = -(K_p y_n + K_i integral + K_d derivative)`: the heater is driven
      against the filtered error. */
  function Effort(Kp: real, Ki: real, Kd: real, yn: real, integral: real, derivative: real): real
  {
    -(Kp * yn + Ki * integral + Kd * derivative)
  }

  /** The power command after the control step: a negative effort is cut to
      zero. */
  function PowerOut(p: real): (r: real)
    ensures r >= 0.0
    ensures p < 0.0 ==> r == 0.0
    ensures p >= 0.0 ==> r == p
  {
    if p < 0.0 then 0.0 else p
  }

  /** The output voltage for effort `p` whose square root is `root`:
      `(root + 0.7) * 5 / vcc` capped at 5, or 0 for a negative effort. */
  function OutputVoltage(p: real, root: NonNegReal): (v: real)
    ensures 0.0 <= v <= 5.0
    ensures p < 0.0 ==> v == 0.0
    ensures p >= 0.0 ==> v >= 0.7
    ensures p >= 0.0 && root + 0.7 <= 5.0 ==> v == root + 0.7
    ensures p >= 0.0 && root + 0.7 > 5.0 ==> v == 5.0
  {
    if p < 0.0 then 0.0
    else
      var u := (root + 0.7) * 5.0 / VCC;
      if u > 5.0 then 5.0 else u
  }

  /** A larger root never gives a smaller voltage. */
  lemma OutputMonotone(p: real, r1: NonNegReal, q: real, r2: NonNegReal)
    requires p >= 0.0 && q >= 0.0 && r1 <= r2
    ensures OutputVoltage(p, r1) <= OutputVoltage(q, r2)
  {
    var u1, u2 := (r1 + 0.7) * 5.0 / VCC, (r2 + 0.7) * 5.0 / VCC;
    assert u1 == r1 + 0.7 && u2 == r2 + 0.7;
  }

  /** C's conversion of a `double` to `int`: truncation toward zero. */
  function Trunc(r: real): (t: int)
    ensures r >= 0.0 ==> 0 <= t && t as real <= r < t as real + 1.0
    ensures r < 0.0 ==> t <= 0 && t as real - 1.0 < r <= t as real
  {
    if r >= 0.0 then r.Floor else -((-r).Floor)
  }

  /** The value written to the 12-bit DAC: `(int)(vout / 5 * 4095 * heat)`. */
  function DacCode(vout: real, heat: int): int
  {
    Trunc(vout / 5.0 * 4095.0 * (heat as real))
  }

  /** With the heater enabled (`heat == 1`) a voltage in [0, 5] gives a code in
      the DAC's range, 5 V giving full scale; `heat == 0` gives 0. */
  lemma DacRange(vout: real)
    requires 0.0 <= vout <= 5.0
    ensures 0 <= DacCode(vout, 1) <= 4095
    ensures vout == 5.0 ==> DacCode(vout, 1) == 4095
    ensures DacCode(vout, 0) == 0
  {
    var r := vout / 5.0 * 4095.0 * (1 as real);
    assert 0.0 <= r <= 4095.0;
    assert vout / 5.0 * 4095.0 * (0 as real) == 0.0;
  }

  /** First call after construction with `Kp = 1, Ki = 0, Kd = 0` and a
      positive error of 2: the filtered error is positive, the effort negative,
      so both the output voltage and the actuator code are 0. */
  lemma FirstCallPositiveError(dt: real, derivative: real, root: NonNegReal)
    ensures var yn := FilterOut(2.0, 0.0, 0.0, 0.0, 0.0);
            var e := Effort(1.0, 0.0, 0.0, yn, IntegralStep(0.0, 2.0, dt, 0.0), derivative);
            e < 0.0 && PowerOut(e) == 0.0 && OutputVoltage(e, root) == 0.0
            && DacCode(OutputVoltage(e, root), 1) == 0
  {
    var yn := FilterOut(2.0, 0.0, 0.0, 0.0, 0.0);
    assert yn == 2.0 * NUM[0];
    AntiWindupZeroGain(0.0 + 2.0 * dt);
  }

  /** The same first call with an error of -2: the effort is the filter's
      first-tap gain times 2 (not 2 itself, since the filter starts from zero
      history), so the output voltage is its square root plus 0.7. */
  lemma FirstCallNegativeError(dt: real, derivative: real, root: NonNegReal)
    requires root + 0.7 <= 5.0
    ensures var yn := FilterOut(-2.0, 0.0, 0.0, 0.0, 0.0);
            var e := Effort(1.0, 0.0, 0.0, yn, IntegralStep(0.0, -2.0, dt, 0.0), derivative);
            e == 2.0 * NUM[0] && PowerOut(e) == e && OutputVoltage(e, root) == root + 0.7
  {
    var yn := FilterOut(-2.0, 0.0, 0.0, 0.0, 0.0);
    assert yn == -2.0 * NUM[0];
    AntiWindupZeroGain(0.0 + -2.0 * dt);
  }

  // ---------------------------------------------------------------------------
  // Decimation

  function Abs(u: int): nat
  {
    if u >= 0 then u else -u
  }

  /** The `count` after `n` calls of `pid`, starting from `c`, each advancing
      `count = (count + 1) % u`. For a non-negative left operand Dafny's `%`
      and C's agree, whatever the sign of `u`. */
  function CountAfter(c: int, n: nat, u: int): int
    requires u != 0
  {
    if n == 0 then c else (CountAfter(c, n - 1, u) + 1) % u
  }

  /** Starting from 0 the counter after `n` calls is `n mod |u|`. */
  lemma {:induction false} CountClosedForm(n: nat, u: int)
    requires u != 0
    ensures CountAfter(0, n, u) == n % Abs(u)
  {
    if n > 0 {
      var p: nat := n - 1;
      CountClosedForm(p, u);
      assert CountAfter(0, n, u) == (CountAfter(0, p, u) + 1) % u;
      ModAbs(p % Abs(u) + 1, u);
      ModSucc(p, Abs(u));
    }
  }

  /** Dafny's remainder by a negative divisor is the remainder by its absolute
      value. */
  lemma ModAbs(x: int, u: int)
    requires u != 0
    ensures x % u == x % Abs(u)
  {
    if u < 0 {
      assert x == -(x / u) * (-u) + x % u;
      DivModUnique(x, -u, -(x / u), x % u);
    }
  }

  lemma ModSucc(n: nat, m: nat)
    requires m > 0
    ensures (n % m + 1) % m == (n + 1) % m
  {
    var q, r := n / m, n % m;
    if r + 1 < m {
      DivModUnique(n + 1, m, q, r + 1);
      DivModUnique(r + 1, m, 0, r + 1);
    } else {
      assert n + 1 == (q + 1) * m + 0;
      DivModUnique(n + 1, m, q + 1, 0);
      DivModUnique(r + 1, m, 1, 0);
    }
  }

  /** Two multiples of `m` less than `m` apart are equal. */
  lemma SameResidueClose(i: int, j: int, m: nat)
    requires m > 0 && i % m == 0 && j % m == 0 && -(m as int) < i - j < m
    ensures i == j
  {
    assert i == (i / m) * m && j == (j / m) * m;
    if i >= j {
      assert i - j == (i / m - j / m) * m + 0;
      DivModUnique(i - j, m, i / m - j / m, 0);
      DivModUnique(i - j, m, 0, i - j);
    } else {
      assert j - i == (j / m - i / m) * m + 0;
      DivModUnique(j - i, m, j / m - i / m, 0);
      DivModUnique(j - i, m, 0, j - i);
    }
  }

  /** Among any `|u|` consecutive calls exactly one finds `count == 0`: the
      call numbered `first`, counting calls from the constructor. */
  lemma OneComputePerWindow(start: nat, u: int) returns (first: nat)
    requires u != 0
    ensures start <= first < start + Abs(u) && CountAfter(0, first, u) == 0
    ensures forall j: nat :: start <= j < start + Abs(u) && CountAfter(0, j, u) == 0 ==> j == first
  {
    var m := Abs(u);
    var r := start % m;
    first := if r == 0 then start else start + (m - r);
    if r != 0 {
      assert first == (start / m + 1) * m + 0;
      DivModUnique(first, m, start / m + 1, 0);
    }
    CountClosedForm(first, u);
    forall j: nat | start <= j < start + m && CountAfter(0, j, u) == 0
      ensures j == first
    {
      CountClosedForm(j, u);
      SameResidueClose(j, first, m);
    }
  }
}
