/** The PID controller object. Doubles are modelled as reals; the square root
    is a parameter of the constructor (any total function that is non-negative),
    the clock reading `millis() / 1000` is passed in where the source reads it,
    and the DAC on pin A0 is a trace `dac` of every value written to it. */
module PIDController {
  import opened PIDMath

  class PID {
    var verbose: bool
    var heat: int
    var Kp: real
    var Ki: real
    var Kd: real

    var dt: real
    var pout: real
    var vout: real
    var integral: real
    var derivative: real
    var updateNum: int
    var count: int
    var start: real

    // Filtering
    var yn: real
    var yn1: real
    var yn2: real
    var xn1: real
    var xn2: real
    var xn: real

    // Derivative approximation
    var a: real
    var b: real
    var coef: real
    var v: array<real>
    var y: array<real>
    var ind: int

    /** The square root used by the output stage. */
    const sqrt: NonNegReal -> NonNegReal
    /** Every value written to the actuator, oldest first. */
    var dac: seq<int>
    /** Number of completed `pid` calls. */
    ghost var calls: nat

    ghost predicate Valid()
      reads this`v, this`y, this`dt, this`ind, this`updateNum, this`count, this`calls, v
    {
      && v.Length == DERIV_NUM && y.Length == DERIV_NUM && v != y
      && dt != 0.0 && v[..] == Weights(dt)
      && 0 <= ind < DERIV_NUM
      && updateNum != 0 && count == CountAfter(0, calls, updateNum)
      && 0 <= count < Abs(updateNum)
    }

    /** The derivative window, oldest sample first: the slot at the cursor
        holds the oldest sample, the slot before it the newest. */
    ghost function Window(): (w: seq<real>)
      reads this`y, this`ind, y
      requires y.Length == DERIV_NUM
      ensures |w| == DERIV_NUM
    {
      Rotate(y[..], ind)
    }

    /** `PID(K_p, K_i, K_d, dt, update, verbose)` at clock reading `now`. The
        weights are the least-squares slope weights for five samples `dt`
        apart; histories, window, integral and counter start at zero. */
    constructor (Kpval: real, Kival: real, Kdval: real, dtval: real, update: int, verboseval: bool,
                 now: real, root: NonNegReal -> NonNegReal)
      requires dtval != 0.0 && update != 0
      ensures Valid() && fresh(v) && fresh(y)
      ensures Kp == Kpval && Ki == Kival && Kd == Kdval && dt == dtval
      ensures updateNum == update && verbose == verboseval && start == now && sqrt == root
      ensures heat == 1
      ensures a == FitA(dtval) && b == FitB(dtval) && coef == FitCoef(dtval)
      ensures Window() == seq(DERIV_NUM, _ => 0.0) && ind == 0
      ensures integral == 0.0 && derivative == 0.0
      ensures xn == 0.0 && xn1 == 0.0 && xn2 == 0.0 && yn1 == 0.0 && yn2 == 0.0
      ensures count == 0 && calls == 0 && dac == []
    {
      var vs := new real[DERIV_NUM];
      var ys := new real[DERIV_NUM];
      var c := FitCoef(dtval);
      var bb := FitB(dtval);
      var i := 0;
      while i < DERIV_NUM
        invariant 0 <= i <= DERIV_NUM
        invariant forall j :: 0 <= j < i ==> vs[j] == Weight(dtval, j) && ys[j] == 0.0
      {
        vs[i] := c * (((DERIV_NUM * i) as real) * dtval - bb);
        ys[i] := 0.0;
        i := i + 1;
      }
      verbose := verboseval;
      heat := 1;
      Kp, Ki, Kd := Kpval, Kival, Kdval;
      dt := dtval;
      integral, derivative := 0.0, 0.0;
      updateNum, count := update, 0;
      start := now;
      yn1, yn2, xn1, xn2, xn := 0.0, 0.0, 0.0, 0.0, 0.0;
      a, b, coef := FitA(dtval), bb, c;
      v, y, ind := vs, ys, 0;
      sqrt := root;
      dac := [];
      calls := 0;
      new;
      assert v[..] == Weights(dt);
      assert Rotate(y[..], 0) == seq(DERIV_NUM, _ => 0.0);
    }

    /** `update_derivative(err)`: store the sample over the oldest one, take the
        dot product of the weights with the window read oldest first, and
        advance the cursor. */
    method UpdateDerivative(err: real)
      requires Valid()
      modifies this`derivative, this`ind, y
      ensures Valid()
      ensures Window() == Push(old(Window()), err)
      ensures derivative == Dot(Weights(dt), Window())
      ensures ind == (old(ind) + 1) % DERIV_NUM
    {
      ghost var before := y[..];
      y[ind] := err;
      ghost var w := Rotate(y[..], ind + 1);
      RotateAfterWrite(before, ind, err);
      assert y[..] == before[ind := err];
      // The sum is accumulated in a local and stored once.
      var sum := 0.0;
      var i := 0;
      while i < DERIV_NUM
        invariant 0 <= i <= DERIV_NUM
        invariant sum == DotUpTo(v[..], w, i)
      {
        assert y[(i + ind + 1) % DERIV_NUM] == w[i];
        sum := sum + v[i] * y[(i + ind + 1) % DERIV_NUM];
        i := i + 1;
      }
      derivative := sum;
      RotateWrap(y[..], ind);
      ind := (ind + 1) % DERIV_NUM;
    }

    /** `update_int(err)`: accumulate `err * dt`, then clamp so that
        `K_i * integral` lies in [-10, 10]. */
    method UpdateInt(err: real)
      requires Valid()
      modifies this`integral
      ensures Valid()
      ensures integral == IntegralStep(old(integral), err, dt, Ki)
      ensures WithinWindupBound(Ki, integral)
    {
      AntiWindupBounds(integral + err * dt, Ki);
      integral := integral + err * dt;
      if Ki * integral >= 10.0 {
        integral := 10.0 / Ki;
      } else if Ki * integral <= -10.0 {
        integral := -10.0 / Ki;
      }
    }

    /** `pid(temp_v, err)`. The sensor reading `temp_v` feeds only the printed
        temperature. Every call updates the integral, filters the error, updates
        the derivative and writes the actuator; only a call that finds
        `count == 0` recomputes `pout` and `vout`. */
    method Pid(tempV: real, err: real)
      requires Valid()
      modifies this`integral, this`xn, this`xn1, this`xn2, this`yn, this`yn1, this`yn2
      modifies this`derivative, this`ind, y, this`pout, this`vout, this`dac, this`count, this`calls
      ensures Valid()
      ensures integral == IntegralStep(old(integral), err, dt, Ki) && WithinWindupBound(Ki, integral)
      ensures yn == FilterOut(err, old(xn1), old(xn2), old(yn1), old(yn2))
      ensures xn == err && xn1 == err && xn2 == old(xn1) && yn1 == yn && yn2 == old(yn1)
      ensures Window() == Push(old(Window()), yn)
      ensures derivative == Dot(Weights(dt), Window())
      ensures var e := Effort(Kp, Ki, Kd, yn, integral, derivative);
              old(count) == 0 ==> pout == PowerOut(e) && vout == OutputVoltage(e, sqrt(PowerOut(e)))
      ensures old(count) != 0 ==> pout == old(pout) && vout == old(vout)
      ensures old(count) == 0 || 0.0 <= old(vout) <= 5.0 ==> 0.0 <= vout <= 5.0
      ensures dac == old(dac) + [DacCode(vout, heat)]
      ensures heat == 1 && 0.0 <= vout <= 5.0 ==> 0 <= dac[|dac| - 1] <= 4095
      ensures calls == old(calls) + 1 && count == (old(count) + 1) % updateNum
    {
      UpdateInt(err);
      FilterStep(err);
      Actuate();
    }

    /** The decimated output part of `pid`: the control law when `count == 0`,
        the actuator write on every call, then the counter step. */
    method Actuate()
      requires Valid()
      modifies this`pout, this`vout, this`dac, this`count, this`calls
      ensures Valid()
      ensures var e := Effort(Kp, Ki, Kd, yn, integral, derivative);
              old(count) == 0 ==> pout == PowerOut(e) && vout == OutputVoltage(e, sqrt(PowerOut(e)))
      ensures old(count) != 0 ==> pout == old(pout) && vout == old(vout)
      ensures old(count) == 0 || 0.0 <= old(vout) <= 5.0 ==> 0.0 <= vout <= 5.0
      ensures dac == old(dac) + [DacCode(vout, heat)]
      ensures heat == 1 && 0.0 <= vout <= 5.0 ==> 0 <= dac[|dac| - 1] <= 4095
      ensures calls == old(calls) + 1 && count == (old(count) + 1) % updateNum
    {
      if count == 0 {
        ControlLaw();
      }
      WriteActuator();
      AdvanceCount();
    }

    /** The filter part of `pid`: filter the error, push the filtered value
        into the derivative window and shift the filter histories. */
    method FilterStep(err: real)
      requires Valid()
      modifies this`xn, this`xn1, this`xn2, this`yn, this`yn1, this`yn2, this`derivative, this`ind, y
      ensures Valid()
      ensures yn == FilterOut(err, old(xn1), old(xn2), old(yn1), old(yn2))
      ensures xn == err && xn1 == err && xn2 == old(xn1) && yn1 == yn && yn2 == old(yn1)
      ensures Window() == Push(old(Window()), yn)
      ensures derivative == Dot(Weights(dt), Window())
    {
      xn := err;
      yn := NUM[0] * xn + NUM[1] * xn1 + NUM[2] * xn2 - DENOM[1] * yn1 - DENOM[2] * yn2;
      UpdateDerivative(yn);
      xn2 := xn1;
      xn1 := xn;
      yn2 := yn1;
      yn1 := yn;
    }

    /** The control law of `pid`, run when `count == 0`: the effort, cut to
        zero when negative, and the output voltage capped at 5. */
    method ControlLaw()
      requires Valid()
      modifies this`pout, this`vout
      ensures Valid()
      ensures var e := Effort(Kp, Ki, Kd, yn, integral, derivative);
              pout == PowerOut(e) && vout == OutputVoltage(e, sqrt(PowerOut(e)))
      ensures 0.0 <= vout <= 5.0
    {
      pout := Effort(Kp, Ki, Kd, yn, integral, derivative);
      if pout < 0.0 {
        pout := 0.0;
        vout := 0.0;
      } else {
        vout := (sqrt(pout) + 0.7) * 5.0 / VCC;
        if vout > 5.0 {
          vout := 5.0;
        }
      }
    }

    /** `analogWrite(A0, (int)(vout / 5 * 4095 * heat))`, done on every call. */
    method WriteActuator()
      requires Valid()
      modifies this`dac
      ensures Valid()
      ensures dac == old(dac) + [DacCode(vout, heat)]
      ensures heat == 1 && 0.0 <= vout <= 5.0 ==> 0 <= dac[|dac| - 1] <= 4095
    {
      dac := dac + [DacCode(vout, heat)];
      if heat == 1 && 0.0 <= vout <= 5.0 {
        DacRange(vout);
      }
    }

    /** The decimation step closing `pid`: `count = (count + 1) % update_num`. */
    method AdvanceCount()
      requires Valid()
      modifies this`count, this`calls
      ensures Valid()
      ensures calls == old(calls) + 1 && count == (old(count) + 1) % updateNum
    {
      count := (count + 1) % updateNum;
      calls := calls + 1;
      CountClosedForm(calls, updateNum);
    }

    /** `set_start_time()`: take the clock reading `now` as the new time
        origin; nothing else changes. */
    method SetStartTime(now: real)
      modifies this`start
      ensures start == now
    {
      start := now;
    }

    /** `set_integral(val)`: overwrite the integral; nothing else changes. */
    method SetIntegral(val: real)
      modifies this`integral
      ensures integral == val
    {
      integral := val;
    }
  }
}
