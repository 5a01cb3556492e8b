/**
 * Angles of the line-following builder: the text orientation chosen from
 * the direction of the starting segment, and the normalisation of the
 * change of direction between consecutive glyphs before it is checked
 * against max_char_angle_delta (radians).
 */
module Angles {
  import opened RealArith

  /** M_PI as a double literal. */
  const PI: real := 3.141592653589793
  const TWO_PI: real := 2.0 * PI

  function Abs(x: real): real
  {
    if x < 0.0 then -x else x
  }

  /** The text runs right to left (orientation -1) when the segment points more than a quarter turn away from +x. */
  function Orientation(angle: real): (o: int)
    ensures o == -1 || o == 1
    ensures o == -1 <==> Abs(angle) > PI / 2.0
  {
    if Abs(angle) > PI / 2.0 then -1 else 1
  }

  // ---------------------------------------------------------------- normalisation

  /** A bound on the steps of `step` that bring d down to at most PI. */
  function DownMeasure(d: real, step: real): nat
    requires step > 0.0
  {
    if d > PI then ((d - PI) / step).Floor + 1 else 0
  }

  function UpMeasure(d: real, step: real): nat
    requires step > 0.0
  {
    if d < -PI then ((-PI - d) / step).Floor + 1 else 0
  }

  lemma QuotientLessOne(a: real, step: real)
    requires step > 0.0
    ensures (a - step) / step == a / step - 1.0
  {
    var q := a / step;
    assert q * step == a;
    assert (q - 1.0) * step == a - step;
    assert ((a - step) / step) * step == a - step;
    Cancel((a - step) / step, q - 1.0, step);
  }

  lemma DownMeasureDecreases(d: real, step: real)
    requires step > 0.0 && d > PI
    ensures DownMeasure(d - step, step) < DownMeasure(d, step)
  {
    QuotientLessOne(d - PI, step);
    assert d - step - PI == (d - PI) - step;
  }

  lemma UpMeasureDecreases(d: real, step: real)
    requires step > 0.0 && d < -PI
    ensures UpMeasure(d + step, step) < UpMeasure(d, step)
  {
    QuotientLessOne(-PI - d, step);
    assert -PI - (d + step) == (-PI - d) - step;
  }

  /** How many times the first normalisation loop subtracts `step` from d. */
  function DownCount(d: real, step: real): nat
    requires step > 0.0
    decreases DownMeasure(d, step)
  {
    if d > PI then DownMeasureDecreases(d, step); 1 + DownCount(d - step, step) else 0
  }

  /** How many times the second normalisation loop adds `step` to d. */
  function UpCount(d: real, step: real): nat
    requires step > 0.0
    decreases UpMeasure(d, step)
  {
    if d < -PI then UpMeasureDecreases(d, step); 1 + UpCount(d + step, step) else 0
  }

  /** The angle delta after both loops: `step` taken off while above PI, then added while below -PI. */
  function Normalised(d: real, step: real): real
    requires step > 0.0
  {
    var a := d - DownCount(d, step) as real * step;
    a + UpCount(a, step) as real * step
  }

  /** The loops as the builder runs them, with the step as a parameter. */
  method Normalise(delta: real, step: real) returns (r: real)
    requires 0.0 < step
    ensures r == Normalised(delta, step)
  {
    var lowered := StepDown(delta, step);
    r := StepUp(lowered, step);
    ghost var a := delta - DownCount(delta, step) as real * step;
    assert lowered == a;
    assert Normalised(delta, step) == a + UpCount(a, step) as real * step;
  }

  /** The first loop: subtracts `step` while the delta is above PI. */
  method StepDown(delta: real, step: real) returns (r: real)
    requires 0.0 < step
    ensures r == delta - DownCount(delta, step) as real * step
  {
    r := delta;
    ghost var down: nat := 0;
    while r > PI
      invariant r == delta - down as real * step
      invariant down + DownCount(r, step) == DownCount(delta, step)
      decreases DownMeasure(r, step)
    {
      DownMeasureDecreases(r, step);
      r := r - step;
      down := down + 1;
    }
  }

  /** The second loop: adds `step` while the delta is below -PI. */
  method StepUp(delta: real, step: real) returns (r: real)
    requires 0.0 < step
    ensures r == delta + UpCount(delta, step) as real * step
  {
    r := delta;
    ghost var up: nat := 0;
    while r < -PI
      invariant r == delta + up as real * step
      invariant up + UpCount(r, step) == UpCount(delta, step)
      decreases UpMeasure(r, step)
    {
      UpMeasureDecreases(r, step);
      r := r + step;
      up := up + 1;
    }
  }

  lemma {:induction false} DownCountLands(d: real, step: real)
    requires step > 0.0
    ensures d - DownCount(d, step) as real * step <= PI
    ensures d > PI ==> d - DownCount(d, step) as real * step > PI - step
    decreases DownMeasure(d, step)
  {
    if d > PI {
      DownMeasureDecreases(d, step);
      DownCountLands(d - step, step);
      assert d - DownCount(d, step) as real * step == (d - step) - DownCount(d - step, step) as real * step;
    }
  }

  lemma {:induction false} UpCountLands(d: real, step: real)
    requires step > 0.0
    ensures d + UpCount(d, step) as real * step >= -PI
    ensures d < -PI ==> d + UpCount(d, step) as real * step < -PI + step
    ensures d >= -PI ==> UpCount(d, step) == 0
    decreases UpMeasure(d, step)
  {
    if d < -PI {
      UpMeasureDecreases(d, step);
      UpCountLands(d + step, step);
      assert d + UpCount(d, step) as real * step == (d + step) + UpCount(d + step, step) as real * step;
    }
  }

  /** k whole turns, in radians. */
  function WholeTurns(k: int): real
  {
    k as real * TWO_PI
  }

  /** With any step up to a full turn the loops leave the delta within [-PI, PI]. */
  lemma NormalisedInRange(d: real, step: real)
    requires 0.0 < step <= TWO_PI
    ensures -PI <= Normalised(d, step) <= PI
  {
    DownCountLands(d, step);
    UpCountLands(d - DownCount(d, step) as real * step, step);
  }

  /** A full-turn step keeps the direction: the result differs from d by a whole number of turns. */
  lemma FullTurnKeepsDirection(d: real)
    ensures -PI <= Normalised(d, TWO_PI) <= PI
    ensures exists k: int :: Normalised(d, TWO_PI) == d + WholeTurns(k)
  {
    NormalisedInRange(d, TWO_PI);
    var k: int := UpCount(d - DownCount(d, TWO_PI) as real * TWO_PI, TWO_PI) - DownCount(d, TWO_PI);
    assert Normalised(d, TWO_PI) == d + WholeTurns(k);
  }

  /** The turn between two directions, as the builder checks it: their difference brought into [-PI, PI] by whole turns. */
  function Turn(lastAngle: real, angle: real): real
  {
    Normalised(lastAngle - angle, TWO_PI)
  }

  /** The turn as the source computes it, stepping by a half turn. */
  function TurnAsWritten(lastAngle: real, angle: real): real
  {
    Normalised(lastAngle - angle, PI)
  }

  /** The angle check fails an attempt when a limit is set and the turn exceeds it. */
  predicate TooSharp(maxCharAngleDelta: real, turn: real)
  {
    maxCharAngleDelta > 0.0 && Abs(turn) > maxCharAngleDelta
  }

  /**
   * Going from a segment at 0.55 PI to one at -0.55 PI turns by 0.9 PI
   * (162 degrees). The half-turn steps report 0.1 PI, which is not that
   * direction change modulo a full turn, and pass a 0.5 radian limit; the
   * full-turn steps report -0.9 PI and reject it.
   */
  lemma HalfTurnStepMisjudgesTurn()
    ensures TurnAsWritten(0.55 * PI, -0.55 * PI) == 0.1 * PI
    ensures forall k: int :: TurnAsWritten(0.55 * PI, -0.55 * PI) != 1.1 * PI + WholeTurns(k)
    ensures !TooSharp(0.5, TurnAsWritten(0.55 * PI, -0.55 * PI))
    ensures Turn(0.55 * PI, -0.55 * PI) == -0.9 * PI
    ensures TooSharp(0.5, Turn(0.55 * PI, -0.55 * PI))
  {
    var d := 0.55 * PI - -0.55 * PI;
    assert d == 1.1 * PI;
    assert DownCount(d - PI, PI) == 0;
    assert DownCount(d, PI) == 1;
    assert UpCount(d - PI, PI) == 0;
    assert DownCount(d - TWO_PI, TWO_PI) == 0;
    assert DownCount(d, TWO_PI) == 1;
    assert UpCount(d - TWO_PI, TWO_PI) == 0;
    forall k: int ensures 0.1 * PI != 1.1 * PI + WholeTurns(k) {
      if k >= 0 {
      } else {
        assert k as real <= -1.0;
      }
    }
  }
}
