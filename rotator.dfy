/**
 * The instrument-setup checks: `validate`, which accepts everything, and
 * `check_rotator_conflict`, which normalises a rotator angle and answers with
 * a status, a message and sometimes a suggested angle. Angles, declinations
 * and altitudes are degrees, modelled as exact reals.
 */
module Rotator {
  import opened Wrappers

  /** `validate`: every instrument setup is accepted. */
  function Validate<T>(setup: T): (accepted: bool)
    ensures accepted
  {
    true
  }

  function Abs(x: real): real { if x < 0.0 then -x else x }

  /** `x` is a whole multiple of 360 degrees. */
  predicate IsWholeTurns(x: real) {
    (x / 360.0).Floor as real == x / 360.0
  }

  /** Python's `x % 360` on a float: the remainder takes the sign of the divisor. */
  function Mod360(x: real): (m: real)
    ensures 0.0 <= m < 360.0
    ensures IsWholeTurns(x - m)
  {
    var q := (x / 360.0).Floor;
    assert (x - (x - 360.0 * q as real)) / 360.0 == q as real;
    x - 360.0 * q as real
  }

  /** The remainder is zero exactly for whole turns. */
  lemma Mod360Zero(x: real)
    ensures Mod360(x) == 0.0 <==> IsWholeTurns(x)
  {
    var q := (x / 360.0).Floor;
    if IsWholeTurns(x) {
      assert x == 360.0 * q as real;
    }
  }

  /** The angle folded into the rotator's range, `((a + 180) % 360) - 180`. */
  function NormalizedAngle(angle: real): (n: real)
    ensures -180.0 <= n < 180.0
    ensures IsWholeTurns(angle - n)
  {
    var m := Mod360(angle + 180.0);
    assert angle - (m - 180.0) == (angle + 180.0) - m;
    m - 180.0
  }

  /** The reply dictionary: `status`, `message`, and `suggested_angle` when the code sets one. */
  datatype Advice = Advice(status: string, message: string, suggested: Option<real>)

  const RangeError := " exceeds +/-180° range."
  const ConflictAbove30 := "!ROTATOR! Conflict with object above 30° altitude."
  const ConflictAboveHorizon := "!ROTATOR! Conflict with object above horizon."
  const UseAngle270 := "Declination < -29°: consider using rotator angle 270° instead of 90°."
  const Fine := Advice("ok", "(OK)", None)

  /**
   * `check_rotator_conflict`; `show` is Python's `str` of the angle, used only
   * in the message of the range error.
   */
  function CheckRotatorConflict(angle: real, declination: real, altitude: real, show: real -> string): Advice {
    var normalized := NormalizedAngle(angle);
    if Abs(normalized) > 180.0 then
      Advice("error", "Rotator angle " + show(angle) + "°" + RangeError, Some(Mod360(angle + 180.0)))
    else if Abs(normalized) == 180.0 && altitude > 30.0 then
      Advice("warning-red", ConflictAbove30, Some(Mod360(angle + 180.0)))
    else if Abs(normalized) == 180.0 && altitude > 0.0 then
      Advice("warning", ConflictAboveHorizon, Some(Mod360(angle + 180.0)))
    else if declination > -29.0 && angle == 90.0 then Fine
    else if declination < -29.0 && angle == 270.0 then Fine
    else if declination < -29.0 && angle == 90.0 then Advice("warning", UseAngle270, Some(270.0))
    else Fine
  }

  /** The angles the rotator cannot track through: 180 degrees plus whole turns. */
  predicate IsConflictAngle(angle: real) {
    IsWholeTurns(angle - 180.0)
  }

  /** The normalised angle sits at the edge of the range exactly for conflict angles. */
  lemma AtRangeEdge(angle: real)
    ensures Abs(NormalizedAngle(angle)) == 180.0 <==> IsConflictAngle(angle)
  {
    Mod360Zero(angle + 180.0);
    var x := angle + 180.0;
    var q := (x / 360.0).Floor;
    var p := ((angle - 180.0) / 360.0).Floor;
    assert (angle - 180.0) / 360.0 == x / 360.0 - 1.0;
    assert p == q - 1;
  }

  /** The range error is never returned: the normalised angle always lies in [-180, 180). */
  lemma NeverOutOfRange(angle: real, declination: real, altitude: real, show: real -> string)
    ensures CheckRotatorConflict(angle, declination, altitude, show).status != "error"
  {
  }

  /** Declination < -29 with the angle at 90: the advice to use 270 instead. */
  function DefaultAdvice(angle: real, declination: real): (a: Advice)
    ensures a.suggested.Some? <==> declination < -29.0 && angle == 90.0
    ensures a.suggested.Some? ==> a == Advice("warning", UseAngle270, Some(270.0))
    ensures a.suggested.None? ==> a == Fine
  {
    if declination < -29.0 && angle == 90.0 then Advice("warning", UseAngle270, Some(270.0)) else Fine
  }

  /**
   * The whole decision: at a conflict angle above the horizon a warning,
   * red above 30 degrees of altitude, suggesting the angle turned by half a
   * turn (always 0); anywhere else, including a conflict below the horizon,
   * the default advice.
   */
  lemma RotatorDecision(angle: real, declination: real, altitude: real, show: real -> string)
    ensures var advice := CheckRotatorConflict(angle, declination, altitude, show);
      && (IsConflictAngle(angle) && altitude > 30.0 ==>
            advice == Advice("warning-red", ConflictAbove30, Some(0.0)))
      && (IsConflictAngle(angle) && 0.0 < altitude <= 30.0 ==>
            advice == Advice("warning", ConflictAboveHorizon, Some(0.0)))
      && (!IsConflictAngle(angle) || altitude <= 0.0 ==> advice == DefaultAdvice(angle, declination))
  {
    AtRangeEdge(angle);
    var m := NormalizedAngle(angle);
    if IsConflictAngle(angle) {
      assert m == -180.0;
      assert Mod360(angle + 180.0) == 0.0;
    }
  }

  /** A suggested angle, when there is one, is a rotator position in [0, 360). */
  lemma SuggestionInRange(angle: real, declination: real, altitude: real, show: real -> string)
    ensures var advice := CheckRotatorConflict(angle, declination, altitude, show);
      advice.suggested.Some? ==> 0.0 <= advice.suggested.value < 360.0
  {
  }
}
