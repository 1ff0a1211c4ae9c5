/**
 * The constants of the game and the places where the two ports compute differently.
 *
 * The level multiplier is 1 + level * 0.1 in both ports; it is kept here as the exact rational
 * (10 + level) / 10. The browser port scales a direction by it and applies Math.floor to each
 * component; the console port first converts the multiplier to a `short` (truncation) and then
 * multiplies.
 */
module Rules {
  import opened Vectors

  datatype Port = Js | C

  /**
   * How Chase target selection ends. Both ports as written fall through from the Chase case into
   * the Frightened case, so the random target overwrites the per-kind chase target;
   * BreakAfterChase is the evidently intended behaviour.
   */
  datatype ChaseTargeting = FallsThrough | BreakAfterChase

  datatype Rules = Rules(port: Port, chase: ChaseTargeting)

  const JsAsWritten := Rules(Js, FallsThrough)
  const CAsWritten := Rules(C, FallsThrough)

  const Width := 28
  const Height := 36
  const TicksPerSecond := 60
  const MaxLives := 3

  /** Both ports' ghosts stay frightened (and stay penned after being eaten) for six seconds. */
  const SixSeconds := 6 * TicksPerSecond

  /** floor(base / multiplier) for a non-negative base, the same in both ports. */
  function PerLevel(base: nat, level: nat): (r: nat)
    ensures r * (10 + level) <= base * 10 < (r + 1) * (10 + level)
  {
    (base * 10) / (10 + level)
  }

  /** A larger base never gives a smaller per-level value. */
  lemma PerLevelMonotone(a: nat, b: nat, level: nat)
    requires a <= b
    ensures PerLevel(a, level) <= PerLevel(b, level)
  {
    var p := PerLevel(a, level);
    var q := PerLevel(b, level);
    assert p * (10 + level) <= a * 10 <= b * 10 < (q + 1) * (10 + level);
    ScaleMonotone(q + 1, p, 10 + level);
  }

  /** Scaling by a non-negative factor keeps the order. */
  lemma ScaleMonotone(x: int, y: int, k: nat)
    ensures x <= y ==> x * k <= y * k
  {
    if x <= y {
      assert y * k == x * k + (y - x) * k;
    }
  }

  /** The whole-tile part of the multiplier, as the console port's `short` conversion yields it. */
  function WholeMultiplier(level: nat): (r: nat)
    ensures r >= 1
    ensures r * 10 <= 10 + level < (r + 1) * 10
  {
    (10 + level) / 10
  }

  /** The displacement of one ghost step (and of one direction probe) along direction d. */
  function GhostStep(port: Port, level: nat, d: Vec): Vec {
    match port
    case Js => ScaleFloor(d, 10 + level, 10)
    case C => Scale(d, WholeMultiplier(level))
  }

  /** In the console port every direction moves trunc(multiplier) tiles. */
  lemma CStepIsWholeMultiple(level: nat, d: Dir)
    ensures GhostStep(C, level, DirVec(d)) == Scale(DirVec(d), WholeMultiplier(level))
    ensures level < 10 ==> GhostStep(C, level, DirVec(d)) == DirVec(d)
  {
  }

  /** floor(-(10 + level) / 10) is -2 for levels 1 to 10. */
  lemma NegativeFloor(level: nat)
    requires 1 <= level <= 10
    ensures -(10 + level) / 10 == -2
  {
    var q := -(10 + level) / 10;
    assert q * 10 <= -(10 + level) < q * 10 + 10;
  }

  /** floor((10 + level) / 10) is 1 for levels 0 to 9. */
  lemma PositiveFloor(level: nat)
    requires level <= 9
    ensures (10 + level) / 10 == 1
  {
    var q := (10 + level) / 10;
    assert q * 10 <= 10 + level < q * 10 + 10;
  }

  /**
   * In the browser port floor(-multiplier) is -2 for levels 1 to 10, so Left and Up move two
   * tiles while Right and Down move one (up to level 9).
   */
  lemma JsStepIsAsymmetric(level: nat)
    requires 1 <= level <= 9
    ensures GhostStep(Js, level, DirVec(Left)) == Vec(-2, 0)
    ensures GhostStep(Js, level, DirVec(Up)) == Vec(0, -2)
    ensures GhostStep(Js, level, DirVec(Right)) == Vec(1, 0)
    ensures GhostStep(Js, level, DirVec(Down)) == Vec(0, 1)
  {
    NegativeFloor(level);
    PositiveFloor(level);
    assert -1 * (10 + level) == -(10 + level);
  }

  /** Both ports agree on ghost steps at level 0, where the multiplier is exactly 1. */
  lemma PortsAgreeAtLevelZero(d: Dir)
    ensures GhostStep(Js, 0, DirVec(d)) == GhostStep(C, 0, DirVec(d)) == DirVec(d)
  {
  }
}
