/**
 * Simulation constants and the speed-scaled runtime settings: ant speed,
 * collision radius and pick-up cooldown derived from one speed multiplier.
 */
module Config {
  import opened Bevy

  const ANT_SPAWN_STEP: int := 50
  const ANT_SPAWN_Y: real := 100.0
  const FOOD_COUNT: int := 80
  const SPATIAL_CELL_SIZE: real := 20.0
  const ANT_Z_LAYER: real := 2.0
  const FOOD_Z_LAYER: real := 1.0
  const CARRIED_FOOD_Z_LAYER: real := 3.0
  const BASE_ANT_SPEED: real := 100.0
  const BASE_PICKUP_COOLDOWN: real := 1.0
  const BASE_COLLISION_RADIUS: real := 10.0
  const MIN_SPEED_MULTIPLIER: real := 0.1
  const MAX_SPEED_MULTIPLIER: real := 10.0

  type PositiveReal = r: real | r > 0.0 witness 1.0

  /*
   * The systems refer to an ant speed, a pick-up cooldown and a collision
   * radius that the constant table does not define (only their BASE_
   * versions). They are kept abstract: some positive value each.
   */
  const ANT_SPEED: PositiveReal
  const PICKUP_COOLDOWN: PositiveReal
  const COLLISION_RADIUS: PositiveReal

  /** The runtime settings resource. */
  datatype SimulationSettings = SimulationSettings(speedMultiplier: real) {

    /** Ant speed in pixels per second for the current multiplier. */
    function AntSpeed(): (v: real)
      ensures speedMultiplier > 0.0 ==> v > 0.0
    {
      BASE_ANT_SPEED * speedMultiplier
    }

    /** Collision radius, grown with the speed to avoid tunnelling. */
    function CollisionRadius(): (r: real)
      ensures r == BASE_COLLISION_RADIUS + (speedMultiplier - 1.0) * 5.0
    {
      BASE_COLLISION_RADIUS * (1.0 + (speedMultiplier - 1.0) * 0.5)
    }

    /** Pick-up cooldown, shortened at higher speed; the divisor is at least 0.1. */
    function PickupCooldown(): (c: real)
      ensures 0.0 < c <= 10.0
      ensures c * Max(speedMultiplier, 0.1) == BASE_PICKUP_COOLDOWN
    {
      BASE_PICKUP_COOLDOWN / Max(speedMultiplier, 0.1)
    }
  }

  /** The settings the simulation starts with. */
  function DefaultSettings(): (s: SimulationSettings)
    ensures s.AntSpeed() == BASE_ANT_SPEED
    ensures s.CollisionRadius() == BASE_COLLISION_RADIUS
    ensures s.PickupCooldown() == BASE_PICKUP_COOLDOWN
  {
    SimulationSettings(1.0)
  }

  predicate InSpeedRange(m: real) {
    MIN_SPEED_MULTIPLIER <= m <= MAX_SPEED_MULTIPLIER
  }

  /** The ant speed grows strictly with the multiplier, and over the UI's range stays within [10, 1000]. */
  lemma AntSpeedIncreasing(a: SimulationSettings, b: SimulationSettings)
    requires a.speedMultiplier < b.speedMultiplier
    ensures a.AntSpeed() < b.AntSpeed()
    ensures InSpeedRange(a.speedMultiplier) ==> 10.0 <= a.AntSpeed() <= 1000.0
  {
  }

  /** The collision radius grows strictly with the multiplier. */
  lemma CollisionRadiusIncreasing(a: SimulationSettings, b: SimulationSettings)
    requires a.speedMultiplier < b.speedMultiplier
    ensures a.CollisionRadius() < b.CollisionRadius()
  {
  }

  /** Over the UI's multiplier range the radius stays within [5.5, 55]. */
  lemma CollisionRadiusBounds(s: SimulationSettings)
    requires InSpeedRange(s.speedMultiplier)
    ensures 5.5 <= s.CollisionRadius() <= 55.0
  {
  }

  /** The pick-up cooldown never grows when the multiplier grows. */
  lemma PickupCooldownNonIncreasing(a: SimulationSettings, b: SimulationSettings)
    requires a.speedMultiplier <= b.speedMultiplier
    ensures b.PickupCooldown() <= a.PickupCooldown()
  {
    var da, db := Max(a.speedMultiplier, 0.1), Max(b.speedMultiplier, 0.1);
    var ca, cb := a.PickupCooldown(), b.PickupCooldown();
    assert da <= db;
    assert cb * db == 1.0 && ca * da == 1.0;
    assert cb * da <= cb * db;
    assert cb * da <= ca * da;
  }

  /**
   * The grid cell must exceed the interaction radius: it does for the base
   * radius, and for the speed-scaled radius exactly when the multiplier is below 3.
   */
  lemma CellExceedsRadiusIffSlow(s: SimulationSettings)
    ensures BASE_COLLISION_RADIUS < SPATIAL_CELL_SIZE
    ensures s.CollisionRadius() < SPATIAL_CELL_SIZE <==> s.speedMultiplier < 3.0
  {
  }
}
