/**
 * Stand-ins for the few framework types the simulation uses: entity ids,
 * 2D/3D vectors over the reals, an optional value, and a one-shot timer.
 * Coordinates are reals; single-precision rounding is not modelled.
 */
module Bevy {

  /** An opaque, stable entity identifier. */
  type Entity = nat

  datatype Vec2 = Vec2(x: real, y: real) {
    function Add(o: Vec2): Vec2 { Vec2(x + o.x, y + o.y) }
    function Scale(s: real): Vec2 { Vec2(x * s, y * s) }
  }

  datatype Vec3 = Vec3(x: real, y: real, z: real) {
    /** Drops the z coordinate (`translation.truncate()`). */
    function Truncate(): Vec2 { Vec2(x, y) }
    function Add(o: Vec3): Vec3 { Vec3(x + o.x, y + o.y, z + o.z) }
  }

  datatype Option<T> = None | Some(value: T)

  function Max(a: real, b: real): real { if a >= b then a else b }
  function Min(a: real, b: real): real { if a <= b then a else b }

  /**
   * A timer in `TimerMode::Once`: ticking adds the elapsed time, clamped to
   * the duration, and the timer is finished once it has reached its duration.
   */
  datatype Timer = Timer(duration: real, elapsed: real) {
    predicate Finished() { elapsed >= duration }

    function Tick(delta: real): (t: Timer)
      requires delta >= 0.0
      ensures t.duration == duration
      ensures t.Finished() <==> Finished() || elapsed + delta >= duration
    {
      if Finished() then this
      else Timer(duration, Min(elapsed + delta, duration))
    }
  }

  function TimerFromSeconds(seconds: real): (t: Timer)
    ensures t.duration == seconds && t.elapsed == 0.0
  {
    Timer(seconds, 0.0)
  }
}
