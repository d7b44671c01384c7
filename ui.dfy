/**
 * The keyboard rule for the speed multiplier: minus slows down by 0.5,
 * equal speeds up by 0.5, R resets to 1.0, each clamped to the multiplier
 * range, and the speed bar shows the multiplier as a percentage of that range.
 */
module Ui {
  import opened Bevy
  import opened Config

  /** The keys pressed in this frame (`just_pressed`). */
  datatype Keys = Keys(minus: bool, equal: bool, reset: bool)

  /** The speed bar fill: the multiplier's position in the range, in percent. */
  function SpeedPercent(m: real): (p: real)
    ensures InSpeedRange(m) ==> 0.0 <= p <= 100.0
    ensures m == MIN_SPEED_MULTIPLIER ==> p == 0.0
    ensures m == MAX_SPEED_MULTIPLIER ==> p == 100.0
  {
    (m - MIN_SPEED_MULTIPLIER) / (MAX_SPEED_MULTIPLIER - MIN_SPEED_MULTIPLIER) * 100.0
  }

  /**
   * One frame of keyboard handling. Returns the settings afterwards and the
   * percentage written to the speed bar, which is only written when a key changed the speed.
   */
  method HandleKeyboardInput(settings: SimulationSettings, keys: Keys)
    returns (updated: SimulationSettings, barPercent: Option<real>)
    ensures barPercent.Some? <==> keys.minus || keys.equal || keys.reset
    ensures !(keys.minus || keys.equal || keys.reset) ==> updated == settings
    ensures keys.reset ==> updated.speedMultiplier == 1.0
    ensures !keys.reset && keys.minus && !keys.equal ==>
      updated.speedMultiplier == Max(settings.speedMultiplier - 0.5, MIN_SPEED_MULTIPLIER)
    ensures !keys.reset && !keys.minus && keys.equal ==>
      updated.speedMultiplier == Min(settings.speedMultiplier + 0.5, MAX_SPEED_MULTIPLIER)
    ensures !keys.reset && keys.minus && keys.equal ==>
      updated.speedMultiplier ==
        Min(Max(settings.speedMultiplier - 0.5, MIN_SPEED_MULTIPLIER) + 0.5, MAX_SPEED_MULTIPLIER)
    ensures InSpeedRange(settings.speedMultiplier) ==> InSpeedRange(updated.speedMultiplier)
    ensures barPercent.Some? ==> barPercent.value == SpeedPercent(updated.speedMultiplier)
    ensures barPercent.Some? && InSpeedRange(settings.speedMultiplier) ==>
      0.0 <= barPercent.value <= 100.0
  {
    var speedChanged := false;
    var newSpeed := settings.speedMultiplier;

    if keys.minus {
      newSpeed := Max(newSpeed - 0.5, MIN_SPEED_MULTIPLIER);
      speedChanged := true;
    }

    if keys.equal {
      newSpeed := Min(newSpeed + 0.5, MAX_SPEED_MULTIPLIER);
      speedChanged := true;
    }

    if keys.reset {
      newSpeed := 1.0;
      speedChanged := true;
    }

    updated := settings;
    barPercent := None;
    if speedChanged {
      updated := settings.(speedMultiplier := newSpeed);
      barPercent := Some(SpeedPercent(newSpeed));
    }
  }
}
