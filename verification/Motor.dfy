/** Driving a motor through its two PWM pins (`andino::Motor`). */
module MotorOutput {
  import opened Prelude

  const MIN_SPEED := 0
  const MAX_SPEED := 255

  /** The duty cycles on the forward and the backward pin. */
  datatype Pins = Pins(forward: int, backward: int) {
    /** In range, and never driven both ways. */
    predicate Safe() { 0 <= forward <= MAX_SPEED && 0 <= backward <= MAX_SPEED && (forward == 0 || backward == 0) }

    /** The signed drive of the motor. */
    function Drive(): int { forward - backward }
  }

  const STOPPED := Pins(0, 0)

  /** What the pins show for a speed. */
  function PinsFor(speed: int): (p: Pins)
    ensures p.Safe() && p.Drive() == Max(-MAX_SPEED, Min(MAX_SPEED, speed))
  {
    if speed >= 0 then Pins(Min(speed, MAX_SPEED), 0) else Pins(0, Min(-speed, MAX_SPEED))
  }

  class Motor {
    var forward: int
    var backward: int

    constructor ()
      ensures View() == STOPPED
    {
      forward, backward := 0, 0;
    }

    function View(): Pins
      reads this
    {
      Pins(forward, backward)
    }

    /** `set_speed`. */
    method SetSpeed(speed0: int)
      modifies this
      ensures View() == PinsFor(speed0)
      ensures View().Safe() && View().Drive() == Max(-MAX_SPEED, Min(MAX_SPEED, speed0))
    {
      var speed, ahead := speed0, true;
      if speed < MIN_SPEED {
        speed := -speed;
        ahead := false;
      }
      if speed > MAX_SPEED {
        speed := MAX_SPEED;
      }
      if ahead {
        forward := speed;
        backward := 0;
      } else {
        backward := speed;
        forward := 0;
      }
    }
  }
}
