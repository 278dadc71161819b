/** The two kinds of game object: a bullet, inert until fired, and a
    battleship that carries a magazine of bullets. Each is an object whose
    fields the game updates in place. */
module Entities {
  import opened Physics

  /** Battleship defaults (`Battleship.__init__`). */
  const InitialPosition: Vec := Vec(40.0, 40.0)
  const InitialAngle: real := 0.0
  const InitialSpeed: real := 0.6
  const MaxSpeed: real := 3.0
  const NaturalDeceleration: real := 0.0
  /** Bullets a battleship is built with (`WorldBattleship.initialize`). */
  const MagazineSize: nat := 10
  /** Launch speed of a fired bullet (`shoot_bullet`). */
  const BulletSpeed: real := 4.0
  /** Velocity a bullet is built with when none is given (`Bullet.__init__`). */
  const DefaultBulletVelocity: Vec := Vec(0.5, 0.5)

  /** The kinematic part of a battleship: position, heading in degrees,
      signed scalar speed and velocity components. */
  datatype ShipState = ShipState(position: Vec, angle: real, speed: real, components: Vec)

  function InitialShipState(): ShipState
  {
    ShipState(InitialPosition, InitialAngle, InitialSpeed, VelComp(InitialAngle, InitialSpeed))
  }

  /** The speed is within the bound and a whole number of hundredths. */
  predicate SpeedOk(s: ShipState)
  {
    Abs(s.speed) <= MaxSpeed && OnCentGrid(s.speed)
  }

  /** The velocity components are those of the current heading and speed. */
  predicate Consistent(s: ShipState)
  {
    s.components == VelComp(s.angle, s.speed)
  }

  /** `set_velocity(v)`: accepted only within the bound; the speed is
      stored rounded, the components are computed from `v` itself. */
  function WithSpeed(s: ShipState, v: real): ShipState
  {
    if Abs(v) <= MaxSpeed then s.(speed := Round2(v), components := VelComp(s.angle, v)) else s
  }

  /** `rotate_yourself(d)`: the heading grows by `d`, with no reduction
      modulo 360, and the components follow the new heading. */
  function Rotated(s: ShipState, d: real): ShipState
  {
    s.(angle := s.angle + d, components := VelComp(s.angle + d, s.speed))
  }

  /** `move`: natural deceleration applied to the absolute speed, then one
      step along the (possibly recomputed) components. */
  function Ticked(s: ShipState): ShipState
  {
    var t := WithSpeed(s, Abs(s.speed) - NaturalDeceleration);
    t.(position := Translate(t.position, t.components))
  }

  lemma InitialShipStateOk()
    ensures SpeedOk(InitialShipState()) && Consistent(InitialShipState())
  {
    assert (InitialSpeed * 100.0).Floor == 60;
  }

  /** set_velocity keeps the speed invariant; an out-of-bound request
      changes nothing, an accepted one never moves the ship or turns it. */
  lemma WithSpeedKeepsSpeedOk(s: ShipState, v: real)
    requires SpeedOk(s)
    ensures SpeedOk(WithSpeed(s, v))
    ensures Abs(v) > MaxSpeed ==> WithSpeed(s, v) == s
    ensures WithSpeed(s, v).position == s.position && WithSpeed(s, v).angle == s.angle
  {
    if Abs(v) <= MaxSpeed {
      Round2Within(v, 3);
      Round2OnGrid(v);
    }
  }

  /** An accepted speed that is already a whole number of hundredths leaves
      the components consistent; any other accepted speed stores the
      rounded value but components computed from the unrounded one. */
  lemma WithSpeedConsistency(s: ShipState, v: real)
    requires Abs(v) <= MaxSpeed && OnCentGrid(v)
    ensures Consistent(WithSpeed(s, v)) && WithSpeed(s, v).speed == v
  {
    Round2OnGrid(v);
  }

  /** A rotation keeps the speed, leaves the components consistent, and
      is undone by the opposite rotation when they were consistent before. */
  lemma RotationProperties(s: ShipState, d: real)
    ensures Consistent(Rotated(s, d)) && Rotated(s, d).speed == s.speed
    ensures Rotated(s, d).angle == s.angle + d
    ensures Consistent(s) ==> Rotated(Rotated(s, d), -d) == s
  {
  }

  /** One tick: the speed becomes its absolute value (a negative speed turns
      positive, reversing the direction of travel), stays within the bound,
      the components become consistent, the heading is kept, and the ship
      moves by exactly its new components. */
  lemma TickProperties(s: ShipState)
    requires SpeedOk(s)
    ensures Ticked(s).speed == Abs(s.speed) >= 0.0
    ensures SpeedOk(Ticked(s)) && Consistent(Ticked(s))
    ensures Ticked(s).angle == s.angle
    ensures Ticked(s).position == Translate(s.position, Ticked(s).components)
  {
    assert NaturalDeceleration == 0.0;
    assert OnCentGrid(Abs(s.speed)) by {
      if s.speed < 0.0 {
        assert (-s.speed * 100.0).Floor == -((s.speed * 100.0).Floor);
      }
    }
    Round2OnGrid(Abs(s.speed));
  }

  /** A bullet (`Bullet`/`WorldBullet`). Before it is fired its position and
      activation time are unset in the source; here they hold placeholder
      values that nothing reads while `activated` is false. */
  class Bullet {
    var activated: bool
    var activationTime: real
    var position: Vec
    var velocity: Vec
    const nameExtended: string

    constructor (nameExtended: string)
      ensures !activated && velocity == DefaultBulletVelocity
      ensures this.nameExtended == nameExtended
    {
      activated := false;
      activationTime := 0.0;
      position := Vec(0.0, 0.0);
      velocity := DefaultBulletVelocity;
      this.nameExtended := nameExtended;
    }

    method SetPosition(p: Vec)
      modifies this
      ensures position == p
      ensures activated == old(activated) && activationTime == old(activationTime)
      ensures velocity == old(velocity)
    {
      position := p;
    }

    method SetVelocity(v: Vec)
      modifies this
      ensures velocity == v
      ensures activated == old(activated) && activationTime == old(activationTime)
      ensures position == old(position)
    {
      velocity := v;
    }

    /** `activate_bullet`, with the clock reading passed in as `now`. */
    method Activate(now: real)
      modifies this
      ensures activated && activationTime == now
      ensures position == old(position) && velocity == old(velocity)
    {
      activated := true;
      activationTime := now;
    }

    /** `update`: a fired bullet moves one step; an inert one stays put. */
    method Update()
      modifies this
      ensures position == if activated then Translate(old(position), velocity) else old(position)
      ensures activated == old(activated) && activationTime == old(activationTime)
      ensures velocity == old(velocity)
    {
      if activated {
        position := Translate(position, velocity);
      }
    }
  }

  /** A battleship (`Battleship`/`WorldBattleship`). */
  class Battleship {
    var position: Vec
    var angle: real
    var speed: real
    var components: Vec
    /** The magazine, used as a stack: the last bullet is fired first. */
    var bullets: seq<Bullet>
    const nameExtended: string

    function State(): ShipState
      reads this
    {
      ShipState(position, angle, speed, components)
    }

    /** The magazine holds distinct bullets, none of them fired. */
    ghost predicate MagazineOk()
      reads this, bullets
    {
      && (forall i, j | 0 <= i < j < |bullets| :: bullets[i] != bullets[j])
      && (forall b | b in bullets :: !b.activated)
    }

    ghost predicate Valid()
      reads this, bullets
    {
      SpeedOk(State()) && MagazineOk()
    }

    constructor (magazine: seq<Bullet>, nameExtended: string)
      ensures State() == InitialShipState()
      ensures bullets == magazine && this.nameExtended == nameExtended
    {
      position := InitialPosition;
      angle := InitialAngle;
      speed := InitialSpeed;
      components := VelComp(InitialAngle, InitialSpeed);
      bullets := magazine;
      this.nameExtended := nameExtended;
    }

    /** `set_velocity`: ignored outside [-MaxSpeed, MaxSpeed]. */
    method SetVelocity(v: real)
      requires Valid()
      modifies this
      ensures Valid()
      ensures State() == WithSpeed(old(State()), v)
      ensures bullets == old(bullets)
    {
      WithSpeedKeepsSpeedOk(State(), v);
      if Abs(v) <= MaxSpeed {
        speed := Round2(v);
        components := VelComp(angle, v);
      }
    }

    /** `rotate_yourself`. */
    method Rotate(d: real)
      requires Valid()
      modifies this
      ensures Valid()
      ensures State() == Rotated(old(State()), d)
      ensures bullets == old(bullets)
    {
      angle := angle + d;
      components := VelComp(angle, speed);
    }

    /** `move`, which `update` calls. */
    method Update()
      requires Valid()
      modifies this
      ensures Valid()
      ensures State() == Ticked(old(State()))
      ensures bullets == old(bullets)
    {
      SetVelocity(Abs(speed) - NaturalDeceleration);
      position := Translate(position, components);
    }

    /** `shoot_bullet`: with an empty magazine nothing happens; otherwise the
        last bullet leaves the magazine and is fired from the ship's
        position along its heading at BulletSpeed, stamped with `now`. */
    method ShootBullet(now: real)
      requires Valid()
      modifies this, bullets
      ensures Valid()
      ensures State() == old(State())
      ensures old(|bullets|) == 0 ==> bullets == old(bullets)
      ensures old(|bullets|) > 0 ==>
        && bullets == old(bullets[..|bullets| - 1])
        && var b := old(bullets[|bullets| - 1]);
        && b.activated && b.activationTime == now
        && b.position == position && b.velocity == VelComp(angle, BulletSpeed)
      ensures forall b | b in bullets :: unchanged(b)
    {
      if |bullets| > 0 {
        var b := bullets[|bullets| - 1];
        bullets := bullets[..|bullets| - 1];
        assert b !in bullets by {
          assert forall i | 0 <= i < |bullets| :: old(bullets)[i] != old(bullets)[|old(bullets)| - 1];
        }
        b.SetPosition(position);
        b.SetVelocity(VelComp(angle, BulletSpeed));
        b.Activate(now);
      }
    }
  }
}
