/**
  A single ship and its one-tick movement controller: snap to a stop when
  close and slow, brake when faster than it can safely stop, accelerate
  toward the target when there is room below that speed, otherwise coast.
*/
module Ships {
  import opened Numeric
  import opened Vectors

  /** Below this distance the ship does not steer toward its target. */
  const EPSILON: real := 0.001
  /** A ship closer than this to its target ... */
  const STOP_DIST: real := 0.1
  /** ... and slower than this is stopped dead. */
  const STOP_SPEED: real := 0.1

  datatype ShipConfig = ShipConfig(
    maxSpeed: real,
    maxAccel: real,
    maxDecel: real,
    aimRange: real,
    fireDelay: U32,
    health: U32)
  {
    /**
      Speeds, thrust and braking are non-negative; a negative one would make
      the safe-speed square root undefined.
    */
    predicate Valid() {
      0.0 <= maxSpeed && 0.0 <= maxAccel && 0.0 <= maxDecel
    }
  }

  /** A configuration a ship can fly with. */
  type ValidShipConfig = c: ShipConfig | c.Valid() witness ShipConfig(0.0, 0.0, 0.0, 0.0, 0, 0)

  /** `ShipConfig::default`. */
  function DefaultShipConfig(): (c: ShipConfig)
    ensures c.Valid()
    ensures c.maxAccel < c.maxDecel <= c.maxSpeed
    ensures 0 < c.health
  {
    ShipConfig(5.0, 0.5, 2.0, 50.0, 10, 2)
  }

  /**
    The fastest the ship may go `dist` away from its target and still brake
    to a stop in time (`v * v == 2 * a * d`), capped at `maxSpeed`.
  */
  function SafeSpeed(lib: MathLib, c: ShipConfig, dist: real): real
    requires lib.Lawful() && c.Valid() && 0.0 <= dist
  {
    Min(lib.sqrt(BrakeSquare(c, dist)), c.maxSpeed)
  }

  /**
    The square of the speed that braking at `maxDecel` brings to zero over
    `dist`, from the kinetic equation `v * v == 2 * a * d`.
  */
  function BrakeSquare(c: ShipConfig, dist: real): (r: real)
    requires c.Valid() && 0.0 <= dist
    ensures 0.0 <= r
    ensures r == 0.0 <==> dist == 0.0 || c.maxDecel == 0.0
  {
    MulNonNegative(2.0 * dist, c.maxDecel);
    2.0 * dist * c.maxDecel
  }

  /** The safe speed is never negative, never above `maxSpeed`, and within the braking distance. */
  lemma SafeSpeedBound(lib: MathLib, c: ShipConfig, dist: real)
    requires lib.Lawful() && c.Valid() && 0.0 <= dist
    ensures 0.0 <= SafeSpeed(lib, c, dist) <= c.maxSpeed
    ensures SafeSpeed(lib, c, dist) * SafeSpeed(lib, c, dist) <= BrakeSquare(c, dist)
  {
    SquareAtMost(SafeSpeed(lib, c, dist), lib.sqrt(BrakeSquare(c, dist)), BrakeSquare(c, dist));
  }

  /** Where a ship is and how fast it goes, per tick. */
  datatype Motion = Motion(pos: Vec2, vel: Vec2)

  /**
    The velocity a moving ship (one outside the stop case) ends the tick with:
    braking scales the velocity down by `min(maxDecel, speed)` along its own
    direction, accelerating adds `maxAccel` along the unit vector toward the
    target, and otherwise the velocity is kept.
  */
  function NewVelocity(lib: MathLib, c: ShipConfig, m: Motion, target: Vec2): Vec2
    requires lib.Lawful() && c.Valid()
  {
    var toTarget := target.Minus(m.pos);
    var dist := toTarget.Length(lib);
    var speed := m.vel.Length(lib);
    if dist > EPSILON then
      var safe := SafeSpeed(lib, c, dist);
      SafeSpeedBound(lib, c, dist);
      if speed > safe then
        m.vel.Scale(1.0 - Min(c.maxDecel, speed) / speed)
      else if speed + c.maxAccel < safe then
        m.vel.Plus(toTarget.Normalize(lib).Scale(c.maxAccel))
      else
        m.vel
    else
      m.vel
  }

  /** `Ship::movement` on the position and velocity, for a ship heading to `target`. */
  function MovementStep(lib: MathLib, c: ShipConfig, m: Motion, target: Vec2): Motion
    requires lib.Lawful() && c.Valid()
  {
    if target.Minus(m.pos).Length(lib) < STOP_DIST && m.vel.Length(lib) < STOP_SPEED then
      Motion(m.pos, ZERO)
    else
      var vel := NewVelocity(lib, c, m, target);
      Motion(m.pos.Plus(vel), vel)
  }

  /** Close and slow: the ship stops dead where it is. */
  lemma StopBranch(lib: MathLib, c: ShipConfig, m: Motion, target: Vec2)
    requires lib.Lawful() && c.Valid()
    requires target.Minus(m.pos).Length(lib) < STOP_DIST && m.vel.Length(lib) < STOP_SPEED
    ensures MovementStep(lib, c, m, target).vel == ZERO
    ensures MovementStep(lib, c, m, target).pos == m.pos
  {
  }

  /** Outside the stop case the ship moves by exactly its new velocity. */
  lemma MovesByNewVelocity(lib: MathLib, c: ShipConfig, m: Motion, target: Vec2)
    requires lib.Lawful() && c.Valid()
    requires !(target.Minus(m.pos).Length(lib) < STOP_DIST && m.vel.Length(lib) < STOP_SPEED)
    ensures MovementStep(lib, c, m, target).pos
         == m.pos.Plus(MovementStep(lib, c, m, target).vel)
  {
  }

  /**
    Braking keeps the direction of travel and takes `maxDecel` off the speed,
    never more than the whole speed: the ship slows down but never reverses.
  */
  lemma BrakeKeepsDirection(lib: MathLib, c: ShipConfig, m: Motion, target: Vec2)
    requires lib.Lawful() && c.Valid()
    requires EPSILON < target.Minus(m.pos).Length(lib)
    requires SafeSpeed(lib, c, target.Minus(m.pos).Length(lib)) < m.vel.Length(lib)
    ensures exists k :: 0.0 <= k <= 1.0 && NewVelocity(lib, c, m, target) == m.vel.Scale(k)
    ensures NewVelocity(lib, c, m, target).Length(lib) == Max(m.vel.Length(lib) - c.maxDecel, 0.0)
  {
    var speed := m.vel.Length(lib);
    SafeSpeedBound(lib, c, target.Minus(m.pos).Length(lib));
    var k := 1.0 - Min(c.maxDecel, speed) / speed;
    assert NewVelocity(lib, c, m, target) == m.vel.Scale(k);
    BrakeFactor(c.maxDecel, speed, k);
    LengthScale(lib, m.vel, k);
  }

  /** The factor braking scales the velocity by, and the speed it leaves. */
  lemma BrakeFactor(decel: real, speed: real, k: real)
    requires 0.0 <= decel && 0.0 < speed && k == 1.0 - Min(decel, speed) / speed
    ensures 0.0 <= k <= 1.0
    ensures k * speed == Max(speed - decel, 0.0)
  {
    var dec := Min(decel, speed);
    if dec < speed {
      DivUnitInterval(dec, speed);
    }
    DivMul(dec, speed);
    assert k * speed == speed - (dec / speed) * speed;
  }

  /**
    Accelerating adds `maxAccel` along the unit vector toward the target, and
    the new speed stays below the safe speed, hence within `maxSpeed`.
  */
  lemma AccelBranch(lib: MathLib, c: ShipConfig, m: Motion, target: Vec2)
    requires lib.Lawful() && c.Valid()
    requires EPSILON < target.Minus(m.pos).Length(lib)
    requires m.vel.Length(lib) + c.maxAccel < SafeSpeed(lib, c, target.Minus(m.pos).Length(lib))
    ensures NewVelocity(lib, c, m, target)
         == m.vel.Plus(target.Minus(m.pos).Normalize(lib).Scale(c.maxAccel))
    ensures NewVelocity(lib, c, m, target).Length(lib) < SafeSpeed(lib, c, target.Minus(m.pos).Length(lib))
    ensures NewVelocity(lib, c, m, target).Length(lib) <= c.maxSpeed
  {
    var toTarget := target.Minus(m.pos);
    SafeSpeedBound(lib, c, toTarget.Length(lib));
    var unit := toTarget.Normalize(lib);
    AccelBound(lib, m.vel, unit, c.maxAccel);
  }

  /** Adding `a` times a unit vector raises the speed by at most `a`. */
  lemma AccelBound(lib: MathLib, v: Vec2, unit: Vec2, a: real)
    requires lib.Lawful() && unit.LengthSquared() == 1.0 && 0.0 <= a
    ensures v.Plus(unit.Scale(a)).Length(lib) <= v.Length(lib) + a
  {
    UnitLength(lib, unit);
    LengthScale(lib, unit, a);
    LengthOfSum(lib, v, unit.Scale(a));
  }

  /**
    Close to the target, or with no reason to brake or accelerate, the
    velocity is kept.
  */
  lemma CoastBranch(lib: MathLib, c: ShipConfig, m: Motion, target: Vec2)
    requires lib.Lawful() && c.Valid()
    requires target.Minus(m.pos).Length(lib) <= EPSILON
          || (m.vel.Length(lib) <= SafeSpeed(lib, c, target.Minus(m.pos).Length(lib))
              && SafeSpeed(lib, c, target.Minus(m.pos).Length(lib)) <= m.vel.Length(lib) + c.maxAccel)
    ensures NewVelocity(lib, c, m, target) == m.vel
  {
  }

  /** A ship within `maxSpeed` stays within `maxSpeed` after a tick. */
  lemma SpeedLimitPreserved(lib: MathLib, c: ShipConfig, m: Motion, target: Vec2)
    requires lib.Lawful() && c.Valid()
    requires m.vel.Length(lib) <= c.maxSpeed
    ensures MovementStep(lib, c, m, target).vel.Length(lib) <= c.maxSpeed
  {
    var toTarget := target.Minus(m.pos);
    var dist := toTarget.Length(lib);
    var speed := m.vel.Length(lib);
    if dist < STOP_DIST && speed < STOP_SPEED {
      LengthAtMost(lib, ZERO, c.maxSpeed);
    } else if dist > EPSILON {
      var safe := SafeSpeed(lib, c, dist);
      SafeSpeedBound(lib, c, dist);
      if speed > safe {
        BrakeKeepsDirection(lib, c, m, target);
      } else if speed + c.maxAccel < safe {
        AccelBranch(lib, c, m, target);
      }
    }
  }

  /**
    The brake vector of `movement`: minus the unit velocity, times `decel`,
    clamped to the current speed, is the velocity scaled by
    `-min(decel, speed) / speed`.
  */
  lemma BrakeVector(lib: MathLib, v: Vec2, decel: real)
    requires lib.Lawful() && 0.0 < v.Length(lib) && 0.0 <= decel
    ensures v.Normalize(lib).Neg().Scale(decel).ClampLengthMax(lib, v.Length(lib))
         == v.Scale(-(Min(decel, v.Length(lib)) / v.Length(lib)))
  {
    if decel <= v.Length(lib) {
      BrakeVectorShort(lib, v, decel);
    } else {
      BrakeVectorLong(lib, v, decel);
      assert v.Length(lib) / v.Length(lib) == 1.0;
    }
  }

  /** The brake vector before clamping has length `decel`. */
  lemma BrakeVectorLengthSquared(lib: MathLib, v: Vec2, decel: real)
    requires lib.Lawful() && 0.0 < v.Length(lib)
    ensures v.Normalize(lib).Neg().Scale(decel).LengthSquared() == decel * decel
  {
    var u := v.Normalize(lib);
    assert u.Neg().LengthSquared() == u.LengthSquared();
    ScaleLengthSquared(u.Neg(), decel);
  }

  /** A brake no stronger than the speed is not clamped. */
  lemma BrakeVectorShort(lib: MathLib, v: Vec2, decel: real)
    requires lib.Lawful() && 0.0 < v.Length(lib) && 0.0 <= decel <= v.Length(lib)
    ensures v.Normalize(lib).Neg().Scale(decel).ClampLengthMax(lib, v.Length(lib))
         == v.Scale(-(decel / v.Length(lib)))
  {
    var speed := v.Length(lib);
    var w := v.Normalize(lib).Neg().Scale(decel);
    assert w.LengthSquared() <= speed * speed by {
      BrakeVectorLengthSquared(lib, v, decel);
      SquareAtMost(decel, speed, speed * speed);
    }
    ClampWithinMax(lib, w, speed);
    assert w.x == -(v.x * (1.0 / speed)) * decel && w.y == -(v.y * (1.0 / speed)) * decel by {
      NormalizeIsScale(lib, v);
    }
    BrakeComponents(v, w, speed, decel);
  }

  /** The unclamped brake vector `w` is the velocity scaled by `-decel / speed`. */
  lemma BrakeComponents(v: Vec2, w: Vec2, speed: real, decel: real)
    requires 0.0 < speed
    requires w.x == -(v.x * (1.0 / speed)) * decel && w.y == -(v.y * (1.0 / speed)) * decel
    ensures w == v.Scale(-(decel / speed))
  {
    ScaleByQuotient(v.x, speed, decel);
    ScaleByQuotient(v.y, speed, decel);
  }

  /** A brake stronger than the speed is clamped to exactly the speed. */
  lemma BrakeVectorLong(lib: MathLib, v: Vec2, decel: real)
    requires lib.Lawful() && 0.0 < v.Length(lib) < decel
    ensures v.Normalize(lib).Neg().Scale(decel).ClampLengthMax(lib, v.Length(lib)) == v.Neg()
  {
    var speed := v.Length(lib);
    var w := v.Normalize(lib).Neg().Scale(decel);
    var root := lib.sqrt(w.LengthSquared());
    assert w.ClampLengthMax(lib, speed) == w.Scale(speed / root) by {
      BrakeVectorLengthSquared(lib, v, decel);
      SquareStrictMonotone(speed, decel);
      ClampIsScale(lib, w, speed);
    }
    assert root == decel by {
      BrakeVectorLengthSquared(lib, v, decel);
      SqrtOfSquare(lib, w.LengthSquared(), decel);
    }
    assert w.x == -(v.x * (1.0 / speed)) * decel && w.y == -(v.y * (1.0 / speed)) * decel by {
      NormalizeIsScale(lib, v);
    }
    ClampBackVector(v, w, speed, decel, root);
  }

  /** The unclamped brake vector `w`, shrunk from length `decel` to `speed`, is `-v`. */
  lemma ClampBackVector(v: Vec2, w: Vec2, speed: real, decel: real, root: real)
    requires 0.0 < speed < decel && root == decel
    requires w.x == -(v.x * (1.0 / speed)) * decel && w.y == -(v.y * (1.0 / speed)) * decel
    ensures w.Scale(speed / root) == v.Neg()
  {
    ClampBack(v.x, w.x, speed, decel, root);
    ClampBack(v.y, w.y, speed, decel, root);
  }

  /** One coordinate of the unclamped brake vector. */
  lemma ScaleByQuotient(x: real, speed: real, decel: real)
    requires 0.0 < speed
    ensures -(x * (1.0 / speed)) * decel == x * -(decel / speed)
  {
    DivAsMul(decel, speed);
  }

  /** One coordinate `wx` of the clamped brake vector, whose length `root` is `decel`. */
  lemma ClampBack(x: real, wx: real, speed: real, decel: real, root: real)
    requires 0.0 < speed < decel && root == decel
    requires wx == -(x * (1.0 / speed)) * decel
    ensures wx * (speed / root) == -x
  {
    DivAsMul(speed, decel);
    assert (1.0 / speed) * speed == 1.0;
    assert decel * (1.0 / decel) == 1.0;
    var i, j := 1.0 / speed, 1.0 / decel;
    assert -(x * i) * decel * (speed * j) == -x * (i * speed) * (decel * j);
  }

  /** Adding the velocity scaled by `-q` scales it by `1 - q`. */
  lemma AddScaled(v: Vec2, q: real)
    ensures v.Plus(v.Scale(-q)) == v.Scale(1.0 - q)
  {
  }

  class Ship {
    var pos: Vec2
    var vel: Vec2
    var targetPos: Vec2
    var health: U32
    const config: ValidShipConfig

    /** `Ship::spawn`: at rest at `pos`, aiming at `pos`, with the configured health. */
    constructor Spawn(pos: Vec2, config: ValidShipConfig)
      ensures this.pos == pos && vel == ZERO && targetPos == pos
      ensures health == config.health && this.config == config
    {
      this.pos := pos;
      vel := ZERO;
      targetPos := pos;
      health := config.health;
      this.config := config;
    }

    /** `set_target`: only the target changes. */
    method SetTarget(pos: Vec2)
      modifies this
      ensures targetPos == pos
      ensures this.pos == old(this.pos) && vel == old(vel) && health == old(health)
    {
      targetPos := pos;
    }

    /** `fight` has no implementation yet in the program; here it does nothing. */
    method Fight() {
    }

    /** `movement`: one tick of the controller; the target and the health are left alone. */
    method Movement(lib: MathLib)
      requires lib.Lawful()
      modifies this
      ensures Motion(pos, vel) == MovementStep(lib, config, Motion(old(pos), old(vel)), targetPos)
      ensures targetPos == old(targetPos) && health == old(health)
    {
      var toTarget := targetPos.Minus(pos);
      var dist := toTarget.Length(lib);
      var speed := vel.Length(lib);

      if dist < STOP_DIST && speed < STOP_SPEED {
        vel := ZERO;
        pos := pos.Plus(vel);
        return;
      }

      ghost var m := Motion(pos, vel);
      if dist > EPSILON {
        var maxSafeSpeed := SafeSpeed(lib, config, dist);
        SafeSpeedBound(lib, config, dist);
        if speed > maxSafeSpeed {
          var brakeDir := vel.Normalize(lib).Neg();
          var decel := brakeDir.Scale(config.maxDecel).ClampLengthMax(lib, speed);
          BrakeVector(lib, vel, config.maxDecel);
          AddScaled(vel, Min(config.maxDecel, speed) / speed);
          vel := vel.Plus(decel);
        } else if speed + config.maxAccel < maxSafeSpeed {
          var desiredDir := toTarget.Normalize(lib);
          vel := vel.Plus(desiredDir.Scale(config.maxAccel));
          AccelBound(lib, m.vel, desiredDir, config.maxAccel);
          ClampNotNeeded(lib, vel, config.maxSpeed);
          vel := vel.ClampLengthMax(lib, config.maxSpeed);
        }
      }
      assert vel == NewVelocity(lib, config, m, targetPos);
      pos := pos.Plus(vel);
    }
  }

  /** `s` has made one `movement` tick since the old state, and only that. */
  twostate predicate Moved(lib: MathLib, s: Ship)
    requires lib.Lawful()
    reads s
  {
    && Motion(s.pos, s.vel) == MovementStep(lib, s.config, Motion(old(s.pos), old(s.vel)), s.targetPos)
    && s.targetPos == old(s.targetPos)
    && s.health == old(s.health)
  }

  /** A vector no longer than `max` is left alone by `clamp_length_max`. */
  lemma ClampNotNeeded(lib: MathLib, v: Vec2, max: real)
    requires lib.Lawful() && 0.0 <= max && v.Length(lib) <= max
    ensures v.ClampLengthMax(lib, max) == v
  {
    var len := v.Length(lib);
    MulNonNegative(len, len);
    if len < max {
      SquareStrictMonotone(len, max);
    }
  }
}
