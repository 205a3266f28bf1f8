/** The ship's flight rules: brake assist, boost and the integration step, over
    real numbers. Rotations are inputs computed elsewhere. */
module Flight {

  datatype Vec3 = Vec3(x: real, y: real, z: real) {
    function Plus(o: Vec3): Vec3 { Vec3(x + o.x, y + o.y, z + o.z) }
    function Times(s: real): Vec3 { Vec3(x * s, y * s, z * s) }
  }

  /** `f32::clamp`. */
  function Clamp(v: real, lo: real, hi: real): (r: real)
    requires lo <= hi
    ensures lo <= r <= hi
    ensures lo <= v <= hi ==> r == v
    ensures v < lo ==> r == lo
    ensures v > hi ==> r == hi
  {
    if v < lo then lo else if v > hi then hi else v
  }

  /** Two thrusters pushing opposite ways. `lead` is the one brake assist considers
      first and the one the pair's net thrust points to. */
  datatype Pair = Pair(lead: real, other: real) {
    predicate Idle() { lead == 0.0 && other == 0.0 }
    function Net(): real { lead - other }
  }

  /** The twelve thrusters of the source's enum map, grouped in their pairs:
      pitch = (PitchUp, PitchDown), yaw = (YawLeft, YawRight), roll = (RollCCW, RollCW),
      lateral = (Right, Left), vertical = (Up, Down), axial = (Back, Front). */
  datatype Thrusts = Thrusts(pitch: Pair, yaw: Pair, roll: Pair, lateral: Pair, vertical: Pair, axial: Pair)

  const ROTATION_LIMIT: real := 5.0
  const TRANSLATION_LIMIT: real := 20.0
  const FRONT_LIMIT: real := 40.0

  /** What brake assist promises for one pair with demand u (signed towards the lead):
      a pair in use keeps its values; an idle pair fires at most one thruster, each
      within [0, its limit], and its net thrust is u clamped to the two limits. */
  predicate Assists(p: Pair, r: Pair, u: real, leadLimit: real, otherLimit: real)
    requires 0.0 <= leadLimit && 0.0 <= otherLimit
  {
    && (!p.Idle() ==> r == p)
    && (p.Idle() ==>
         && 0.0 <= r.lead <= leadLimit && 0.0 <= r.other <= otherLimit
         && (r.lead == 0.0 || r.other == 0.0)
         && r.Net() == Clamp(u, -otherLimit, leadLimit))
  }

  /** What brake assist does to one pair, given its demand u and the two thrusters'
      limits: an idle pair gets the demand on the lead if it is positive, else its
      opposite on the other thruster, each clamped to that thruster's limit. */
  function PairAssisted(p: Pair, u: real, leadLimit: real, otherLimit: real): (r: Pair)
    requires 0.0 <= leadLimit && 0.0 <= otherLimit
    ensures Assists(p, r, u, leadLimit, otherLimit)
  {
    if !p.Idle() then p
    else if u > 0.0 then Pair(Clamp(u, 0.0, leadLimit), 0.0)
    else Pair(0.0, Clamp(-u, 0.0, otherLimit))
  }

  /** The thrusts after the brake section of `update_ship_movement`: the rotation
      demand is 200 times the Euler angles of the inverted angular velocity, the
      translation demand minus 10 times the velocity in ship coordinates. With the
      brake off nothing changes; with it on, a pair in use keeps what the pilot gave
      it and an idle pair's net thrust is its demand clamped to its limits. */
  function BrakeThrust(t: Thrusts, brake: bool, euler: Vec3, local: Vec3): (r: Thrusts)
    ensures !brake ==> r == t
    ensures brake ==>
      && Assists(t.pitch, r.pitch, euler.x * 200.0, ROTATION_LIMIT, ROTATION_LIMIT)
      && Assists(t.yaw, r.yaw, euler.y * 200.0, ROTATION_LIMIT, ROTATION_LIMIT)
      && Assists(t.roll, r.roll, euler.z * 200.0, ROTATION_LIMIT, ROTATION_LIMIT)
      && Assists(t.lateral, r.lateral, -(local.x * 10.0), TRANSLATION_LIMIT, TRANSLATION_LIMIT)
      && Assists(t.vertical, r.vertical, -(local.y * 10.0), TRANSLATION_LIMIT, TRANSLATION_LIMIT)
      && Assists(t.axial, r.axial, -(local.z * 10.0), TRANSLATION_LIMIT, FRONT_LIMIT)
  {
    if !brake then t
    else
      var angular, linear := euler.Times(200.0), local.Times(10.0);
      Thrusts(
        PairAssisted(t.pitch, angular.x, ROTATION_LIMIT, ROTATION_LIMIT),
        PairAssisted(t.yaw, angular.y, ROTATION_LIMIT, ROTATION_LIMIT),
        PairAssisted(t.roll, angular.z, ROTATION_LIMIT, ROTATION_LIMIT),
        PairAssisted(t.lateral, -linear.x, TRANSLATION_LIMIT, TRANSLATION_LIMIT),
        PairAssisted(t.vertical, -linear.y, TRANSLATION_LIMIT, TRANSLATION_LIMIT),
        PairAssisted(t.axial, -linear.z, TRANSLATION_LIMIT, FRONT_LIMIT))
  }

  /** The angular acceleration's Euler angles: each rotation pair's net thrust times
      dt squared. */
  function Steering(t: Thrusts, dt: real): Vec3 {
    Vec3(t.pitch.Net() * dt * dt, t.yaw.Net() * dt * dt, t.roll.Net() * dt * dt)
  }

  /** The thrust vector in ship coordinates: right, up and back positive. */
  function Net(t: Thrusts): Vec3 {
    Vec3(t.lateral.Net(), t.vertical.Net(), t.axial.Net())
  }

  function Max(a: real, b: real): real {
    if a > b then a else b
  }

  /** The boost after a step of dt: it burns down at 800 per second and stops at 0. */
  function Decayed(boost: real, dt: real): (r: real)
    ensures r >= 0.0
    ensures r == boost - 800.0 * dt || (r == 0.0 && boost - 800.0 * dt <= 0.0)
    ensures dt >= 0.0 && boost >= 0.0 ==> r <= boost
  {
    Max(0.0, boost - 800.0 * dt)
  }

  /** Semi-implicit Euler: moving with the updated velocity is moving with the old
      one plus the acceleration times dt squared. */
  lemma EulerStep(p: Vec3, v: Vec3, a: Vec3, dt: real)
    ensures p.Plus(v.Plus(a.Times(dt)).Times(dt)) == p.Plus(v.Times(dt)).Plus(a.Times(dt * dt))
  {
    assert (v.x + a.x * dt) * dt == v.x * dt + a.x * (dt * dt);
    assert (v.y + a.y * dt) * dt == v.y * dt + a.y * (dt * dt);
    assert (v.z + a.z * dt) * dt == v.z * dt + a.z * (dt * dt);
  }

  /** The two brake statements of one pair as the source runs them: first the lead,
      then, if the pair is still idle, the other thruster. */
  method AssistPair(p: Pair, u: real, leadLimit: real, otherLimit: real) returns (q: Pair)
    requires 0.0 <= leadLimit && 0.0 <= otherLimit
    ensures q == PairAssisted(p, u, leadLimit, otherLimit)
  {
    q := p;
    if q.lead == 0.0 && q.other == 0.0 {
      q := q.(lead := Clamp(u, 0.0, leadLimit));
    }
    if q.lead == 0.0 && q.other == 0.0 {
      q := q.(other := Clamp(-u, 0.0, otherLimit));
    }
  }

  class Ship {
    var position: Vec3
    var velocity: Vec3
    var acceleration: Vec3
    /** The Euler angles (pitch, yaw, roll) the angular acceleration is built from. */
    var angularAcceleration: Vec3
    var thrust: Thrusts
    var boost: real
    var brake: bool

    constructor ()
      ensures brake == false && boost == 0.0
      ensures thrust.pitch.Idle() && thrust.yaw.Idle() && thrust.roll.Idle()
      ensures thrust.lateral.Idle() && thrust.vertical.Idle() && thrust.axial.Idle()
      ensures position == velocity == acceleration == angularAcceleration == Vec3(0.0, 0.0, 0.0)
    {
      position, velocity, acceleration := Vec3(0.0, 0.0, 0.0), Vec3(0.0, 0.0, 0.0), Vec3(0.0, 0.0, 0.0);
      angularAcceleration := Vec3(0.0, 0.0, 0.0);
      var off := Pair(0.0, 0.0);
      thrust := Thrusts(off, off, off, off, off, off);
      boost, brake := 0.0, false;
    }

    /** The brake section of `update_ship_movement`, pair by pair in the source's order. */
    method BrakeAssist(euler: Vec3, local: Vec3)
      modifies this
      ensures thrust == BrakeThrust(old(thrust), old(brake), euler, local)
      ensures position == old(position) && velocity == old(velocity) && acceleration == old(acceleration)
      ensures angularAcceleration == old(angularAcceleration) && boost == old(boost) && brake == old(brake)
    {
      if !brake {
        return;
      }
      var angular := euler.Times(200.0);
      var pitch := AssistPair(thrust.pitch, angular.x, ROTATION_LIMIT, ROTATION_LIMIT);
      var yaw := AssistPair(thrust.yaw, angular.y, ROTATION_LIMIT, ROTATION_LIMIT);
      var roll := AssistPair(thrust.roll, angular.z, ROTATION_LIMIT, ROTATION_LIMIT);
      var linear := local.Times(10.0);
      var lateral := AssistPair(thrust.lateral, -linear.x, TRANSLATION_LIMIT, TRANSLATION_LIMIT);
      var vertical := AssistPair(thrust.vertical, -linear.y, TRANSLATION_LIMIT, TRANSLATION_LIMIT);
      var axial := AssistPair(thrust.axial, -linear.z, TRANSLATION_LIMIT, FRONT_LIMIT);
      thrust := Thrusts(pitch, yaw, roll, lateral, vertical, axial);
    }

    /** `update_ship_movement` without the quaternion arithmetic: euler and local are
        the brake inputs, and orient turns ship coordinates into world coordinates
        with the rotation the step ends with. Brake assist comes first, the boost is
        added to the front thruster after steering, and position moves with the
        velocity that already includes this step's acceleration. */
    method UpdateMovement(dt: real, euler: Vec3, local: Vec3, orient: Vec3 -> Vec3)
      modifies this
      ensures brake == old(brake)
      ensures angularAcceleration == Steering(BrakeThrust(old(thrust), old(brake), euler, local), dt)
      ensures thrust == var t := BrakeThrust(old(thrust), old(brake), euler, local);
        t.(axial := t.axial.(other := t.axial.other + old(boost)))
      ensures boost == Decayed(old(boost), dt)
      ensures acceleration == orient(Net(thrust))
      ensures velocity == old(velocity).Plus(acceleration.Times(dt))
      ensures position == old(position).Plus(velocity.Times(dt))
      ensures position == old(position).Plus(old(velocity).Times(dt)).Plus(acceleration.Times(dt * dt))
    {
      BrakeAssist(euler, local);
      angularAcceleration := Steering(thrust, dt);
      thrust := thrust.(axial := thrust.axial.(other := thrust.axial.other + boost));
      boost := Max(0.0, boost - 800.0 * dt);
      acceleration := orient(Net(thrust));
      EulerStep(position, velocity, acceleration, dt);
      velocity := velocity.Plus(acceleration.Times(dt));
      position := position.Plus(velocity.Times(dt));
    }
  }
}
