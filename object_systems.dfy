/**
  The old object-based snapshot (systems.ts): `world.entities` is an array of
  entity objects whose optional fields are the components, and each system
  walks the array and updates the fields of its entities in place.  An entity
  is the value `Body`; the array of entities is an `array<Body>`, and a field
  update of entity `i` writes `a[i]`.  This file holds the systems that
  treat every entity on its own.
 */
module ObjectSystems {
  import opened Vector2
  import opened Updates

  const WorldWidth: real := 1000.0
  const WorldHeight: real := 500.0

  /** A joint component: its endpoints are the indices of two entities of the array. */
  datatype Joint = Joint(entity1: nat, entity2: nat, k: real, originalDistance: real)

  /** An entity object with the physics components it may carry; a mass is `{value}`. */
  datatype Body = Body(
    position: Option<Vec>,
    velocity: Option<Vec>,
    acceleration: Option<Vec>,
    force: Option<Vec>,
    mass: Option<real>,
    joint: Option<Joint>)

  /** A walk over the entity array that replaces each entity by `f` of it, in array order. */
  method ForEach(a: array<Body>, f: Body -> Body)
    modifies a
    ensures forall i :: 0 <= i < a.Length ==> a[i] == f(old(a[i]))
  {
    for i := 0 to a.Length
      invariant forall j :: 0 <= j < i ==> a[j] == f(old(a[j]))
      invariant forall j :: i <= j < a.Length ==> a[j] == old(a[j])
    {
      a[i] := f(a[i]);
    }
  }

  /*
    `MovementSystem`.
   */

  /** The entity after `MovementSystem`'s loop body. */
  function Moved(b: Body, delta: real): Body
  {
    if b.position.Some? && b.velocity.Some? then b.(position := Some(AddScaled(b.position.value, b.velocity.value, delta)))
    else b
  }

  /**
    An entity with a position and a velocity moves by `velocity * delta` and
    nothing else of it changes; moving back by `-delta` restores it; an
    entity lacking either is untouched.
   */
  lemma {:induction false} MovedFacts(b: Body, delta: real)
    ensures b.position.Some? && b.velocity.Some? ==>
      Moved(b, delta).position == Some(Add(b.position.value, Scale(b.velocity.value, delta)))
    ensures Moved(b, delta) == b.(position := Moved(b, delta).position)
    ensures !(b.position.Some? && b.velocity.Some?) ==> Moved(b, delta) == b
    ensures Moved(Moved(b, delta), -delta) == b
  {
    if b.position.Some? && b.velocity.Some? {
      var p := b.position.value;
      var v := b.velocity.value;
      assert v.x * -delta == -(v.x * delta) && v.y * -delta == -(v.y * delta);
      assert AddScaled(AddScaled(p, v, delta), v, -delta) == p;
    }
  }

  method MovementSystem(a: array<Body>, delta: real)
    modifies a
    ensures forall i :: 0 <= i < a.Length ==> a[i] == Moved(old(a[i]), delta)
  {
    ForEach(a, b => Moved(b, delta));
  }

  /*
    `BounceSystem`.
   */

  /** The x axis: past the right wall the velocity is negated and then scaled by `-0.2`; past the left wall only scaled. */
  function BounceX(x: real, vx: real): (real, real)
  {
    if x > WorldWidth then (WorldWidth, vx * -1.0 * -0.2)
    else if x < 0.0 then (0.0, vx * -0.2)
    else (x, vx)
  }

  /** The y axis: past either wall the coordinate is clamped and the velocity scaled by `-0.2`. */
  function BounceY(y: real, vy: real): (real, real)
  {
    if y > WorldHeight then (WorldHeight, vy * -0.2)
    else if y < 0.0 then (0.0, vy * -0.2)
    else (y, vy)
  }

  /** The entity after `BounceSystem`'s loop body. */
  function Bounced(b: Body): Body
  {
    if b.position.Some? && b.velocity.Some? then
      var p := b.position.value;
      var v := b.velocity.value;
      var (x, vx) := BounceX(p.x, v.x);
      var (y, vy) := BounceY(p.y, v.y);
      b.(position := Some(Vec(x, y)), velocity := Some(Vec(vx, vy)))
    else b
  }

  /**
    The position of a bounced entity lies in `[0, 1000] x [0, 500]`.  On the
    right wall the velocity keeps its sign, scaled by `0.2`; on the left,
    top and bottom walls it is scaled by `-0.2`; a coordinate inside the box
    keeps its velocity component.  Only position and velocity change.
   */
  lemma {:induction false} BouncedFacts(b: Body)
    requires b.position.Some? && b.velocity.Some?
    ensures var p := Bounced(b).position.value; 0.0 <= p.x <= WorldWidth && 0.0 <= p.y <= WorldHeight
    ensures Bounced(b).position.Some? && Bounced(b).velocity.Some?
    ensures var p := b.position.value; var v := b.velocity.value; var v' := Bounced(b).velocity.value;
      && (p.x > WorldWidth ==> v'.x == 0.2 * v.x)
      && (p.x < 0.0 ==> v'.x == -0.2 * v.x)
      && (0.0 <= p.x <= WorldWidth ==> v'.x == v.x)
      && (p.y > WorldHeight ==> v'.y == -0.2 * v.y)
      && (p.y < 0.0 ==> v'.y == -0.2 * v.y)
      && (0.0 <= p.y <= WorldHeight ==> v'.y == v.y)
    ensures Bounced(b) == b.(position := Bounced(b).position, velocity := Bounced(b).velocity)
  {
  }

  /** A second bounce changes nothing, and an entity lacking a position or a velocity is untouched. */
  lemma {:induction false} BouncedIdempotent(b: Body)
    ensures Bounced(Bounced(b)) == Bounced(b)
    ensures !(b.position.Some? && b.velocity.Some?) ==> Bounced(b) == b
  {
    if b.position.Some? && b.velocity.Some? {
      BouncedFacts(b);
    }
  }

  method BounceSystem(a: array<Body>)
    modifies a
    ensures forall i :: 0 <= i < a.Length ==> a[i] == Bounced(old(a[i]))
  {
    ForEach(a, Bounced);
  }

  /*
    `AccelerationSystem`.
   */

  /** The entity after `AccelerationSystem`'s loop body. */
  function Accelerated(b: Body, delta: real): Body
  {
    if b.velocity.Some? && b.acceleration.Some? then b.(velocity := Some(AddScaled(b.velocity.value, b.acceleration.value, delta)))
    else b
  }

  /**
    An entity with a velocity and an acceleration gains `acceleration *
    delta` in velocity and nothing else changes; `-delta` undoes it, and
    `delta == 0` changes nothing.
   */
  lemma {:induction false} AcceleratedFacts(b: Body, delta: real)
    ensures b.velocity.Some? && b.acceleration.Some? ==>
      Accelerated(b, delta).velocity == Some(Add(b.velocity.value, Scale(b.acceleration.value, delta)))
    ensures Accelerated(b, delta) == b.(velocity := Accelerated(b, delta).velocity)
    ensures Accelerated(Accelerated(b, delta), -delta) == b
    ensures Accelerated(b, 0.0) == b
  {
    if b.velocity.Some? && b.acceleration.Some? {
      var v := b.velocity.value;
      var acc := b.acceleration.value;
      assert acc.x * -delta == -(acc.x * delta) && acc.y * -delta == -(acc.y * delta);
      assert AddScaled(AddScaled(v, acc, delta), acc, -delta) == v;
      AddScaledNeutral(v, acc, delta);
    }
  }

  method AccelerationSystem(a: array<Body>, delta: real)
    modifies a
    ensures forall i :: 0 <= i < a.Length ==> a[i] == Accelerated(old(a[i]), delta)
  {
    ForEach(a, b => Accelerated(b, delta));
  }

  /*
    `ApplyForceSystem` and `ForceResetSystem`.
   */

  /** The entity after `ApplyForceSystem`'s loop body: a zero mass is skipped, otherwise the acceleration is overwritten. */
  function ForceApplied(b: Body): Body
  {
    if b.mass.Some? && b.acceleration.Some? && b.force.Some? then
      var m := b.mass.value;
      var f := b.force.value;
      if m == 0.0 then b
      else b.(acceleration := Some(Vec(f.x / m, f.y / m)))
    else b
  }

  /**
    With a non-zero mass the new acceleration satisfies `mass * acceleration
    == force`, whatever the old acceleration was; a zero mass or a missing
    component leaves the entity as it is; only the acceleration changes, and
    a second application changes nothing more.
   */
  lemma {:induction false} ForceAppliedFacts(b: Body, acc: Vec)
    ensures b.mass.Some? && b.acceleration.Some? && b.force.Some? && b.mass.value != 0.0 ==>
      Scale(ForceApplied(b).acceleration.value, b.mass.value) == b.force.value
        && ForceApplied(b.(acceleration := Some(acc))) == ForceApplied(b)
    ensures !(b.mass.Some? && b.acceleration.Some? && b.force.Some?) || b.mass.value == 0.0 ==> ForceApplied(b) == b
    ensures ForceApplied(b) == b.(acceleration := ForceApplied(b).acceleration)
    ensures ForceApplied(ForceApplied(b)) == ForceApplied(b)
  {
  }

  method ApplyForceSystem(a: array<Body>)
    modifies a
    ensures forall i :: 0 <= i < a.Length ==> a[i] == ForceApplied(old(a[i]))
  {
    ForEach(a, ForceApplied);
  }

  /** The entity after `ForceResetSystem`'s loop body. */
  function ForceCleared(b: Body): Body
  {
    if b.force.Some? then b.(force := Some(Zero)) else b
  }

  /** Every force becomes `(0, 0)`, an entity without one is untouched, nothing else changes, and a second reset changes nothing. */
  lemma {:induction false} ForceClearedFacts(b: Body)
    ensures b.force.Some? ==> ForceCleared(b).force == Some(Zero)
    ensures b.force.None? ==> ForceCleared(b) == b
    ensures ForceCleared(b) == b.(force := ForceCleared(b).force)
    ensures ForceCleared(ForceCleared(b)) == ForceCleared(b)
  {
  }

  method ForceResetSystem(a: array<Body>)
    modifies a
    ensures forall i :: 0 <= i < a.Length ==> a[i] == ForceCleared(old(a[i]))
  {
    ForEach(a, ForceCleared);
  }
}
