/**
  `make(WORLD_WIDTH, WORLD_HEIGHT)` (src/lib/systems/Bounce.ts), also `Bounce`
  in the combined snapshots: every entity with a position and a velocity
  that has left the box `[0, W] x [0, H]` is put back on the crossed edge, and
  the velocity component across that edge is scaled by `-0.2`.
 */
module BounceSystem {
  import opened Vector2
  import opened Store
  import opened Components
  import opened World
  import opened Updates

  const Query: seq<Name> := [Position, Velocity]

  /** The values the system was made with. */
  datatype Box = Box(width: real, height: real)

  /** One axis: the new coordinate and the new velocity component, for a box edge at `max`. */
  function Clamp(p: real, v: real, max: real): (real, real)
  {
    if p > max then (max, v * -0.2)
    else if p < 0.0 then (0.0, v * -0.2)
    else (p, v)
  }

  /** The new position, and the new velocity, of an entity at `pos` moving with `vel`. */
  function BouncePosition(pos: Vec, vel: Vec, b: Box): Vec
  {
    Vec(Clamp(pos.x, vel.x, b.width).0, Clamp(pos.y, vel.y, b.height).0)
  }

  function BounceVelocity(pos: Vec, vel: Vec, b: Box): Vec
  {
    Vec(Clamp(pos.x, vel.x, b.width).1, Clamp(pos.y, vel.y, b.height).1)
  }

  /**
    One axis as the loop body handles it: past the far edge the coordinate
    becomes `max` and the velocity component is scaled by `-0.2`; below zero
    it becomes zero, with the same scaling; otherwise nothing changes.  With
    a non-negative `max` the result lies in `[0, max]` and is left alone by a
    second application.
   */
  lemma ClampFacts(p: real, v: real, max: real)
    ensures p > max ==> Clamp(p, v, max) == (max, -0.2 * v)
    ensures !(p > max) && p < 0.0 ==> Clamp(p, v, max) == (0.0, -0.2 * v)
    ensures 0.0 <= p <= max ==> Clamp(p, v, max) == (p, v)
    ensures 0.0 <= max ==> 0.0 <= Clamp(p, v, max).0 <= max
    ensures 0.0 <= max ==> Clamp(Clamp(p, v, max).0, Clamp(p, v, max).1, max) == Clamp(p, v, max)
  {
  }

  /** The loop body's write to `position` for a row `[entity, position, velocity]`. */
  function StepPosition(row: Row, b: Box): Option<Value>
  {
    Some(VecVal(BouncePosition(AsVec(Slot(row, 0)), AsVec(Slot(row, 1)), b)))
  }

  /** Its write to `velocity` for the same row, decided on the position before the write. */
  function StepVelocity(row: Row, b: Box): Option<Value>
  {
    Some(VecVal(BounceVelocity(AsVec(Slot(row, 0)), AsVec(Slot(row, 1)), b)))
  }

  /** The new positions: one for every entity with a position and a velocity. */
  function NewPositions(c: Holder, b: Box): (nv: map<int, Value>)
    requires Position in c
    ensures nv.Keys <= c[Position].vals.Keys
  {
    map e | e in c[Position].vals && Has(c, Velocity, e) ::
      VecVal(BouncePosition(AsVec(c[Position].vals[e]), AsVec(Get(c, Velocity, e)), b))
  }

  /** The new velocities: one for every entity with a position and a velocity. */
  function NewVelocities(c: Holder, b: Box): (nv: map<int, Value>)
    requires Velocity in c
    ensures nv.Keys <= c[Velocity].vals.Keys
  {
    map e | e in c[Velocity].vals && Has(c, Position, e) ::
      VecVal(BounceVelocity(AsVec(Get(c, Position, e)), AsVec(c[Velocity].vals[e]), b))
  }

  /** The components after the system made for `b` runs. */
  function Bounced(c: Holder, b: Box): Holder
    requires Position in c && Velocity in c
  {
    c[Position := Overlay(c[Position], NewPositions(c, b))][Velocity := Overlay(c[Velocity], NewVelocities(c, b))]
  }

  /**
    An entity with a position and a velocity gets both from `Clamp` on each
    axis, independently; with a non-negative box its position ends inside
    the box.  An entity with only one of the two keeps it, and every other
    map is unchanged.
   */
  lemma BouncedFacts(c: Holder, b: Box, e: int)
    requires Position in c && Velocity in c
    ensures Has(c, Position, e) && Has(c, Velocity, e) ==>
      var pos := AsVec(c[Position].vals[e]);
      var vel := AsVec(c[Velocity].vals[e]);
      && Bounced(c, b)[Position].vals[e] == VecVal(Vec(Clamp(pos.x, vel.x, b.width).0, Clamp(pos.y, vel.y, b.height).0))
      && Bounced(c, b)[Velocity].vals[e] == VecVal(Vec(Clamp(pos.x, vel.x, b.width).1, Clamp(pos.y, vel.y, b.height).1))
    ensures Has(c, Position, e) && Has(c, Velocity, e) && 0.0 <= b.width && 0.0 <= b.height ==>
      var pos := AsVec(Bounced(c, b)[Position].vals[e]);
      0.0 <= pos.x <= b.width && 0.0 <= pos.y <= b.height
    ensures Has(c, Position, e) && !Has(c, Velocity, e) ==> Bounced(c, b)[Position].vals[e] == c[Position].vals[e]
    ensures Has(c, Velocity, e) && !Has(c, Position, e) ==> Bounced(c, b)[Velocity].vals[e] == c[Velocity].vals[e]
    ensures Bounced(c, b).Keys == c.Keys
    ensures Bounced(c, b)[Position].keys == c[Position].keys && Bounced(c, b)[Velocity].keys == c[Velocity].keys
    ensures forall n :: n in c && n != Position && n != Velocity ==> Bounced(c, b)[n] == c[n]
  {
    if Has(c, Position, e) && Has(c, Velocity, e) {
      var pos := AsVec(c[Position].vals[e]);
      var vel := AsVec(c[Velocity].vals[e]);
      ClampFacts(pos.x, vel.x, b.width);
      ClampFacts(pos.y, vel.y, b.height);
    }
  }

  /** An entity already inside the box keeps its position and its velocity. */
  lemma InsideUnchanged(c: Holder, b: Box, e: int)
    requires Position in c && Velocity in c && Shaped(c) && Has(c, Position, e) && Has(c, Velocity, e)
    requires var pos := AsVec(c[Position].vals[e]); 0.0 <= pos.x <= b.width && 0.0 <= pos.y <= b.height
    ensures Bounced(c, b)[Position].vals[e] == c[Position].vals[e]
    ensures Bounced(c, b)[Velocity].vals[e] == c[Velocity].vals[e]
  {
    assert Fits(Position, c[Position].vals[e]) && Fits(Velocity, c[Velocity].vals[e]);
    var pos := AsVec(c[Position].vals[e]);
    var vel := AsVec(c[Velocity].vals[e]);
    BouncedFacts(c, b, e);
    ClampFacts(pos.x, vel.x, b.width);
    ClampFacts(pos.y, vel.y, b.height);
  }

  /** With a non-negative box, running the system twice in a row is the same as once. */
  lemma BouncedIdempotent(c: Holder, b: Box)
    requires Position in c && Velocity in c && 0.0 <= b.width && 0.0 <= b.height
    ensures Bounced(Bounced(c, b), b) == Bounced(c, b)
  {
    var d := Bounced(c, b);
    var p2 := NewPositions(d, b);
    var v2 := NewVelocities(d, b);
    forall e | e in p2
      ensures p2[e] == d[Position].vals[e]
    {
      var pos := AsVec(c[Position].vals[e]);
      var vel := AsVec(c[Velocity].vals[e]);
      ClampFacts(pos.x, vel.x, b.width);
      ClampFacts(pos.y, vel.y, b.height);
    }
    forall e | e in v2
      ensures v2[e] == d[Velocity].vals[e]
    {
      var pos := AsVec(c[Position].vals[e]);
      var vel := AsVec(c[Velocity].vals[e]);
      ClampFacts(pos.x, vel.x, b.width);
      ClampFacts(pos.y, vel.y, b.height);
    }
    SameMap(d[Position].vals + p2, d[Position].vals);
    SameMap(d[Velocity].vals + v2, d[Velocity].vals);
    assert Overlay(d[Position], p2) == d[Position];
    assert Overlay(d[Velocity], v2) == d[Velocity];
  }

  /** The loop's two writes for the row the query yields for `e`. */
  lemma StepsAt(c: Holder, e: int, b: Box)
    ensures Matches(c, Query, e) <==> Has(c, Velocity, e)
    ensures StepPosition(Row(e, Values(c, Query, e)), b)
      == Some(VecVal(BouncePosition(AsVec(Get(c, Position, e)), AsVec(Get(c, Velocity, e)), b)))
    ensures StepVelocity(Row(e, Values(c, Query, e)), b)
      == Some(VecVal(BounceVelocity(AsVec(Get(c, Position, e)), AsVec(Get(c, Velocity, e)), b)))
  {
    var vs := Values(c, Query, e);
    assert vs[0] == Get(c, Position, e) && vs[1] == Get(c, Velocity, e);
  }

  /** The position writes of the whole loop are the new positions. */
  lemma PositionsAreRun(c: Holder, b: Box)
    requires StoresValid(c) && Position in c && Velocity in c
    ensures RunStore(c[Position], Join(c, Query), StepPosition, b, |Join(c, Query)|) == Overlay(c[Position], NewPositions(c, b))
  {
    JoinStore(c, Query, 0, StepPosition, b);
    var nv := NewValues(Join(c, Query), StepPosition, b);
    forall e
      ensures e in nv <==> e in NewPositions(c, b)
      ensures e in nv ==> nv[e] == NewPositions(c, b)[e]
    {
      StepsAt(c, e, b);
    }
    SameMap(nv, NewPositions(c, b));
  }

  /** The velocity writes of the whole loop are the new velocities. */
  lemma VelocitiesAreRun(c: Holder, b: Box)
    requires StoresValid(c) && Position in c && Velocity in c
    ensures RunStore(c[Velocity], Join(c, Query), StepVelocity, b, |Join(c, Query)|) == Overlay(c[Velocity], NewVelocities(c, b))
  {
    JoinStore(c, Query, 1, StepVelocity, b);
    var nv := NewValues(Join(c, Query), StepVelocity, b);
    forall e
      ensures e in nv <==> e in NewVelocities(c, b)
      ensures e in nv ==> nv[e] == NewVelocities(c, b)[e]
    {
      StepsAt(c, e, b);
    }
    SameMap(nv, NewVelocities(c, b));
  }

  lemma BouncedEnd(c0: Holder, c: Holder, b: Box)
    requires StoresValid(c0) && Position in c0 && Velocity in c0
    requires Others2(c, c0, Position, Velocity)
    requires c[Position] == RunStore(c0[Position], Join(c0, Query), StepPosition, b, |Join(c0, Query)|)
    requires c[Velocity] == RunStore(c0[Velocity], Join(c0, Query), StepVelocity, b, |Join(c0, Query)|)
    ensures c == Bounced(c0, b)
  {
    PositionsAreRun(c0, b);
    VelocitiesAreRun(c0, b);
    OthersEqual2(c, c0, Position, Velocity, Overlay(c0[Position], NewPositions(c0, b)), Overlay(c0[Velocity], NewVelocities(c0, b)));
  }

  /** The system `make(W, H)` returns, run on a world; its `delta` is ignored. */
  method Bounce(w: World, b: Box, delta: real)
    requires w.Valid() && Position in w.components && Velocity in w.components
    modifies w
    ensures w.Valid()
    ensures w.components == Bounced(old(w.components), b)
    ensures w.lastAssignedId == old(w.lastAssignedId) && w.active == old(w.active) && w.currentTime == old(w.currentTime)
  {
    ghost var c0 := w.components;
    var rows := w.EntitiesWithComponents(Query);
    JoinLive(c0, w.active, w.lastAssignedId, Query);
    WriteRows2(w, Position, Velocity, rows, StepPosition, StepVelocity, b);
    BouncedEnd(c0, w.components, b);
  }
}
