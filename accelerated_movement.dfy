/**
  `AcceleratedMovement` (src/lib/systems/AcceleratedMovement.ts), also
  `Acceleration` in the combined snapshots: every entity with an acceleration
  and a velocity gains `acceleration * delta` in velocity.
 */
module AcceleratedMovementSystem {
  import opened Vector2
  import opened Store
  import opened Components
  import opened World
  import opened Updates

  const Query: seq<Name> := [Acceleration, Velocity]

  /** The loop body for a row `[entity, acceleration, velocity]`. */
  function Accelerate(row: Row, delta: real): Option<Value>
  {
    Some(VecVal(AddScaled(AsVec(Slot(row, 1)), AsVec(Slot(row, 0)), delta)))
  }

  /** The new velocities: one for every entity with an acceleration and a velocity. */
  function Accelerations(c: Holder, delta: real): (nv: map<int, Value>)
    requires Velocity in c
    ensures nv.Keys <= c[Velocity].vals.Keys
  {
    map e | e in c[Velocity].vals && Has(c, Acceleration, e) ::
      VecVal(AddScaled(AsVec(c[Velocity].vals[e]), AsVec(Get(c, Acceleration, e)), delta))
  }

  /** The components after `AcceleratedMovement(world, delta)`. */
  function Accelerated(c: Holder, delta: real): Holder
    requires Velocity in c
  {
    c[Velocity := Overlay(c[Velocity], Accelerations(c, delta))]
  }

  /**
    Every entity with both components gets `velocity + acceleration * delta`;
    an entity with a velocity and no acceleration keeps it; the velocity map
    keeps its keys and order, and every other map, accelerations included,
    is unchanged.
   */
  lemma AcceleratedFacts(c: Holder, delta: real, e: int)
    requires Velocity in c
    ensures Has(c, Acceleration, e) && Has(c, Velocity, e) ==>
      Accelerated(c, delta)[Velocity].vals[e]
        == VecVal(AddScaled(AsVec(c[Velocity].vals[e]), AsVec(c[Acceleration].vals[e]), delta))
    ensures !Has(c, Acceleration, e) && Has(c, Velocity, e) ==>
      Accelerated(c, delta)[Velocity].vals[e] == c[Velocity].vals[e]
    ensures Accelerated(c, delta).Keys == c.Keys
    ensures Accelerated(c, delta)[Velocity].keys == c[Velocity].keys
    ensures Accelerated(c, delta)[Velocity].vals.Keys == c[Velocity].vals.Keys
    ensures forall n :: n in c && n != Velocity ==> Accelerated(c, delta)[n] == c[n]
  {
  }

  /** With `delta == 0` no velocity changes. */
  lemma AcceleratedZero(c: Holder)
    requires Velocity in c && Shaped(c)
    ensures Accelerated(c, 0.0) == c
  {
    var s := c[Velocity];
    forall e | e in s.vals
      ensures (s.vals + Accelerations(c, 0.0))[e] == s.vals[e]
    {
      assert Fits(Velocity, s.vals[e]);
      AddScaledNeutral(AsVec(s.vals[e]), AsVec(Get(c, Acceleration, e)), 0.0);
    }
    assert s.vals + Accelerations(c, 0.0) == s.vals;
  }

  /** The loop over the whole query writes exactly the new velocities of `Accelerated`. */
  lemma AcceleratedIsRun(c: Holder, delta: real)
    requires StoresValid(c) && Velocity in c
    ensures RunStore(c[Velocity], Join(c, Query), Accelerate, delta, |Join(c, Query)|) == Overlay(c[Velocity], Accelerations(c, delta))
  {
    JoinStore(c, Query, 1, Accelerate, delta);
    var nv := NewValues(Join(c, Query), Accelerate, delta);
    forall e
      ensures e in nv <==> e in Accelerations(c, delta)
      ensures e in nv ==> nv[e] == Accelerations(c, delta)[e]
    {
      assert Values(c, Query, e)[0] == Get(c, Acceleration, e);
      assert Values(c, Query, e)[1] == Get(c, Velocity, e);
      assert Matches(c, Query, e) <==> Has(c, Velocity, e);
    }
    SameMap(nv, Accelerations(c, delta));
  }

  /** A record that differs from `c0` only by the whole loop's writes to the velocity map is `Accelerated(c0)`. */
  lemma AcceleratedEnd(c0: Holder, c: Holder, delta: real)
    requires StoresValid(c0) && Velocity in c0 && Others(c, c0, Velocity)
    requires c[Velocity] == RunStore(c0[Velocity], Join(c0, Query), Accelerate, delta, |Join(c0, Query)|)
    ensures c == Accelerated(c0, delta)
  {
    AcceleratedIsRun(c0, delta);
    OthersEqual(c, c0, Velocity, Overlay(c0[Velocity], Accelerations(c0, delta)));
  }

  /** `AcceleratedMovement(world, delta)`. */
  method AcceleratedMovement(w: World, delta: real)
    requires w.Valid() && Velocity in w.components
    modifies w
    ensures w.Valid()
    ensures w.components == Accelerated(old(w.components), delta)
    ensures w.lastAssignedId == old(w.lastAssignedId) && w.active == old(w.active) && w.currentTime == old(w.currentTime)
  {
    ghost var c0 := w.components;
    var rows := w.EntitiesWithComponents(Query);
    JoinLive(c0, w.active, w.lastAssignedId, Query);
    WriteRows(w, Velocity, rows, Accelerate, delta);
    AcceleratedEnd(c0, w.components, delta);
  }
}
