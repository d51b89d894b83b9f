/**
  `Movement` of the combined snapshots (src/lib/systems.ts and the `Systems`
  namespace of src/lib.ts): every entity with a position and a velocity
  moves by `velocity * delta`, zero velocities included, and no event map is
  kept.  The other physics systems of these snapshots are the ones of
  src/lib/systems/ and are modelled there.
 */
module CombinedSystems {
  import opened Vector2
  import opened Store
  import opened Components
  import opened World
  import opened Updates
  import MovementSystem

  const Query: seq<Name> := [Position, Velocity]

  /** The loop body for a row `[entity, position, velocity]`. */
  function Move(row: Row, delta: real): Option<Value>
  {
    Some(VecVal(AddScaled(AsVec(Slot(row, 0)), AsVec(Slot(row, 1)), delta)))
  }

  /** The new positions: one for every entity with a position and a velocity. */
  function Moves(c: Holder, delta: real): (nv: map<int, Value>)
    requires Position in c
    ensures nv.Keys <= c[Position].vals.Keys
  {
    map e | e in c[Position].vals && Has(c, Velocity, e) ::
      VecVal(AddScaled(AsVec(c[Position].vals[e]), AsVec(Get(c, Velocity, e)), delta))
  }

  /** The components after the combined `Movement(world, delta)`. */
  function Moved(c: Holder, delta: real): Holder
    requires Position in c
  {
    c[Position := Overlay(c[Position], Moves(c, delta))]
  }

  /**
    Every entity with both components gets `position + velocity * delta`; a
    position without a velocity is kept; the position map keeps its keys
    and order, and every other map, velocities included, is unchanged.
   */
  lemma MovedFacts(c: Holder, delta: real, e: int)
    requires Position in c
    ensures Has(c, Position, e) && Has(c, Velocity, e) ==>
      Moved(c, delta)[Position].vals[e] == VecVal(AddScaled(AsVec(c[Position].vals[e]), AsVec(c[Velocity].vals[e]), delta))
    ensures Has(c, Position, e) && !Has(c, Velocity, e) ==> Moved(c, delta)[Position].vals[e] == c[Position].vals[e]
    ensures Moved(c, delta).Keys == c.Keys
    ensures Moved(c, delta)[Position].keys == c[Position].keys
    ensures Moved(c, delta)[Position].vals.Keys == c[Position].vals.Keys
    ensures forall n :: n in c && n != Position ==> Moved(c, delta)[n] == c[n]
  {
  }

  /**
    Without the zero-velocity guard the positions still come out as those of
    the modular `Movement`: a zero velocity moves nothing.  The snapshots
    differ only in the event map.
   */
  lemma SamePositions(c: Holder, delta: real)
    requires Position in c && EntityMovedEvent in c && Shaped(c)
    ensures Moved(c, delta)[Position] == MovementSystem.Moved(c, delta)[Position]
  {
    var s := c[Position];
    var m := Moves(c, delta);
    var g := MovementSystem.Moves(c, delta);
    forall e | e in s.vals
      ensures (s.vals + m)[e] == (s.vals + g)[e]
    {
      if Has(c, Velocity, e) {
        assert Fits(Position, s.vals[e]);
        AddScaledNeutral(AsVec(s.vals[e]), AsVec(Get(c, Velocity, e)), delta);
      }
    }
    SameMap(s.vals + m, s.vals + g);
  }

  /** The loop over the whole query writes exactly the new positions of `Moved`. */
  lemma MovesAreRun(c: Holder, delta: real)
    requires StoresValid(c) && Position in c
    ensures RunStore(c[Position], Join(c, Query), Move, delta, |Join(c, Query)|) == Overlay(c[Position], Moves(c, delta))
  {
    JoinStore(c, Query, 0, Move, delta);
    var nv := NewValues(Join(c, Query), Move, delta);
    forall e
      ensures e in nv <==> e in Moves(c, delta)
      ensures e in nv ==> nv[e] == Moves(c, delta)[e]
    {
      assert Values(c, Query, e)[0] == Get(c, Position, e);
      assert Values(c, Query, e)[1] == Get(c, Velocity, e);
      assert Matches(c, Query, e) <==> Has(c, Velocity, e);
    }
    SameMap(nv, Moves(c, delta));
  }

  lemma MovedEnd(c0: Holder, c: Holder, delta: real)
    requires StoresValid(c0) && Position in c0 && Others(c, c0, Position)
    requires c[Position] == RunStore(c0[Position], Join(c0, Query), Move, delta, |Join(c0, Query)|)
    ensures c == Moved(c0, delta)
  {
    MovesAreRun(c0, delta);
    OthersEqual(c, c0, Position, Overlay(c0[Position], Moves(c0, delta)));
  }

  /** The combined `Movement(world, delta)`. */
  method Movement(w: World, delta: real)
    requires w.Valid() && Position in w.components && Velocity in w.components
    modifies w
    ensures w.Valid()
    ensures w.components == Moved(old(w.components), delta)
    ensures w.lastAssignedId == old(w.lastAssignedId) && w.active == old(w.active) && w.currentTime == old(w.currentTime)
  {
    ghost var c0 := w.components;
    var rows := w.EntitiesWithComponents(Query);
    JoinLive(c0, w.active, w.lastAssignedId, Query);
    WriteRows(w, Position, rows, Move, delta);
    MovedEnd(c0, w.components, delta);
  }
}
