/**
  `Movement` (src/lib/systems/Movement.ts): every entity with a position and
  a non-zero velocity moves by `velocity * delta` and is recorded in the
  `entityMovedEvent` map, which holds exactly the entities moved in this step.
 */
module MovementSystem {
  import opened Vector2
  import opened Store
  import opened Components
  import opened World
  import opened Updates

  const Query: seq<Name> := [Position, Velocity]

  /** `!isZero(velocity)` for the entity's velocity. */
  predicate Moving(c: Holder, e: int)
  {
    !IsZero(AsVec(Get(c, Velocity, e)))
  }

  /** The new positions: one for every entity with a position and a non-zero velocity. */
  function Moves(c: Holder, delta: real): (nv: map<int, Value>)
    requires Position in c
    ensures nv.Keys <= c[Position].vals.Keys
  {
    map e | e in c[Position].vals && Has(c, Velocity, e) && Moving(c, e) ::
      VecVal(AddScaled(AsVec(c[Position].vals[e]), AsVec(Get(c, Velocity, e)), delta))
  }

  /** The entities of `rows` that move, in the order of the rows. */
  function MovedEntities(c: Holder, rows: seq<Row>): seq<int>
  {
    if rows == [] then []
    else
      var last := rows[|rows| - 1].entity;
      MovedEntities(c, rows[..|rows| - 1]) + if Moving(c, last) then [last] else []
  }

  /** A map holding `true` for each of `es`, in that insertion order. */
  function Flags(es: seq<int>): Store<Value>
  {
    Store(es, map e | e in es :: FlagVal(true))
  }

  /** The components after `Movement(world, delta)`. */
  function Moved(c: Holder, delta: real): Holder
    requires Position in c && EntityMovedEvent in c
  {
    c[Position := Overlay(c[Position], Moves(c, delta))]
     [EntityMovedEvent := Flags(MovedEntities(c, Join(c, Query)))]
  }

  lemma {:induction false} MovedEntitiesMembers(c: Holder, rows: seq<Row>)
    ensures forall e :: e in MovedEntities(c, rows) <==> e in Entities(rows) && Moving(c, e)
    ensures Distinct(Entities(rows)) ==> Distinct(MovedEntities(c, rows))
  {
    if rows != [] {
      var init := rows[..|rows| - 1];
      MovedEntitiesMembers(c, init);
      assert Entities(rows) == Entities(init) + [rows[|rows| - 1].entity];
      if Distinct(Entities(rows)) {
        assert Distinct(Entities(init)) by {
          forall i, j | 0 <= i < j < |init| ensures Entities(init)[i] != Entities(init)[j] {
            assert Entities(rows)[i] != Entities(rows)[j];
          }
        }
      }
    }
  }

  /**
    `Movement` moves exactly the entities with a position and a non-zero
    velocity, by `velocity * delta`; an entity with a zero velocity keeps its
    position; the position map keeps its order, and velocities and every
    map other than the event map are unchanged.
   */
  lemma MovementFacts(c: Holder, delta: real, e: int)
    requires Position in c && Velocity in c && EntityMovedEvent in c
    ensures Has(c, Position, e) && Has(c, Velocity, e) && Moving(c, e) ==>
      Moved(c, delta)[Position].vals[e] == VecVal(AddScaled(AsVec(c[Position].vals[e]), AsVec(c[Velocity].vals[e]), delta))
    ensures Has(c, Position, e) && !Moving(c, e) ==> Moved(c, delta)[Position].vals[e] == c[Position].vals[e]
    ensures Moved(c, delta)[Position].keys == c[Position].keys
    ensures forall n :: n in c && n != Position && n != EntityMovedEvent ==> Moved(c, delta)[n] == c[n]
  {
  }

  /**
    After `Movement` the event map holds `true` for exactly the entities
    that moved, in the iteration order of the position map, with no entity
    twice.
   */
  lemma MovementEvents(c: Holder, delta: real, e: int)
    requires StoresValid(c) && Position in c && Velocity in c && EntityMovedEvent in c
    ensures Has(Moved(c, delta), EntityMovedEvent, e) <==> Has(c, Position, e) && Has(c, Velocity, e) && Moving(c, e)
    ensures Has(Moved(c, delta), EntityMovedEvent, e) ==> Moved(c, delta)[EntityMovedEvent].vals[e] == FlagVal(true)
    ensures Moved(c, delta)[EntityMovedEvent].Valid()
  {
    JoinFacts(c, Query);
    MovedEntitiesMembers(c, Join(c, Query));
  }

  lemma FlagsAppend(es: seq<int>, e: int)
    requires Distinct(es) && e !in es
    ensures Flags(es).Set(e, FlagVal(true)) == Flags(es + [e])
    ensures Flags(es).Valid()
  {
  }

  /** The loop body's write to `entityMovedEvent` for a row `[entity, position, velocity]`. */
  function MarkMoved(row: Row, delta: real): Option<Value>
  {
    if IsZero(AsVec(Slot(row, 1))) then None else Some(FlagVal(true))
  }

  /** The loop body's write to `position` for the same row. */
  function Move(row: Row, delta: real): Option<Value>
  {
    if IsZero(AsVec(Slot(row, 1))) then None
    else Some(VecVal(AddScaled(AsVec(Slot(row, 0)), AsVec(Slot(row, 1)), delta)))
  }

  /** What turn `i` of the loop sees: whether its entity moves, and that it is not yet recorded. */
  lemma MarkStep(c: Holder, delta: real, rows: seq<Row>, i: nat)
    requires StoresValid(c) && rows == Join(c, Query) && i < |rows|
    ensures var e := rows[i].entity;
      && MarkMoved(rows[i], delta) == (if Moving(c, e) then Some(FlagVal(true)) else None)
      && MovedEntities(c, rows[..i + 1]) == MovedEntities(c, rows[..i]) + (if Moving(c, e) then [e] else [])
      && (Moving(c, e) ==> Distinct(MovedEntities(c, rows[..i])) && e !in MovedEntities(c, rows[..i]))
  {
    var e := rows[i].entity;
    assert rows[..i + 1][..i] == rows[..i];
    JoinRow(c, Query, i);
    assert Slot(rows[i], 1) == Get(c, Velocity, e);
    JoinFacts(c, Query);
    MovedEntitiesMembers(c, rows[..i]);
    EntitiesPrefix(rows, i);
    DistinctPrefix(Entities(rows), i);
  }

  /** Marking the first `i` query rows in an emptied map records exactly the moving entities among them. */
  lemma {:induction false} MarksAreFlags(c: Holder, delta: real, rows: seq<Row>, i: nat)
    requires StoresValid(c) && rows == Join(c, Query) && i <= |rows|
    ensures RunStore(Empty(), rows, MarkMoved, delta, i) == Flags(MovedEntities(c, rows[..i]))
  {
    if i == 0 {
      assert Flags([]) == Empty();
    } else {
      MarksAreFlags(c, delta, rows, i - 1);
      MarkStep(c, delta, rows, i - 1);
      var e := rows[i - 1].entity;
      if Moving(c, e) {
        FlagsAppend(MovedEntities(c, rows[..i - 1]), e);
      }
    }
  }

  /** The position writes of the whole loop are the new positions of `Moves`. */
  lemma MovesAreRun(c: Holder, delta: real)
    requires StoresValid(c) && Position in c && Velocity in c
    ensures RunStore(c[Position], Join(c, Query), Move, delta, |Join(c, Query)|) == Overlay(c[Position], Moves(c, delta))
  {
    JoinStore(c, Query, 0, Move, delta);
    var nv := NewValues(Join(c, Query), Move, delta);
    forall e
      ensures e in nv <==> e in Moves(c, delta)
      ensures e in nv ==> nv[e] == Moves(c, delta)[e]
    {
      assert Values(c, Query, e)[0] == Get(c, Position, e);
      assert Values(c, Query, e)[1] == Get(c, Velocity, e);
      assert Matches(c, Query, e) <==> Has(c, Velocity, e);
    }
    SameMap(nv, Moves(c, delta));
  }

  /** A record that differs from the cleared `c0` only by the whole loop's writes is `Moved(c0)`. */
  lemma MovementEnd(c0: Holder, c1: Holder, c: Holder, delta: real)
    requires StoresValid(c0) && Position in c0 && Velocity in c0 && EntityMovedEvent in c0
    requires c1 == c0[EntityMovedEvent := Empty()]
    requires Others2(c, c1, EntityMovedEvent, Position)
    requires c[EntityMovedEvent] == RunStore(Empty(), Join(c1, Query), MarkMoved, delta, |Join(c1, Query)|)
    requires c[Position] == RunStore(c0[Position], Join(c1, Query), Move, delta, |Join(c1, Query)|)
    ensures c == Moved(c0, delta)
  {
    JoinFrame(c0, c1, Query);
    var rows := Join(c0, Query);
    MarksAreFlags(c0, delta, rows, |rows|);
    TakeAll(rows);
    MovesAreRun(c0, delta);
    assert Others2(c, c0, Position, EntityMovedEvent);
    OthersEqual2(c, c0, Position, EntityMovedEvent, Overlay(c0[Position], Moves(c0, delta)), Flags(MovedEntities(c0, rows)));
  }

  /** Both writes of the loop body have the shape of their map. */
  lemma WritesFit(rows: seq<Row>, delta: real)
    ensures forall k :: 0 <= k < |rows| && MarkMoved(rows[k], delta).Some? ==> Fits(EntityMovedEvent, MarkMoved(rows[k], delta).value)
    ensures forall k :: 0 <= k < |rows| && Move(rows[k], delta).Some? ==> Fits(Position, Move(rows[k], delta).value)
  {
  }

  /** `Movement(world, delta)`. */
  method Movement(w: World, delta: real)
    requires w.Valid()
    requires Position in w.components && Velocity in w.components && EntityMovedEvent in w.components
    modifies w
    ensures w.Valid()
    ensures w.components == Moved(old(w.components), delta)
    ensures w.lastAssignedId == old(w.lastAssignedId) && w.active == old(w.active) && w.currentTime == old(w.currentTime)
  {
    ghost var c0 := w.components;
    w.ClearComponent(EntityMovedEvent);
    ghost var c1 := w.components;
    var rows := w.EntitiesWithComponents(Query);
    JoinLive(c1, w.active, w.lastAssignedId, Query);
    WritesFit(rows, delta);
    WriteRows2(w, EntityMovedEvent, Position, rows, MarkMoved, Move, delta);
    MovementEnd(c0, c1, w.components, delta);
  }
}
