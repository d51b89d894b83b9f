/**
  `ForceApplication` and `ForceReset` (src/lib/systems/ForceApplication.ts),
  also `ApplyForce` and `ForceReset` in the combined snapshots.
  `ForceApplication` adds `force / mass` to the acceleration of every entity
  with all three components; `ForceReset` zeroes every force.
 */
module ForceApplicationSystem {
  import opened Vector2
  import opened Store
  import opened Components
  import opened World
  import opened Updates

  const Query: seq<Name> := [Mass, Force, Acceleration]

  /** `1 / m` for the non-zero masses `ForceApplication` is applied to. */
  function Inverse(m: real): (r: real)
    ensures m != 0.0 ==> r == 1.0 / m
  {
    if m == 0.0 then 0.0 else 1.0 / m
  }

  /** The loop body for a row `[entity, mass, force, acceleration]`. */
  function ApplyForce(row: Row, delta: real): Option<Value>
  {
    Some(VecVal(AddScaled(AsVec(Slot(row, 2)), AsVec(Slot(row, 1)), Inverse(AsMass(Slot(row, 0))))))
  }

  /** The new accelerations: one for every entity with a mass, a force and an acceleration. */
  function Applications(c: Holder): (nv: map<int, Value>)
    requires Acceleration in c
    ensures nv.Keys <= c[Acceleration].vals.Keys
  {
    map e | e in c[Acceleration].vals && Has(c, Mass, e) && Has(c, Force, e) ::
      VecVal(AddScaled(AsVec(c[Acceleration].vals[e]), AsVec(Get(c, Force, e)), Inverse(AsMass(Get(c, Mass, e)))))
  }

  /** The components after `ForceApplication(world, delta)`, whatever `delta` is. */
  function Applied(c: Holder): Holder
    requires Acceleration in c
  {
    c[Acceleration := Overlay(c[Acceleration], Applications(c))]
  }

  /** Every entity the query yields has a non-zero mass: the division in the loop body needs it. */
  ghost predicate MassesNonZero(c: Holder)
  {
    forall e :: Has(c, Mass, e) && Has(c, Force, e) && Has(c, Acceleration, e) ==> c[Mass].vals[e] != MassVal(0.0)
  }

  /**
    An entity with a mass, a force and an acceleration gets
    `acceleration + force * (1 / mass)`, which is its old acceleration when the
    force is zero; an acceleration without the other two is kept; forces,
    masses and every other map are unchanged, and the acceleration map keeps
    its keys and order.
   */
  lemma AppliedFacts(c: Holder, e: int)
    requires Acceleration in c && Shaped(c) && MassesNonZero(c)
    ensures Has(c, Mass, e) && Has(c, Force, e) && Has(c, Acceleration, e) ==>
      Applied(c)[Acceleration].vals[e]
        == VecVal(AddScaled(AsVec(c[Acceleration].vals[e]), AsVec(c[Force].vals[e]), 1.0 / c[Mass].vals[e].mass))
    ensures Has(c, Mass, e) && Has(c, Force, e) && Has(c, Acceleration, e) && IsZero(AsVec(c[Force].vals[e])) ==>
      Applied(c)[Acceleration].vals[e] == c[Acceleration].vals[e]
    ensures Has(c, Acceleration, e) && !(Has(c, Mass, e) && Has(c, Force, e)) ==>
      Applied(c)[Acceleration].vals[e] == c[Acceleration].vals[e]
    ensures Applied(c).Keys == c.Keys
    ensures Applied(c)[Acceleration].keys == c[Acceleration].keys
    ensures Applied(c)[Acceleration].vals.Keys == c[Acceleration].vals.Keys
    ensures forall n :: n in c && n != Acceleration ==> Applied(c)[n] == c[n]
  {
    if Has(c, Mass, e) && Has(c, Force, e) && Has(c, Acceleration, e) {
      assert Fits(Mass, c[Mass].vals[e]) && Fits(Acceleration, c[Acceleration].vals[e]);
      var acc := AsVec(c[Acceleration].vals[e]);
      AddScaledNeutral(acc, AsVec(c[Force].vals[e]), Inverse(AsMass(c[Mass].vals[e])));
    }
  }

  /** The loop body on the row the query yields for `e`. */
  lemma ApplyForceAt(c: Holder, e: int, delta: real)
    ensures Matches(c, Query, e) <==> Has(c, Force, e) && Has(c, Acceleration, e)
    ensures ApplyForce(Row(e, Values(c, Query, e)), delta)
      == Some(VecVal(AddScaled(AsVec(Get(c, Acceleration, e)), AsVec(Get(c, Force, e)), Inverse(AsMass(Get(c, Mass, e))))))
  {
    var vs := Values(c, Query, e);
    assert vs[0] == Get(c, Mass, e) && vs[1] == Get(c, Force, e) && vs[2] == Get(c, Acceleration, e);
  }

  /** The loop over the whole query writes exactly the new accelerations of `Applied`. */
  lemma AppliedIsRun(c: Holder, delta: real)
    requires StoresValid(c) && Acceleration in c
    ensures RunStore(c[Acceleration], Join(c, Query), ApplyForce, delta, |Join(c, Query)|)
      == Overlay(c[Acceleration], Applications(c))
  {
    JoinStore(c, Query, 2, ApplyForce, delta);
    var nv := NewValues(Join(c, Query), ApplyForce, delta);
    forall e
      ensures e in nv <==> e in Applications(c)
      ensures e in nv ==> nv[e] == Applications(c)[e]
    {
      ApplyForceAt(c, e, delta);
    }
    SameMap(nv, Applications(c));
  }

  lemma AppliedEnd(c0: Holder, c: Holder, delta: real)
    requires StoresValid(c0) && Acceleration in c0 && Others(c, c0, Acceleration)
    requires c[Acceleration] == RunStore(c0[Acceleration], Join(c0, Query), ApplyForce, delta, |Join(c0, Query)|)
    ensures c == Applied(c0)
  {
    AppliedIsRun(c0, delta);
    OthersEqual(c, c0, Acceleration, Overlay(c0[Acceleration], Applications(c0)));
  }

  /** `ForceApplication(world, delta)`. */
  method ForceApplication(w: World, delta: real)
    requires w.Valid() && Force in w.components && Acceleration in w.components
    requires MassesNonZero(w.components)
    modifies w
    ensures w.Valid()
    ensures w.components == Applied(old(w.components))
    ensures w.lastAssignedId == old(w.lastAssignedId) && w.active == old(w.active) && w.currentTime == old(w.currentTime)
  {
    ghost var c0 := w.components;
    var rows := w.EntitiesWithComponents(Query);
    JoinLive(c0, w.active, w.lastAssignedId, Query);
    WriteRows(w, Acceleration, rows, ApplyForce, delta);
    AppliedEnd(c0, w.components, delta);
  }

  /*
    `ForceReset`.
   */

  /** The loop of `ForceReset` visits the keys of the force map with no other data. */
  function KeyRows(keys: seq<int>): (rows: seq<Row>)
    ensures |rows| == |keys|
    ensures forall k :: 0 <= k < |keys| ==> rows[k] == Row(keys[k], [])
  {
    seq(|keys|, k requires 0 <= k < |keys| => Row(keys[k], []))
  }

  /** `setToZero(force)`. */
  function ZeroForce(row: Row, delta: real): Option<Value>
  {
    Some(VecVal(Zero))
  }

  /** The components after `ForceReset(world)`: every force is `(0, 0)`. */
  function Reset(c: Holder): Holder
    requires Force in c
  {
    c[Force := Overlay(c[Force], map e | e in c[Force].vals :: VecVal(Zero))]
  }

  /**
    After `ForceReset` every force is `(0, 0)`, whatever other components its
    entity has; no map gains or loses a key, the force map keeps its order,
    and every other map is unchanged.
   */
  lemma ResetFacts(c: Holder)
    requires Force in c
    ensures forall e :: e in Reset(c)[Force].vals ==> Reset(c)[Force].vals[e] == VecVal(Zero)
    ensures Reset(c).Keys == c.Keys
    ensures Reset(c)[Force].keys == c[Force].keys && Reset(c)[Force].vals.Keys == c[Force].vals.Keys
    ensures forall n :: n in c && n != Force ==> Reset(c)[n] == c[n]
  {
  }

  /** A second `ForceReset` changes nothing. */
  lemma ResetIdempotent(c: Holder)
    requires Force in c
    ensures Reset(Reset(c)) == Reset(c)
  {
    var s := Reset(c)[Force];
    assert s.vals + (map e | e in s.vals :: VecVal(Zero)) == s.vals;
  }

  /** Zeroing the forces key by key is `Reset`. */
  lemma ResetIsRun(c: Holder, delta: real)
    requires StoresValid(c) && Force in c
    ensures RunStore(c[Force], KeyRows(c[Force].keys), ZeroForce, delta, |c[Force].keys|) == Reset(c)[Force]
  {
    var s := c[Force];
    var rows := KeyRows(s.keys);
    RunStoreOverlay(s, rows, ZeroForce, delta, |rows|);
    TakeAll(rows);
    NewValuesAt(c, [], rows, ZeroForce, delta);
    assert Entities(rows) == s.keys;
    var nv := NewValues(rows, ZeroForce, delta);
    forall e
      ensures e in nv <==> e in s.vals
      ensures e in nv ==> nv[e] == VecVal(Zero)
    {
      assert ZeroForce(Row(e, Values(c, [], e)), delta) == Some(VecVal(Zero));
    }
    SameMap(nv, map e | e in s.vals :: VecVal(Zero));
  }

  lemma ResetEnd(c0: Holder, c: Holder, delta: real)
    requires StoresValid(c0) && Force in c0 && Others(c, c0, Force)
    requires c[Force] == RunStore(c0[Force], KeyRows(c0[Force].keys), ZeroForce, delta, |c0[Force].keys|)
    ensures c == Reset(c0)
  {
    ResetIsRun(c0, delta);
    OthersEqual(c, c0, Force, Reset(c0)[Force]);
  }

  /** `ForceReset(world)`. */
  method ForceReset(w: World)
    requires w.Valid() && Force in w.components
    modifies w
    ensures w.Valid()
    ensures w.components == Reset(old(w.components))
    ensures w.lastAssignedId == old(w.lastAssignedId) && w.active == old(w.active) && w.currentTime == old(w.currentTime)
  {
    ghost var c0 := w.components;
    var keys := w.components[Force].keys;
    var rows := KeyRows(keys);
    WriteRows(w, Force, rows, ZeroForce, 0.0);
    ResetEnd(c0, w.components, 0.0);
  }
}
