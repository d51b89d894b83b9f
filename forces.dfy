/**
  The update both pair systems make to the force map: for two entities,
  the first force gains `d * fm` and the second `d * -fm`, the two
  `addVecMultiplyByScalar` calls of `Gravitation` (src/lib/systems/Gravitation.ts)
  and of `Spring` (src/lib/systems/Spring.ts).  The two changes cancel, so
  the sum of all forces is kept.
 */
module ForcePairs {
  import opened Vector2
  import opened Store
  import opened Components
  import opened World
  import opened Updates

  /** Force 1 gains `d * fm`, then force 2 gains `d * -fm`: the two `addVecMultiplyByScalar` calls of a loop body. */
  function Kick(s: Store<Value>, e1: int, e2: int, d: Vec, fm: real): Store<Value>
  {
    var s1 := s.Set(e1, VecVal(AddScaled(AsVec(At(s, e1)), d, fm)));
    s1.Set(e2, VecVal(AddScaled(AsVec(At(s1, e2)), d, -fm)))
  }

  /**
    For two different entities, force 1 gains `d * fm` and force 2 gains
    `d * -fm`, exact negations of each other; no other entry and no key
    changes.
   */
  lemma {:induction false} KickFacts(s: Store<Value>, e1: int, e2: int, d: Vec, fm: real)
    requires e1 != e2
    ensures Kick(s, e1, e2, d, fm).vals[e1] == VecVal(Add(AsVec(At(s, e1)), Scale(d, fm)))
    ensures Kick(s, e1, e2, d, fm).vals[e2] == VecVal(Add(AsVec(At(s, e2)), Neg(Scale(d, fm))))
    ensures forall e :: e != e1 && e != e2 ==> At(Kick(s, e1, e2, d, fm), e) == At(s, e)
    ensures e1 in s.vals && e2 in s.vals ==> Kick(s, e1, e2, d, fm).keys == s.keys && Kick(s, e1, e2, d, fm).vals.Keys == s.vals.Keys
  {
    ScaleNegated(d, fm);
  }

  /*
    Conservation of the total force.
   */

  /** The sum of the vectors of `s` at `keys`. */
  function Total(s: Store<Value>, keys: seq<int>): Vec
  {
    if keys == [] then Zero
    else Add(Total(s, keys[..|keys| - 1]), AsVec(At(s, keys[|keys| - 1])))
  }

  /** Setting the entry of a key outside `keys` leaves the total over `keys` as it is. */
  lemma {:induction false} TotalSetElsewhere(s: Store<Value>, keys: seq<int>, e: int, v: Value)
    requires e !in keys
    ensures Total(s.Set(e, v), keys) == Total(s, keys)
  {
    if keys != [] {
      var init := keys[..|keys| - 1];
      assert e !in init by {
        assert forall x :: x in init ==> x in keys;
      }
      TotalSetElsewhere(s, init, e, v);
      assert At(s.Set(e, v), keys[|keys| - 1]) == At(s, keys[|keys| - 1]);
    }
  }

  /** Replacing the last summand `b` of a sum by `c` adds `c - b` to it. */
  lemma ReplaceLast(a: Vec, b: Vec, c: Vec)
    ensures Add(a, c) == Add(Add(a, b), Sub(c, b))
  {
  }

  /** A change made before the last summand is added is the same change made after it. */
  lemma ChangeEarlier(a: Vec, d: Vec, b: Vec)
    ensures Add(Add(a, d), b) == Add(Add(a, b), d)
  {
  }

  /** Setting the entry of the last key, which occurs only there, moves the total by the change of that entry. */
  lemma TotalSetLast(s: Store<Value>, keys: seq<int>, v: Value)
    requires keys != [] && keys[|keys| - 1] !in keys[..|keys| - 1]
    ensures var e := keys[|keys| - 1];
      Total(s.Set(e, v), keys) == Add(Total(s, keys), Sub(AsVec(v), AsVec(At(s, e))))
  {
    var init := keys[..|keys| - 1];
    var e := keys[|keys| - 1];
    TotalSetElsewhere(s, init, e, v);
    ReplaceLast(Total(s, init), AsVec(At(s, e)), AsVec(v));
  }

  /** A change of the total over all keys but the last is a change of the total over all keys, when the last entry stays. */
  lemma TotalSetEarlier(s: Store<Value>, keys: seq<int>, e: int, v: Value)
    requires keys != [] && keys[|keys| - 1] != e
    requires var init := keys[..|keys| - 1];
      Total(s.Set(e, v), init) == Add(Total(s, init), Sub(AsVec(v), AsVec(At(s, e))))
    ensures Total(s.Set(e, v), keys) == Add(Total(s, keys), Sub(AsVec(v), AsVec(At(s, e))))
  {
    var last := keys[|keys| - 1];
    assert At(s.Set(e, v), last) == At(s, last);
    ChangeEarlier(Total(s, keys[..|keys| - 1]), Sub(AsVec(v), AsVec(At(s, e))), AsVec(At(s, last)));
  }

  /** Setting the entry of one of the keys moves the total by the change of that entry. */
  lemma {:induction false} TotalSet(s: Store<Value>, keys: seq<int>, e: int, v: Value)
    requires Distinct(keys) && e in keys
    ensures Total(s.Set(e, v), keys) == Add(Total(s, keys), Sub(AsVec(v), AsVec(At(s, e))))
  {
    var init := keys[..|keys| - 1];
    DistinctPrefix(keys, |keys| - 1);
    if keys[|keys| - 1] == e {
      TotalSetLast(s, keys, v);
    } else {
      assert e in init by {
        assert keys == init + [keys[|keys| - 1]];
      }
      TotalSet(s, init, e, v);
      TotalSetEarlier(s, keys, e, v);
    }
  }

  /** Two changes `d * m` and `d * -m` added to a total cancel out. */
  lemma {:induction false} ChangesCancel(t: Vec, a: Vec, b: Vec, d: Vec, m: real)
    ensures Add(Add(t, Sub(AddScaled(a, d, m), a)), Sub(AddScaled(b, d, -m), b)) == t
  {
    assert d.x * -m == -(d.x * m) && d.y * -m == -(d.y * m);
  }

  /** A kick of two different entries of the map leaves the total over its keys unchanged. */
  lemma {:induction false} KickTotal(s: Store<Value>, e1: int, e2: int, d: Vec, fm: real)
    requires s.Valid() && e1 != e2 && e1 in s.vals && e2 in s.vals
    ensures Total(Kick(s, e1, e2, d, fm), s.keys) == Total(s, s.keys)
  {
    var f1 := AsVec(At(s, e1));
    var f2 := AsVec(At(s, e2));
    var v1 := VecVal(AddScaled(f1, d, fm));
    var s1 := s.Set(e1, v1);
    assert At(s1, e2) == At(s, e2);
    var v2 := VecVal(AddScaled(f2, d, -fm));
    TotalSet(s, s.keys, e1, v1);
    TotalSet(s1, s.keys, e2, v2);
    ChangesCancel(Total(s, s.keys), f1, f2, d, fm);
  }

  /** The two force updates of a turn whose positions differ: `Kick` on the force map of the world. */
  method KickForces(w: World, e1: int, e2: int, d: Vec, forceModule: real)
    requires w.Valid() && Force in w.components && e1 in w.active && e2 in w.active
    modifies w
    ensures w.Valid()
    ensures w.lastAssignedId == old(w.lastAssignedId) && w.active == old(w.active) && w.currentTime == old(w.currentTime)
    ensures Others(w.components, old(w.components), Force) && Force in w.components
    ensures w.components[Force] == Kick(old(w.components[Force]), e1, e2, d, forceModule)
  {
    ghost var s0 := w.components[Force];
    var force1 := AsVec(At(w.components[Force], e1));
    var v1 := VecVal(AddScaled(force1, d, forceModule));
    w.SetComponent(Force, e1, v1);
    ghost var s1 := w.components[Force];
    assert s1 == s0.Set(e1, v1);
    var force2 := AsVec(At(w.components[Force], e2));
    var v2 := VecVal(AddScaled(force2, d, -forceModule));
    w.SetComponent(Force, e2, v2);
    assert w.components[Force] == s1.Set(e2, v2);
  }
}
