/**
  `Spring` (src/lib/systems/Spring.ts): every spring entity joins two
  entities.  A spring one of whose endpoints is no longer live is removed
  from the world; otherwise, when both endpoints have a force and a position
  and the positions differ, the forces of the endpoints get the equal and
  opposite Hooke pull `d * fm` and `d * -fm`, where `d` runs from endpoint 1
  to endpoint 2 and `fm` is `-(originalDistance - |d|) * k / |d|`.
 */
module SpringSystem {
  import opened Vector2
  import opened Store
  import opened Components
  import opened World
  import opened Updates
  import opened ForcePairs

  /** What the system reads and changes: the component maps and the live entities. */
  datatype State = State(components: Holder, active: set<int>)

  /** `forceModule` of a spring whose endpoints are `d` apart. */
  function Tension(sp: SpringData, d: Vec, sqrt: real -> real): real
    requires IsSqrt(sqrt) && !IsZero(d)
  {
    ModulePositive(d, sqrt);
    var distance := Module(d, sqrt);
    (-(sp.originalDistance - distance) * sp.k) / distance
  }

  /** Both endpoints of `sp` are live. */
  predicate Attached(st: State, sp: SpringData)
  {
    sp.entity1 in st.active && sp.entity2 in st.active
  }

  /** Both endpoints of `sp` have a force and a position. */
  predicate Equipped(c: Holder, sp: SpringData)
  {
    Has(c, Force, sp.entity1) && Has(c, Force, sp.entity2) && Has(c, Position, sp.entity1) && Has(c, Position, sp.entity2)
  }

  /** `diff(e2Position, e1Position, d)`. */
  function Span(c: Holder, sp: SpringData): Vec
  {
    Sub(AsVec(Get(c, Position, sp.entity2)), AsVec(Get(c, Position, sp.entity1)))
  }

  /** The loop body for the spring entity `e` holding `sp`. */
  function Turn(st: State, e: int, sp: SpringData, sqrt: real -> real): State
    requires IsSqrt(sqrt)
  {
    var c := st.components;
    if !Attached(st, sp) then State(Removed(c, e), st.active - {e})
    else if !Equipped(c, sp) || IsZero(Span(c, sp)) then st
    else
      var d := Span(c, sp);
      State(c[Force := Kick(c[Force], sp.entity1, sp.entity2, d, Tension(sp, d, sqrt))], st.active)
  }

  /** The state after the loop bodies for `keys`, each spring read from `springs`. */
  function Run(st: State, springs: Store<Value>, keys: seq<int>, sqrt: real -> real): State
    requires IsSqrt(sqrt)
  {
    if keys == [] then st
    else
      var e := keys[|keys| - 1];
      Turn(Run(st, springs, keys[..|keys| - 1], sqrt), e, AsSpring(At(springs, e)), sqrt)
  }

  /** The state after `Spring(world)`: one turn per spring, in the order of the spring map. */
  function Sprung(st: State, sqrt: real -> real): State
    requires IsSqrt(sqrt) && Spring in st.components
  {
    Run(st, st.components[Spring], st.components[Spring].keys, sqrt)
  }

  /*
    The turn.
   */

  /** The tension is zero at rest length; for a stiffness `k > 0` it is positive when stretched and negative when compressed. */
  lemma {:induction false} TensionSign(sp: SpringData, d: Vec, sqrt: real -> real)
    requires IsSqrt(sqrt) && !IsZero(d)
    ensures Module(d, sqrt) == sp.originalDistance ==> Tension(sp, d, sqrt) == 0.0
    ensures sp.k > 0.0 && Module(d, sqrt) > sp.originalDistance ==> Tension(sp, d, sqrt) > 0.0
    ensures sp.k > 0.0 && Module(d, sqrt) < sp.originalDistance ==> Tension(sp, d, sqrt) < 0.0
  {
    ModulePositive(d, sqrt);
    var distance := Module(d, sqrt);
    var stretch := -(sp.originalDistance - distance);
    if sp.k > 0.0 && distance > sp.originalDistance {
      MulPos(stretch, sp.k);
      DivPos(stretch * sp.k, distance);
    }
    if sp.k > 0.0 && distance < sp.originalDistance {
      MulPos(-stretch, sp.k);
      DivPos(-stretch * sp.k, distance);
      assert (stretch * sp.k) / distance == -((-stretch * sp.k) / distance);
    }
  }

  /** A spring with a dead endpoint leaves the world: it has no component left and is no longer live; nothing else changes. */
  lemma {:induction false} TurnRemoves(st: State, e: int, sp: SpringData, sqrt: real -> real)
    requires IsSqrt(sqrt) && !Attached(st, sp)
    ensures Turn(st, e, sp, sqrt).active == st.active - {e}
    ensures Turn(st, e, sp, sqrt).components.Keys == st.components.Keys
    ensures forall n :: n in st.components ==> !Has(Turn(st, e, sp, sqrt).components, n, e)
    ensures forall n, x :: x != e ==> (Has(Turn(st, e, sp, sqrt).components, n, x) <==> Has(st.components, n, x))
    ensures forall n, x :: x != e && Has(st.components, n, x) ==> Get(Turn(st, e, sp, sqrt).components, n, x) == Get(st.components, n, x)
  {
    RemovedFacts(st.components, e);
  }

  /**
    With both endpoints live nothing is removed and only forces change; when
    an endpoint lacks a force or a position, or the two positions coincide,
    nothing changes at all.
   */
  lemma {:induction false} TurnKeeps(st: State, e: int, sp: SpringData, sqrt: real -> real)
    requires IsSqrt(sqrt) && Attached(st, sp)
    ensures Turn(st, e, sp, sqrt).active == st.active
    ensures Turn(st, e, sp, sqrt).components.Keys == st.components.Keys
    ensures forall n :: n in st.components && n != Force ==> Turn(st, e, sp, sqrt).components[n] == st.components[n]
    ensures !Equipped(st.components, sp) || IsZero(Span(st.components, sp)) ==> Turn(st, e, sp, sqrt) == st
  {
  }

  /**
    With both endpoints live, equipped and apart, endpoint 1's force gains
    `d * fm` and endpoint 2's the opposite `-(d * fm)`; the force map keeps
    its keys and order, and every other force is unchanged.
   */
  lemma {:induction false} TurnPulls(st: State, e: int, sp: SpringData, sqrt: real -> real)
    requires IsSqrt(sqrt) && Attached(st, sp) && Equipped(st.components, sp) && !IsZero(Span(st.components, sp))
    ensures sp.entity1 != sp.entity2
    ensures var c := st.components; var r := Turn(st, e, sp, sqrt).components;
      var d := Span(c, sp); var fm := Tension(sp, d, sqrt);
      && r[Force].vals[sp.entity1] == VecVal(Add(AsVec(c[Force].vals[sp.entity1]), Scale(d, fm)))
      && r[Force].vals[sp.entity2] == VecVal(Add(AsVec(c[Force].vals[sp.entity2]), Neg(Scale(d, fm))))
      && r[Force].keys == c[Force].keys && r[Force].vals.Keys == c[Force].vals.Keys
      && (forall x :: x != sp.entity1 && x != sp.entity2 ==> At(r[Force], x) == At(c[Force], x))
  {
    var c := st.components;
    var d := Span(c, sp);
    KickFacts(c[Force], sp.entity1, sp.entity2, d, Tension(sp, d, sqrt));
  }

  /** A spring at its rest length exerts no force: the turn changes nothing. */
  lemma {:induction false} TurnAtRest(st: State, e: int, sp: SpringData, sqrt: real -> real)
    requires IsSqrt(sqrt) && Shaped(st.components) && Attached(st, sp) && Equipped(st.components, sp)
    requires !IsZero(Span(st.components, sp)) && Module(Span(st.components, sp), sqrt) == sp.originalDistance
    ensures Turn(st, e, sp, sqrt) == st
  {
    var c := st.components;
    var d := Span(c, sp);
    TensionSign(sp, d, sqrt);
    var s := c[Force];
    assert Fits(Force, s.vals[sp.entity1]) && Fits(Force, s.vals[sp.entity2]);
    AddScaledNeutral(AsVec(s.vals[sp.entity1]), d, 0.0);
    AddScaledNeutral(AsVec(s.vals[sp.entity2]), d, 0.0);
    assert s.Set(sp.entity1, s.vals[sp.entity1]) == s;
    assert Kick(s, sp.entity1, sp.entity2, d, 0.0) == s;
    assert c[Force := s] == c;
  }

  /** A turn keeps the sum of the forces over the force map's keys. */
  lemma {:induction false} TurnTotal(st: State, e: int, sp: SpringData, sqrt: real -> real)
    requires IsSqrt(sqrt) && Force in st.components && st.components[Force].Valid() && Attached(st, sp)
    ensures Force in Turn(st, e, sp, sqrt).components
    ensures Total(Turn(st, e, sp, sqrt).components[Force], st.components[Force].keys) == Total(st.components[Force], st.components[Force].keys)
  {
    var c := st.components;
    if Equipped(c, sp) && !IsZero(Span(c, sp)) {
      TurnPulls(st, e, sp, sqrt);
      KickTotal(c[Force], sp.entity1, sp.entity2, Span(c, sp), Tension(sp, Span(c, sp), sqrt));
    }
  }

  /*
    The whole loop.
   */

  /** `x` is not live and has no component. */
  predicate Gone(st: State, x: int)
  {
    x !in st.active && forall n :: n in st.components ==> x !in st.components[n].vals
  }

  /** A turn removes at most its own spring entity, and an entity once gone stays gone. */
  lemma {:induction false} TurnShrinks(st: State, e: int, sp: SpringData, sqrt: real -> real, x: int)
    requires IsSqrt(sqrt)
    ensures Turn(st, e, sp, sqrt).active <= st.active
    ensures st.active - Turn(st, e, sp, sqrt).active <= {e}
    ensures Gone(st, x) ==> Gone(Turn(st, e, sp, sqrt), x)
  {
    if !Attached(st, sp) {
      TurnRemoves(st, e, sp, sqrt);
    } else if Equipped(st.components, sp) && !IsZero(Span(st.components, sp)) && Gone(st, x) {
      TurnPulls(st, e, sp, sqrt);
      var r := Turn(st, e, sp, sqrt).components;
      assert x !in r[Force].vals;
      assert forall n :: n in r && n != Force ==> r[n] == st.components[n];
    }
  }

  /** The entities `Run` removes are spring entities it visited, and whatever it removes is gone for good. */
  lemma {:induction false} RunShrinks(st: State, springs: Store<Value>, keys: seq<int>, sqrt: real -> real, x: int)
    requires IsSqrt(sqrt)
    ensures Run(st, springs, keys, sqrt).active <= st.active
    ensures forall y :: y in st.active && y !in Run(st, springs, keys, sqrt).active ==> y in keys
    ensures Gone(st, x) ==> Gone(Run(st, springs, keys, sqrt), x)
  {
    if keys != [] {
      var init := keys[..|keys| - 1];
      var e := keys[|keys| - 1];
      RunShrinks(st, springs, init, sqrt, x);
      TurnShrinks(Run(st, springs, init, sqrt), e, AsSpring(At(springs, e)), sqrt, x);
    }
  }

  /** Every spring whose endpoint is dead at the start is gone after the loop. */
  lemma {:induction false} RunRemovesDead(st: State, springs: Store<Value>, keys: seq<int>, sqrt: real -> real, k: int)
    requires IsSqrt(sqrt) && k in keys && !Attached(st, AsSpring(At(springs, k)))
    ensures Gone(Run(st, springs, keys, sqrt), k)
  {
    var init := keys[..|keys| - 1];
    var e := keys[|keys| - 1];
    var mid := Run(st, springs, init, sqrt);
    RunShrinks(st, springs, init, sqrt, k);
    if e == k {
      TurnRemoves(mid, e, AsSpring(At(springs, e)), sqrt);
    } else {
      assert k in init;
      RunRemovesDead(st, springs, init, sqrt, k);
      TurnShrinks(mid, e, AsSpring(At(springs, e)), sqrt, k);
    }
  }

  /** The springs of `keys` all join live entities. */
  predicate AllAttached(st: State, springs: Store<Value>, keys: seq<int>)
  {
    forall k :: k in keys ==> Attached(st, AsSpring(At(springs, k)))
  }

  /**
    When every spring joins live entities nothing is removed and only forces
    change: the force map keeps its keys and order, and the sum of all
    forces is kept.
   */
  lemma {:induction false} RunConserves(st: State, springs: Store<Value>, keys: seq<int>, sqrt: real -> real)
    requires IsSqrt(sqrt) && Force in st.components && st.components[Force].Valid() && AllAttached(st, springs, keys)
    ensures Run(st, springs, keys, sqrt).active == st.active
    ensures Run(st, springs, keys, sqrt).components.Keys == st.components.Keys
    ensures forall n :: n in st.components && n != Force ==> Run(st, springs, keys, sqrt).components[n] == st.components[n]
    ensures Run(st, springs, keys, sqrt).components[Force].keys == st.components[Force].keys
    ensures Run(st, springs, keys, sqrt).components[Force].Valid()
    ensures Total(Run(st, springs, keys, sqrt).components[Force], st.components[Force].keys) == Total(st.components[Force], st.components[Force].keys)
  {
    if keys != [] {
      var init := keys[..|keys| - 1];
      var e := keys[|keys| - 1];
      var sp := AsSpring(At(springs, e));
      var mid := Run(st, springs, init, sqrt);
      assert AllAttached(st, springs, init);
      RunConserves(st, springs, init, sqrt);
      assert Attached(mid, sp);
      TurnKeeps(mid, e, sp, sqrt);
      TurnTotal(mid, e, sp, sqrt);
      if Equipped(mid.components, sp) && !IsZero(Span(mid.components, sp)) {
        TurnPulls(mid, e, sp, sqrt);
      }
    }
  }

  /**
    The loop reads each spring from the map as it was on entry: the turns
    before spring `keys[j]` remove only earlier spring entities, so the spring
    map still holds `keys[j]` with its value when its turn comes.
   */
  lemma {:induction false} RunKeepsLaterSprings(st: State, sqrt: real -> real, k: nat, j: nat)
    requires IsSqrt(sqrt) && Spring in st.components && st.components[Spring].Valid()
    requires k <= j < |st.components[Spring].keys|
    ensures var springs := st.components[Spring]; var r := Run(st, springs, springs.keys[..k], sqrt);
      Has(r.components, Spring, springs.keys[j]) && r.components[Spring].vals[springs.keys[j]] == springs.vals[springs.keys[j]]
  {
    var springs := st.components[Spring];
    var x := springs.keys[j];
    if k > 0 {
      var e := springs.keys[k - 1];
      assert springs.keys[..k][..k - 1] == springs.keys[..k - 1];
      RunKeepsLaterSprings(st, sqrt, k - 1, j);
      var mid := Run(st, springs, springs.keys[..k - 1], sqrt);
      var sp := AsSpring(At(springs, e));
      assert e != x;
      if !Attached(mid, sp) {
        TurnRemoves(mid, e, sp, sqrt);
        assert Get(Turn(mid, e, sp, sqrt).components, Spring, x) == Get(mid.components, Spring, x);
      } else {
        TurnKeeps(mid, e, sp, sqrt);
      }
    }
  }

  /*
    The method.
   */

  /** The loop body for the spring entity `e` holding `sp`, on the world. */
  method SpringTurn(w: World, e: int, sp: SpringData, sqrt: real -> real)
    requires w.Valid() && IsSqrt(sqrt) && Force in w.components && Position in w.components
    modifies w
    ensures w.Valid()
    ensures w.lastAssignedId == old(w.lastAssignedId) && w.currentTime == old(w.currentTime)
    ensures w.components.Keys == old(w.components).Keys
    ensures State(w.components, w.active) == Turn(State(old(w.components), old(w.active)), e, sp, sqrt)
  {
    ghost var st := State(w.components, w.active);
    if sp.entity1 !in w.active || sp.entity2 !in w.active {
      w.RemoveEntity(e);
      RemovedFacts(st.components, e);
      return;
    }
    var force := w.components[Force];
    var position := w.components[Position];
    if sp.entity1 !in force.vals || sp.entity2 !in force.vals {
      return;
    }
    if sp.entity1 !in position.vals || sp.entity2 !in position.vals {
      return;
    }
    var d := Sub(AsVec(position.vals[sp.entity2]), AsVec(position.vals[sp.entity1]));
    assert d == Span(st.components, sp);
    if IsZero(d) {
      return;
    }
    ModulePositive(d, sqrt);
    var distance := Module(d, sqrt);
    var forceModule := (-(sp.originalDistance - distance) * sp.k) / distance;
    assert forceModule == Tension(sp, d, sqrt);
    KickForces(w, sp.entity1, sp.entity2, d, forceModule);
    OthersEqual(w.components, st.components, Force, Kick(st.components[Force], sp.entity1, sp.entity2, d, forceModule));
  }

  /** One more turn extends the run by the next spring. */
  lemma RunStep(st: State, springs: Store<Value>, keys: seq<int>, k: nat, sqrt: real -> real)
    requires IsSqrt(sqrt) && k < |keys|
    ensures Run(st, springs, keys[..k + 1], sqrt) == Turn(Run(st, springs, keys[..k], sqrt), keys[k], AsSpring(At(springs, keys[k])), sqrt)
  {
    assert keys[..k + 1][..k] == keys[..k];
  }

  /** `Spring(world)`, with `sqrt` standing for `Math.sqrt`. */
  method ApplySprings(w: World, sqrt: real -> real)
    requires w.Valid() && IsSqrt(sqrt) && Spring in w.components && Force in w.components && Position in w.components
    modifies w
    ensures w.Valid()
    ensures w.lastAssignedId == old(w.lastAssignedId) && w.currentTime == old(w.currentTime)
    ensures State(w.components, w.active) == Sprung(State(old(w.components), old(w.active)), sqrt)
  {
    ghost var st0 := State(w.components, w.active);
    var springs := w.components[Spring];
    var keys := springs.keys;
    var k := 0;
    while k < |keys|
      invariant 0 <= k <= |keys|
      invariant w.Valid() && w.lastAssignedId == old(w.lastAssignedId) && w.currentTime == old(w.currentTime)
      invariant w.components.Keys == st0.components.Keys
      invariant State(w.components, w.active) == Run(st0, springs, keys[..k], sqrt)
    {
      var e := keys[k];
      var sp := AsSpring(At(springs, e));
      SpringTurn(w, e, sp, sqrt);
      RunStep(st0, springs, keys, k, sqrt);
      k := k + 1;
    }
    TakeAll(keys);
  }
}
