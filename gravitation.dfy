/**
  `Gravitation` (src/lib/systems/Gravitation.ts), also `Gravity` in the
  combined snapshots: for every pair of query rows `i < j` whose positions
  differ, both forces change by the attraction along `d = position2 -
  position1`, with equal and opposite changes.  `Math.sqrt` is the parameter
  `sqrt`; the module-level scratch vector `d` is a local value.
 */
module GravitationSystem {
  import opened Vector2
  import opened Store
  import opened Components
  import opened World
  import opened Updates
  import opened ForcePairs

  const Query: seq<Name> := [Mass, Force, Position]

  /** `GRAVITY_CONST`, 6.67e-11. */
  const GravityConst: real := 0.0000000000667

  /*
    The pairs the loops visit.
   */

  /** The pairs turn `i` of the outer loop visits before `j`: `(i, i + 1)`, ..., `(i, j - 1)`. */
  function InnerPairs(i: nat, j: nat): seq<(int, int)>
  {
    if j <= i + 1 then [] else InnerPairs(i, j - 1) + [(i, j - 1)]
  }

  /** The pairs the first `i` turns of the outer loop visit, over `n` rows. */
  function OuterPairs(n: nat, i: nat): seq<(int, int)>
  {
    if i == 0 then [] else OuterPairs(n, i - 1) + InnerPairs(i - 1, n)
  }

  /** Every pair is a pair of row indices, the first before the second. */
  predicate InRange(ps: seq<(int, int)>, n: nat)
  {
    forall k :: 0 <= k < |ps| ==> 0 <= ps[k].0 < ps[k].1 < n
  }

  predicate NoRepeats(ps: seq<(int, int)>)
  {
    forall k1, k2 :: 0 <= k1 < k2 < |ps| ==> ps[k1] != ps[k2]
  }

  lemma {:induction false} InnerPairsFacts(i: nat, j: nat)
    ensures forall p :: p in InnerPairs(i, j) <==> p.0 == i && i < p.1 < j
    ensures NoRepeats(InnerPairs(i, j))
  {
    if j > i + 1 {
      InnerPairsFacts(i, j - 1);
      var init := InnerPairs(i, j - 1);
      assert InnerPairs(i, j) == init + [(i, j - 1)];
      assert (i, j - 1) !in init;
      forall k1: int, k2: int | 0 <= k1 < k2 < |InnerPairs(i, j)| ensures InnerPairs(i, j)[k1] != InnerPairs(i, j)[k2] {
        if k2 == |init| {
          assert InnerPairs(i, j)[k1] in init;
        } else {
          assert InnerPairs(i, j)[k1] == init[k1] && InnerPairs(i, j)[k2] == init[k2];
        }
      }
    }
  }

  lemma {:induction false} OuterPairsFacts(n: nat, i: nat)
    ensures forall p :: p in OuterPairs(n, i) <==> 0 <= p.0 < i && p.0 < p.1 < n
    ensures NoRepeats(OuterPairs(n, i))
  {
    if i > 0 {
      OuterPairsFacts(n, i - 1);
      InnerPairsFacts(i - 1, n);
      var a := OuterPairs(n, i - 1);
      var b := InnerPairs(i - 1, n);
      var ab: seq<(int, int)> := a + b;
      assert OuterPairs(n, i) == ab;
      forall k1: int, k2: int | 0 <= k1 < k2 < |ab| ensures ab[k1] != ab[k2] {
        if k2 < |a| {
          assert ab[k1] == a[k1] && ab[k2] == a[k2];
        } else if k1 < |a| {
          assert ab[k1] == a[k1] && a[k1] in a;
          assert ab[k2] == b[k2 - |a|] && b[k2 - |a|] in b;
        } else {
          assert ab[k1] == b[k1 - |a|] && ab[k2] == b[k2 - |a|];
        }
      }
    }
  }

  /** The pairs of the whole run over `n` rows. */
  function AllPairs(n: nat): seq<(int, int)>
  {
    OuterPairs(n, n)
  }

  /**
    The loops visit each unordered pair of rows exactly once: every pair
    `i < j` of row indices occurs, no other pair and no pair twice; in
    particular no row meets itself, and with fewer than two rows nothing is
    visited.
   */
  lemma {:induction false} AllPairsExact(n: nat)
    ensures forall p :: p in AllPairs(n) <==> 0 <= p.0 < p.1 < n
    ensures NoRepeats(AllPairs(n))
    ensures InRange(AllPairs(n), n)
    ensures n < 2 ==> AllPairs(n) == []
  {
    OuterPairsFacts(n, n);
    assert forall k :: 0 <= k < |AllPairs(n)| ==> AllPairs(n)[k] in AllPairs(n);
    if n == 1 {
      assert InnerPairs(0, 1) == [];
    }
  }

  /** The outer loop stops at `n - 1`: its last turn would visit nothing. */
  lemma {:induction false} OuterLast(n: nat)
    ensures OuterPairs(n, if n == 0 then 0 else n - 1) == AllPairs(n)
  {
    if n >= 1 {
      assert InnerPairs(n - 1, n) == [];
    }
  }

  /*
    One pair.
   */

  /** `forceModule`: `G * m1 * m2 / moduleSquare(d) / module(d)`. */
  function Pull(m1: real, m2: real, d: Vec, sqrt: real -> real): real
    requires IsSqrt(sqrt) && !IsZero(d)
  {
    ModulePositive(d, sqrt);
    GravityConst * m1 * m2 / ModuleSquare(d) / Module(d, sqrt)
  }

  /** With positive masses the pull is positive, so body 1 moves toward body 2 and body 2 toward body 1. */
  lemma {:induction false} PullPositive(m1: real, m2: real, d: Vec, sqrt: real -> real)
    requires IsSqrt(sqrt) && !IsZero(d) && m1 > 0.0 && m2 > 0.0
    ensures Pull(m1, m2, d, sqrt) > 0.0
  {
    ModulePositive(d, sqrt);
    MulPos(GravityConst, m1);
    MulPos(GravityConst * m1, m2);
    DivPos(GravityConst * m1 * m2, ModuleSquare(d));
    DivPos(GravityConst * m1 * m2 / ModuleSquare(d), Module(d, sqrt));
  }

  /** `diff(position2, position1, d)` for the rows of pair `p`. */
  function Delta(rows: seq<Row>, p: (int, int)): Vec
    requires 0 <= p.0 < |rows| && 0 <= p.1 < |rows|
  {
    Sub(AsVec(Slot(rows[p.1], 2)), AsVec(Slot(rows[p.0], 2)))
  }

  /** The force map after the inner loop body for pair `p` of rows `[entity, mass, force, position]`. */
  function PairStep(s: Store<Value>, rows: seq<Row>, p: (int, int), sqrt: real -> real): Store<Value>
    requires IsSqrt(sqrt) && 0 <= p.0 < p.1 < |rows|
  {
    var d := Delta(rows, p);
    if IsZero(d) then s
    else Kick(s, rows[p.0].entity, rows[p.1].entity, d, Pull(AsMass(Slot(rows[p.0], 0)), AsMass(Slot(rows[p.1], 0)), d, sqrt))
  }

  /** `PairStep` for coordinates that differ is the kick by the pull. */
  lemma {:induction false} PairStepAt(s: Store<Value>, rows: seq<Row>, i: nat, j: nat, sqrt: real -> real, fm: real)
    requires IsSqrt(sqrt) && i < j < |rows| && !IsZero(Delta(rows, (i, j)))
    requires fm == Pull(AsMass(Slot(rows[i], 0)), AsMass(Slot(rows[j], 0)), Delta(rows, (i, j)), sqrt)
    ensures PairStep(s, rows, (i, j), sqrt) == Kick(s, rows[i].entity, rows[j].entity, Delta(rows, (i, j)), fm)
  {
  }

  /** The force map after the steps for the pairs `ps`, in order; the loops only visit pairs of row indices `i < j`. */
  function FoldPairs(s: Store<Value>, rows: seq<Row>, ps: seq<(int, int)>, sqrt: real -> real): Store<Value>
    requires IsSqrt(sqrt)
  {
    if ps == [] then s
    else
      var p := ps[|ps| - 1];
      var t := FoldPairs(s, rows, ps[..|ps| - 1], sqrt);
      if 0 <= p.0 < p.1 < |rows| then PairStep(t, rows, p, sqrt) else t
  }

  /** The components after `Gravitation(world)`. */
  function Gravitated(c: Holder, sqrt: real -> real): Holder
    requires IsSqrt(sqrt) && Force in c
  {
    var rows := Join(c, Query);
    c[Force := FoldPairs(c[Force], rows, AllPairs(|rows|), sqrt)]
  }

  /**
    A pair with coincident positions changes nothing.  Otherwise, for two
    different entities, force 1 gains `d * forceModule` and force 2 gains
    `d * -forceModule`; no other entry and no key changes.
   */
  lemma {:induction false} PairStepFacts(s: Store<Value>, rows: seq<Row>, p: (int, int), sqrt: real -> real)
    requires IsSqrt(sqrt) && 0 <= p.0 < p.1 < |rows|
    requires rows[p.0].entity != rows[p.1].entity
    ensures var d := Delta(rows, p); IsZero(d) ==> PairStep(s, rows, p, sqrt) == s
    ensures var d := Delta(rows, p); var e1 := rows[p.0].entity; var e2 := rows[p.1].entity;
      !IsZero(d) ==>
        var fm := Pull(AsMass(Slot(rows[p.0], 0)), AsMass(Slot(rows[p.1], 0)), d, sqrt);
        var r := PairStep(s, rows, p, sqrt);
        && r.vals[e1] == VecVal(Add(AsVec(At(s, e1)), Scale(d, fm)))
        && r.vals[e2] == VecVal(Add(AsVec(At(s, e2)), Neg(Scale(d, fm))))
    ensures forall e :: e != rows[p.0].entity && e != rows[p.1].entity ==> At(PairStep(s, rows, p, sqrt), e) == At(s, e)
    ensures rows[p.0].entity in s.vals && rows[p.1].entity in s.vals ==>
      PairStep(s, rows, p, sqrt).keys == s.keys && PairStep(s, rows, p, sqrt).vals.Keys == s.vals.Keys
  {
    var d := Delta(rows, p);
    if !IsZero(d) {
      var fm := Pull(AsMass(Slot(rows[p.0], 0)), AsMass(Slot(rows[p.1], 0)), d, sqrt);
      KickFacts(s, rows[p.0].entity, rows[p.1].entity, d, fm);
    }
  }

  /** A pair step leaves the total over the keys of the map unchanged. */
  lemma {:induction false} PairStepTotal(s: Store<Value>, rows: seq<Row>, p: (int, int), sqrt: real -> real)
    requires IsSqrt(sqrt) && 0 <= p.0 < p.1 < |rows| && s.Valid()
    requires rows[p.0].entity != rows[p.1].entity
    requires rows[p.0].entity in s.vals && rows[p.1].entity in s.vals
    ensures Total(PairStep(s, rows, p, sqrt), s.keys) == Total(s, s.keys)
  {
    var d := Delta(rows, p);
    if !IsZero(d) {
      KickTotal(s, rows[p.0].entity, rows[p.1].entity, d, Pull(AsMass(Slot(rows[p.0], 0)), AsMass(Slot(rows[p.1], 0)), d, sqrt));
    }
  }

  /** The steps for any pairs of the rows keep the keys of the map, and the entries of entities outside the rows. */
  lemma {:induction false} FoldPairsFrame(s: Store<Value>, rows: seq<Row>, ps: seq<(int, int)>, sqrt: real -> real)
    requires IsSqrt(sqrt)
    requires Distinct(Entities(rows))
    requires forall k :: 0 <= k < |rows| ==> rows[k].entity in s.vals
    ensures FoldPairs(s, rows, ps, sqrt).keys == s.keys && FoldPairs(s, rows, ps, sqrt).vals.Keys == s.vals.Keys
    ensures forall e :: e !in Entities(rows) ==> At(FoldPairs(s, rows, ps, sqrt), e) == At(s, e)
  {
    if ps != [] {
      var init := ps[..|ps| - 1];
      var p := ps[|ps| - 1];
      FoldPairsFrame(s, rows, init, sqrt);
      if 0 <= p.0 < p.1 < |rows| {
        assert Entities(rows)[p.0] != Entities(rows)[p.1];
        PairStepFacts(FoldPairs(s, rows, init, sqrt), rows, p, sqrt);
      }
    }
  }

  /** One more pair step after steps that kept the total keeps it too. */
  lemma {:induction false} FoldStepTotal(s: Store<Value>, rows: seq<Row>, ps: seq<(int, int)>, p: (int, int), sqrt: real -> real)
    requires IsSqrt(sqrt) && s.Valid() && 0 <= p.0 < p.1 < |rows|
    requires Distinct(Entities(rows))
    requires forall k :: 0 <= k < |rows| ==> rows[k].entity in s.vals
    requires Total(FoldPairs(s, rows, ps, sqrt), s.keys) == Total(s, s.keys)
    ensures Total(PairStep(FoldPairs(s, rows, ps, sqrt), rows, p, sqrt), s.keys) == Total(s, s.keys)
  {
    FoldPairsFrame(s, rows, ps, sqrt);
    var t := FoldPairs(s, rows, ps, sqrt);
    assert Entities(rows)[p.0] != Entities(rows)[p.1];
    assert t.Valid();
    PairStepTotal(t, rows, p, sqrt);
  }

  /** One more pair after pairs whose steps kept the total: its step keeps it too. */
  lemma {:induction false} FoldLastTotal(s: Store<Value>, rows: seq<Row>, ps: seq<(int, int)>, sqrt: real -> real)
    requires IsSqrt(sqrt) && s.Valid() && ps != []
    requires Distinct(Entities(rows))
    requires forall k :: 0 <= k < |rows| ==> rows[k].entity in s.vals
    requires Total(FoldPairs(s, rows, ps[..|ps| - 1], sqrt), s.keys) == Total(s, s.keys)
    ensures Total(FoldPairs(s, rows, ps, sqrt), s.keys) == Total(s, s.keys)
  {
    var init := ps[..|ps| - 1];
    var p := ps[|ps| - 1];
    var t := FoldPairs(s, rows, init, sqrt);
    if 0 <= p.0 < p.1 < |rows| {
      FoldStepTotal(s, rows, init, p, sqrt);
      assert FoldPairs(s, rows, ps, sqrt) == PairStep(t, rows, p, sqrt);
    } else {
      assert FoldPairs(s, rows, ps, sqrt) == t;
    }
  }

  /** The steps for any pairs of the rows keep the total of the map. */
  lemma {:induction false} FoldPairsTotal(s: Store<Value>, rows: seq<Row>, ps: seq<(int, int)>, sqrt: real -> real)
    requires IsSqrt(sqrt) && s.Valid()
    requires Distinct(Entities(rows))
    requires forall k :: 0 <= k < |rows| ==> rows[k].entity in s.vals
    ensures Total(FoldPairs(s, rows, ps, sqrt), s.keys) == Total(s, s.keys)
  {
    if ps != [] {
      FoldPairsTotal(s, rows, ps[..|ps| - 1], sqrt);
      FoldLastTotal(s, rows, ps, sqrt);
    }
  }

  /**
    `Gravitation` keeps the sum of all forces, changes only the forces of
    queried entities, keeps the keys and order of the force map and every
    other map, positions and masses included; with fewer than two query rows
    nothing changes.
   */
  lemma {:induction false} GravitatedFacts(c: Holder, sqrt: real -> real)
    requires IsSqrt(sqrt) && StoresValid(c) && Force in c
    ensures Total(Gravitated(c, sqrt)[Force], c[Force].keys) == Total(c[Force], c[Force].keys)
    ensures Gravitated(c, sqrt)[Force].keys == c[Force].keys
    ensures forall e :: e !in Entities(Join(c, Query)) ==> At(Gravitated(c, sqrt)[Force], e) == At(c[Force], e)
    ensures forall n :: n in c && n != Force ==> Gravitated(c, sqrt)[n] == c[n]
    ensures Gravitated(c, sqrt).Keys == c.Keys
    ensures |Join(c, Query)| < 2 ==> Gravitated(c, sqrt)[Force] == c[Force]
  {
    var rows := Join(c, Query);
    AllPairsExact(|rows|);
    JoinFacts(c, Query);
    JoinHas(c, Query, 1);
    FoldPairsFrame(c[Force], rows, AllPairs(|rows|), sqrt);
    FoldPairsTotal(c[Force], rows, AllPairs(|rows|), sqrt);
  }

  /*
    The loops.
   */

  /** The pairs visited before turn `(i, j)` of the inner loop. */
  function Before(n: nat, i: nat, j: nat): seq<(int, int)>
  {
    OuterPairs(n, i) + InnerPairs(i, j)
  }

  /** The inner loop of turn `i` starts after the pairs of the earlier turns and ends with those of turn `i`. */
  lemma {:induction false} BeforeEnds(n: nat, i: nat)
    ensures Before(n, i, i + 1) == OuterPairs(n, i)
    ensures Before(n, i, n) == OuterPairs(n, i + 1)
  {
    assert InnerPairs(i, i + 1) == [];
  }

  /** The components `c` differ from `c0` only in the force map, which is `c0`'s after the steps for `ps`. */
  ghost predicate Folded(c: Holder, c0: Holder, rows: seq<Row>, ps: seq<(int, int)>, sqrt: real -> real)
  {
    IsSqrt(sqrt) && Force in c0 && Others(c, c0, Force) && c[Force] == FoldPairs(c0[Force], rows, ps, sqrt)
  }

  /** One more turn of the inner loop appends its pair. */
  lemma {:induction false} BeforeStep(n: nat, i: nat, j: nat, done: seq<(int, int)>)
    requires i < j && done == Before(n, i, j)
    ensures done + [(i, j)] == Before(n, i, j + 1)
  {
    assert InnerPairs(i, j + 1) == InnerPairs(i, j) + [(i, j)];
  }

  lemma {:induction false} FoldedStep(c: Holder, c0: Holder, rows: seq<Row>, i: nat, j: nat, sqrt: real -> real)
    requires i < j && Folded(c, c0, rows, Before(|rows|, i, j) + [(i, j)], sqrt)
    ensures Folded(c, c0, rows, Before(|rows|, i, j + 1), sqrt)
  {
    BeforeStep(|rows|, i, j, Before(|rows|, i, j));
  }

  /** One turn of the inner loop: the body for the pair `(i, j)`, on the force map of the world. */
  method PairTurn(w: World, rows: seq<Row>, i: nat, j: nat, sqrt: real -> real, ghost c0: Holder, ghost done: seq<(int, int)>)
    requires w.Valid() && Force in c0 && IsSqrt(sqrt) && i < j < |rows|
    requires rows[i].entity in w.active && rows[j].entity in w.active
    requires Folded(w.components, c0, rows, done, sqrt)
    modifies w
    ensures w.Valid()
    ensures w.lastAssignedId == old(w.lastAssignedId) && w.active == old(w.active) && w.currentTime == old(w.currentTime)
    ensures Folded(w.components, c0, rows, done + [(i, j)], sqrt)
  {
    ghost var s0 := w.components[Force];
    var row1 := rows[i];
    var row2 := rows[j];
    var d := Sub(AsVec(Slot(row2, 2)), AsVec(Slot(row1, 2)));
    assert d == Delta(rows, (i, j));
    if !IsZero(d) {
      var forceModule := Pull(AsMass(Slot(row1, 0)), AsMass(Slot(row2, 0)), d, sqrt);
      KickForces(w, row1.entity, row2.entity, d, forceModule);
      PairStepAt(s0, rows, i, j, sqrt, forceModule);
    } else {
      assert PairStep(s0, rows, (i, j), sqrt) == s0;
    }
    assert (done + [(i, j)])[..|done|] == done;
  }

  /** The turn for the pair `(i, j)` extends the fold of the inner loop by that pair. */
  method InnerStep(w: World, rows: seq<Row>, i: nat, j: nat, sqrt: real -> real, ghost c0: Holder)
    requires w.Valid() && Force in c0 && IsSqrt(sqrt) && i < j < |rows|
    requires rows[i].entity in w.active && rows[j].entity in w.active
    requires Folded(w.components, c0, rows, Before(|rows|, i, j), sqrt)
    modifies w
    ensures w.Valid()
    ensures w.lastAssignedId == old(w.lastAssignedId) && w.active == old(w.active) && w.currentTime == old(w.currentTime)
    ensures Folded(w.components, c0, rows, Before(|rows|, i, j + 1), sqrt)
  {
    PairTurn(w, rows, i, j, sqrt, c0, Before(|rows|, i, j));
    FoldedStep(w.components, c0, rows, i, j, sqrt);
  }

  /** The inner loop of turn `i`: the pairs `(i, i + 1)`, ..., `(i, n - 1)`. */
  method InnerLoop(w: World, rows: seq<Row>, i: nat, sqrt: real -> real, ghost c0: Holder)
    requires w.Valid() && Force in c0 && IsSqrt(sqrt) && i < |rows|
    requires forall k :: 0 <= k < |rows| ==> rows[k].entity in w.active
    requires Folded(w.components, c0, rows, Before(|rows|, i, i + 1), sqrt)
    modifies w
    ensures w.Valid()
    ensures w.lastAssignedId == old(w.lastAssignedId) && w.active == old(w.active) && w.currentTime == old(w.currentTime)
    ensures Folded(w.components, c0, rows, Before(|rows|, i, |rows|), sqrt)
  {
    for j := i + 1 to |rows|
      invariant w.Valid()
      invariant w.lastAssignedId == old(w.lastAssignedId) && w.active == old(w.active) && w.currentTime == old(w.currentTime)
      invariant Folded(w.components, c0, rows, Before(|rows|, i, j), sqrt)
    {
      InnerStep(w, rows, i, j, sqrt, c0);
    }
  }

  lemma {:induction false} GravitatedEnd(c0: Holder, c: Holder, sqrt: real -> real)
    requires Folded(c, c0, Join(c0, Query), OuterPairs(|Join(c0, Query)|, if |Join(c0, Query)| == 0 then 0 else |Join(c0, Query)| - 1), sqrt)
    ensures c == Gravitated(c0, sqrt)
  {
    var rows := Join(c0, Query);
    OuterLast(|rows|);
    var s := FoldPairs(c0[Force], rows, AllPairs(|rows|), sqrt);
    assert c[Force] == s;
    OthersEqual(c, c0, Force, s);
  }

  /** `Gravitation(world)`. */
  method Gravitation(w: World, sqrt: real -> real)
    requires w.Valid() && Force in w.components && Position in w.components && IsSqrt(sqrt)
    modifies w
    ensures w.Valid()
    ensures w.components == Gravitated(old(w.components), sqrt)
    ensures w.lastAssignedId == old(w.lastAssignedId) && w.active == old(w.active) && w.currentTime == old(w.currentTime)
  {
    ghost var c0 := w.components;
    var entities := w.EntitiesWithComponents(Query);
    JoinLive(c0, w.active, w.lastAssignedId, Query);
    var i := 0;
    while i < |entities| - 1
      invariant 0 <= i <= if |entities| == 0 then 0 else |entities| - 1
      invariant w.Valid()
      invariant w.lastAssignedId == old(w.lastAssignedId) && w.active == old(w.active) && w.currentTime == old(w.currentTime)
      invariant Folded(w.components, c0, entities, OuterPairs(|entities|, i), sqrt)
    {
      BeforeEnds(|entities|, i);
      InnerLoop(w, entities, i, sqrt, c0);
      i := i + 1;
    }
    assert i == if |entities| == 0 then 0 else |entities| - 1;
    GravitatedEnd(c0, w.components, sqrt);
  }
}
