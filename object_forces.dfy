/**
  The pair systems of the old object-based snapshot (systems.ts):
  `GravityForceSystem` over every pair `i < j` of the entity array, and
  `JointSystem` over every entity carrying a joint.  Both add a vector
  `(fx, fy)` to one entity's force and subtract it from the other's.  Only
  force values change, so the sum of all forces is kept.
 */
module ObjectForces {
  import opened Vector2
  import opened Updates
  import opened ObjectSystems
  import GravitationSystem

  const GravityConst: real := 0.0000667

  /*
    What the pair systems change.
   */

  /** `b` is `c` but for the value of its force, and has a force exactly when `c` has. */
  predicate Like(b: Body, c: Body)
  {
    b == c.(force := b.force) && (b.force.Some? <==> c.force.Some?)
  }

  /** The two arrays differ only in force values. */
  predicate Alike(s: seq<Body>, t: seq<Body>)
  {
    |s| == |t| && forall k :: 0 <= k < |s| ==> Like(t[k], s[k])
  }

  lemma {:induction false} AlikeTrans(s: seq<Body>, t: seq<Body>, u: seq<Body>)
    requires Alike(s, t) && Alike(t, u)
    ensures Alike(s, u)
  {
    forall k | 0 <= k < |s|
      ensures Like(u[k], s[k])
    {
      assert Like(t[k], s[k]) && Like(u[k], t[k]);
    }
  }

  /** `e1.force.x += v.x; e1.force.y += v.y`. */
  function AddForce(b: Body, v: Vec): Body
    requires b.force.Some?
  {
    b.(force := Some(Vec(b.force.value.x + v.x, b.force.value.y + v.y)))
  }

  /** `e2.force.x -= v.x; e2.force.y -= v.y`. */
  function SubForce(b: Body, v: Vec): Body
    requires b.force.Some?
  {
    b.(force := Some(Vec(b.force.value.x - v.x, b.force.value.y - v.y)))
  }

  /** Entity `i` gains `v` in force, then entity `j` loses `v`. */
  function Shove(s: seq<Body>, i: nat, j: nat, v: Vec): (r: seq<Body>)
    requires i < |s| && j < |s| && s[i].force.Some? && s[j].force.Some?
    ensures Alike(s, r)
  {
    var t := s[i := AddForce(s[i], v)];
    t[j := SubForce(t[j], v)]
  }

  /** A force, or `(0, 0)` for an entity without one. */
  function ForceOf(b: Body): Vec
  {
    if b.force.Some? then b.force.value else Zero
  }

  /** The sum of the forces of the array. */
  function TotalForce(s: seq<Body>): Vec
  {
    if s == [] then Zero else Add(TotalForce(s[..|s| - 1]), ForceOf(s[|s| - 1]))
  }

  /** Replacing one entity moves the total by the change of its force. */
  lemma {:induction false} TotalForceUpdate(s: seq<Body>, i: nat, b: Body)
    requires i < |s|
    ensures TotalForce(s[i := b]) == Add(Sub(TotalForce(s), ForceOf(s[i])), ForceOf(b))
  {
    var t := s[i := b];
    var n := |s| - 1;
    assert TotalForce(t) == Add(TotalForce(t[..n]), ForceOf(t[n]));
    assert TotalForce(s) == Add(TotalForce(s[..n]), ForceOf(s[n]));
    if i == n {
      assert t[..n] == s[..n];
    } else {
      assert t[..n] == s[..n][i := b] && t[n] == s[n];
      TotalForceUpdate(s[..n], i, b);
      assert s[..n][i] == s[i];
    }
  }

  /**
    For two different entities the first gains exactly `v` and the second
    loses exactly `v`; no other entity changes, and the total force is kept.
   */
  lemma {:induction false} ShoveFacts(s: seq<Body>, i: nat, j: nat, v: Vec)
    requires i < |s| && j < |s| && s[i].force.Some? && s[j].force.Some? && i != j
    ensures Shove(s, i, j, v)[i].force == Some(Add(s[i].force.value, v))
    ensures Shove(s, i, j, v)[j].force == Some(Sub(s[j].force.value, v))
    ensures forall k :: 0 <= k < |s| && k != i && k != j ==> Shove(s, i, j, v)[k] == s[k]
    ensures TotalForce(Shove(s, i, j, v)) == TotalForce(s)
  {
    var t := s[i := AddForce(s[i], v)];
    TotalForceUpdate(s, i, AddForce(s[i], v));
    TotalForceUpdate(t, j, SubForce(t[j], v));
  }

  /*
    `GravityForceSystem`.
   */

  /** The entity has a mass, a position and a force. */
  predicate Full(b: Body)
  {
    b.mass.Some? && b.position.Some? && b.force.Some?
  }

  /** `(e2.position - e1.position)`: the `(dx, dy)` of a pair. */
  function Gap(b1: Body, b2: Body): Vec
    requires b1.position.Some? && b2.position.Some?
  {
    Sub(b2.position.value, b1.position.value)
  }

  /** `(fx, fy)` for a pair `d = (dx, dy)` apart: `G * m1 * m2 / r2` along `d / r`. */
  function Attraction(m1: real, m2: real, d: Vec, sqrt: real -> real): Vec
    requires IsSqrt(sqrt) && !IsZero(d)
  {
    ModulePositive(d, sqrt);
    var r := Module(d, sqrt);
    var force := GravityConst * m1 * m2 / ModuleSquare(d);
    Vec(force * (d.x / r), force * (d.y / r))
  }

  /** The inner loop body for the pair `p`: skipped unless both entities are full and apart. */
  function GravityStep(s: seq<Body>, p: (int, int), sqrt: real -> real): (r: seq<Body>)
    requires IsSqrt(sqrt)
    ensures |r| == |s|
  {
    if !(0 <= p.0 < |s| && 0 <= p.1 < |s|) || !Full(s[p.0]) || !Full(s[p.1]) then s
    else
      var d := Gap(s[p.0], s[p.1]);
      if ModuleSquare(d) == 0.0 then s
      else Shove(s, p.0, p.1, Attraction(s[p.0].mass.value, s[p.1].mass.value, d, sqrt))
  }

  /** The array after the inner loop bodies for the pairs `ps`, in order. */
  function Gravitated(s: seq<Body>, ps: seq<(int, int)>, sqrt: real -> real): (r: seq<Body>)
    requires IsSqrt(sqrt)
    ensures |r| == |s|
  {
    if ps == [] then s
    else GravityStep(Gravitated(s, ps[..|ps| - 1], sqrt), ps[|ps| - 1], sqrt)
  }

  /** One step changes force values only. */
  lemma GravityStepAlike(s: seq<Body>, p: (int, int), sqrt: real -> real)
    requires IsSqrt(sqrt)
    ensures Alike(s, GravityStep(s, p, sqrt))
  {
  }

  /** The whole run changes force values only. */
  lemma {:induction false} GravitatedAlike(s: seq<Body>, ps: seq<(int, int)>, sqrt: real -> real)
    requires IsSqrt(sqrt)
    ensures Alike(s, Gravitated(s, ps, sqrt))
  {
    if ps != [] {
      var t := Gravitated(s, ps[..|ps| - 1], sqrt);
      GravitatedAlike(s, ps[..|ps| - 1], sqrt);
      GravityStepAlike(t, ps[|ps| - 1], sqrt);
      AlikeTrans(s, t, GravityStep(t, ps[|ps| - 1], sqrt));
    }
  }

  /** With positive masses the attraction points along `d`: entity 1 is pulled toward entity 2. */
  lemma {:induction false} AttractionToward(m1: real, m2: real, d: Vec, sqrt: real -> real)
    requires IsSqrt(sqrt) && !IsZero(d) && m1 > 0.0 && m2 > 0.0
    ensures exists c: real :: c > 0.0 && Attraction(m1, m2, d, sqrt) == Scale(d, c)
  {
    ModulePositive(d, sqrt);
    var r := Module(d, sqrt);
    var force := GravityConst * m1 * m2 / ModuleSquare(d);
    MulPos(GravityConst, m1);
    MulPos(GravityConst * m1, m2);
    DivPos(GravityConst * m1 * m2, ModuleSquare(d));
    DivPos(force, r);
    var c := force / r;
    assert force * (d.x / r) == d.x * c && force * (d.y / r) == d.y * c;
    assert Attraction(m1, m2, d, sqrt) == Scale(d, c);
  }

  /**
    A pair lacking a mass, a position or a force, or with coincident
    positions, changes nothing; otherwise entity `i` gains the attraction
    and entity `j` loses it, and the total force is kept.
   */
  lemma {:induction false} GravityStepFacts(s: seq<Body>, i: nat, j: nat, sqrt: real -> real)
    requires IsSqrt(sqrt) && i < j < |s|
    ensures !Full(s[i]) || !Full(s[j]) ==> GravityStep(s, (i, j), sqrt) == s
    ensures Full(s[i]) && Full(s[j]) && IsZero(Gap(s[i], s[j])) ==> GravityStep(s, (i, j), sqrt) == s
    ensures Full(s[i]) && Full(s[j]) && !IsZero(Gap(s[i], s[j])) ==>
      var v := Attraction(s[i].mass.value, s[j].mass.value, Gap(s[i], s[j]), sqrt);
      && GravityStep(s, (i, j), sqrt)[i].force == Some(Add(s[i].force.value, v))
      && GravityStep(s, (i, j), sqrt)[j].force == Some(Sub(s[j].force.value, v))
    ensures TotalForce(GravityStep(s, (i, j), sqrt)) == TotalForce(s)
  {
    if Full(s[i]) && Full(s[j]) && !IsZero(Gap(s[i], s[j])) {
      ShoveFacts(s, i, j, Attraction(s[i].mass.value, s[j].mass.value, Gap(s[i], s[j]), sqrt));
    }
  }

  /** The whole run keeps the total force. */
  lemma {:induction false} GravitatedTotal(s: seq<Body>, ps: seq<(int, int)>, sqrt: real -> real)
    requires IsSqrt(sqrt) && GravitationSystem.InRange(ps, |s|)
    ensures TotalForce(Gravitated(s, ps, sqrt)) == TotalForce(s)
  {
    if ps != [] {
      var init := ps[..|ps| - 1];
      var p := ps[|ps| - 1];
      assert GravitationSystem.InRange(init, |s|);
      GravitatedTotal(s, init, sqrt);
      var t := Gravitated(s, init, sqrt);
      GravityStepFacts(t, p.0, p.1, sqrt);
    }
  }

  /** Running the pairs `ps + qs` is running `ps`, then `qs`. */
  lemma {:induction false} GravitatedAppend(s: seq<Body>, ps: seq<(int, int)>, qs: seq<(int, int)>, sqrt: real -> real)
    requires IsSqrt(sqrt)
    ensures Gravitated(s, ps + qs, sqrt) == Gravitated(Gravitated(s, ps, sqrt), qs, sqrt)
  {
    if qs == [] {
      assert ps + qs == ps;
    } else {
      var init := qs[..|qs| - 1];
      GravitatedAppend(s, ps, init, sqrt);
      assert (ps + qs)[..|ps + qs| - 1] == ps + init;
    }
  }

  /** The array after the first `i` turns of the outer loop over `n` rows, one turn at a time. */
  function Turns(s: seq<Body>, n: nat, i: nat, sqrt: real -> real): seq<Body>
    requires IsSqrt(sqrt)
  {
    if i == 0 then s else Gravitated(Turns(s, n, i - 1, sqrt), GravitationSystem.InnerPairs(i - 1, n), sqrt)
  }

  /** Turn by turn is the same as the pairs of the first `i` turns in one run. */
  lemma {:induction false} TurnsAreGravitated(s: seq<Body>, n: nat, i: nat, sqrt: real -> real)
    requires IsSqrt(sqrt)
    ensures Turns(s, n, i, sqrt) == Gravitated(s, GravitationSystem.OuterPairs(n, i), sqrt)
  {
    if i > 0 {
      TurnsAreGravitated(s, n, i - 1, sqrt);
      GravitatedAppend(s, GravitationSystem.OuterPairs(n, i - 1), GravitationSystem.InnerPairs(i - 1, n), sqrt);
    }
  }

  /** The outer loop stops after `n - 1` turns, which visit all pairs. */
  lemma TurnsEnd(s: seq<Body>, n: nat, i: nat, sqrt: real -> real)
    requires IsSqrt(sqrt) && (i == 0 || i < n) && !(i + 1 < n)
    ensures Turns(s, n, i, sqrt) == Gravitated(s, GravitationSystem.AllPairs(n), sqrt)
  {
    TurnsAreGravitated(s, n, i, sqrt);
    GravitationSystem.OuterLast(n);
    assert GravitationSystem.OuterPairs(n, i) == GravitationSystem.AllPairs(n);
  }

  /** The pairs of a turn `i` whose entity is not full change nothing. */
  lemma {:induction false} SkipRow(t: seq<Body>, i: nat, j: nat, sqrt: real -> real)
    requires IsSqrt(sqrt) && i < |t| && j <= |t| && !Full(t[i])
    ensures Gravitated(t, GravitationSystem.InnerPairs(i, j), sqrt) == t
  {
    if j > i + 1 {
      SkipRow(t, i, j - 1, sqrt);
      GravitatedSnoc(t, GravitationSystem.InnerPairs(i, j - 1), (i, j - 1), sqrt);
      GravityStepFacts(t, i, j - 1, sqrt);
    }
  }

  /** One more pair is one more step. */
  lemma GravitatedSnoc(s: seq<Body>, ps: seq<(int, int)>, p: (int, int), sqrt: real -> real)
    requires IsSqrt(sqrt)
    ensures Gravitated(s, ps + [p], sqrt) == GravityStep(Gravitated(s, ps, sqrt), p, sqrt)
  {
    assert (ps + [p])[..|ps|] == ps;
  }

  /** The inner loop body for the pair `(i, j)` on the array. */
  method GravityTurn(a: array<Body>, i: nat, j: nat, sqrt: real -> real)
    requires IsSqrt(sqrt) && i < j < a.Length && Full(a[i])
    modifies a
    ensures a[..] == GravityStep(old(a[..]), (i, j), sqrt)
  {
    var e1 := a[i];
    var e2 := a[j];
    if !Full(e2) {
      return;
    }
    var d := Sub(e2.position.value, e1.position.value);
    var r2 := ModuleSquare(d);
    if r2 == 0.0 {
      return;
    }
    ModulePositive(d, sqrt);
    var r := Module(d, sqrt);
    var force := GravityConst * e1.mass.value * e2.mass.value / r2;
    var fx := force * (d.x / r);
    var fy := force * (d.y / r);
    ghost var s := a[..];
    assert Vec(fx, fy) == Attraction(e1.mass.value, e2.mass.value, d, sqrt);
    a[i] := AddForce(a[i], Vec(fx, fy));
    a[j] := SubForce(a[j], Vec(fx, fy));
    assert a[..] == Shove(s, i, j, Vec(fx, fy));
  }

  /** One turn of the inner loop extends the run by its pair and keeps entity `i` full. */
  lemma RowStep(t: seq<Body>, i: nat, j: nat, before: seq<Body>, after: seq<Body>, sqrt: real -> real)
    requires IsSqrt(sqrt) && i < j && i < |before| && Full(before[i])
    requires before == Gravitated(t, GravitationSystem.InnerPairs(i, j), sqrt)
    requires after == GravityStep(before, (i, j), sqrt)
    ensures after == Gravitated(t, GravitationSystem.InnerPairs(i, j + 1), sqrt)
    ensures i < |after| && Full(after[i])
  {
    assert GravitationSystem.InnerPairs(i, j + 1) == GravitationSystem.InnerPairs(i, j) + [(i, j)];
    GravitatedSnoc(t, GravitationSystem.InnerPairs(i, j), (i, j), sqrt);
    GravityStepAlike(before, (i, j), sqrt);
    assert Like(after[i], before[i]);
  }

  /** One turn of the inner loop on the array: the run of turn `i` reaches the pair `(i, j)`. */
  method GravityRowTurn(a: array<Body>, i: nat, j: nat, sqrt: real -> real, ghost t: seq<Body>)
    requires IsSqrt(sqrt) && i < j < a.Length && Full(a[i])
    requires a[..] == Gravitated(t, GravitationSystem.InnerPairs(i, j), sqrt)
    modifies a
    ensures a[..] == Gravitated(t, GravitationSystem.InnerPairs(i, j + 1), sqrt)
    ensures Full(a[i])
  {
    ghost var before := a[..];
    GravityTurn(a, i, j, sqrt);
    RowStep(t, i, j, before, a[..], sqrt);
  }

  /** The inner loop of turn `i`, for an entity `i` with a mass, a position and a force. */
  method GravityRow(a: array<Body>, i: nat, sqrt: real -> real)
    requires IsSqrt(sqrt) && i < a.Length && Full(a[i])
    modifies a
    ensures a[..] == Gravitated(old(a[..]), GravitationSystem.InnerPairs(i, a.Length), sqrt)
  {
    ghost var t := a[..];
    var n := a.Length;
    var j := i + 1;
    while j < n
      invariant i + 1 <= j <= n
      invariant a[..] == Gravitated(t, GravitationSystem.InnerPairs(i, j), sqrt)
      invariant Full(a[i])
    {
      GravityRowTurn(a, i, j, sqrt, t);
      j := j + 1;
    }
  }

  /** Turn `i` of the outer loop. */
  method GravityOuterTurn(a: array<Body>, i: nat, sqrt: real -> real, ghost s0: seq<Body>)
    requires IsSqrt(sqrt) && i < a.Length && a[..] == Turns(s0, a.Length, i, sqrt)
    modifies a
    ensures a[..] == Turns(s0, a.Length, i + 1, sqrt)
  {
    if !Full(a[i]) {
      SkipRow(a[..], i, a.Length, sqrt);
    } else {
      GravityRow(a, i, sqrt);
    }
  }

  /** `GravityForceSystem`, with `sqrt` standing for `** 0.5`. */
  method GravityForceSystem(a: array<Body>, sqrt: real -> real)
    requires IsSqrt(sqrt)
    modifies a
    ensures a[..] == Gravitated(old(a[..]), GravitationSystem.AllPairs(a.Length), sqrt)
  {
    ghost var s0 := a[..];
    var n := a.Length;
    var i := 0;
    while i + 1 < n
      invariant i == 0 || i < n
      invariant a[..] == Turns(s0, n, i, sqrt)
    {
      GravityOuterTurn(a, i, sqrt, s0);
      i := i + 1;
    }
    TurnsEnd(s0, n, i, sqrt);
  }

  /*
    `JointSystem`.
   */

  /** The entity has a position and a force. */
  predicate Equipped(b: Body)
  {
    b.position.Some? && b.force.Some?
  }

  /** Coincident equipped endpoints come with an `originalDistance` of zero. */
  predicate JointSound(jt: Joint, b1: Body, b2: Body)
  {
    Equipped(b1) && Equipped(b2) && IsZero(Gap(b1, b2)) ==> jt.originalDistance == 0.0
  }

  /**
    The joint of entity `k`, if any, names two entities of the array, and
    when they coincide its `originalDistance` is zero, so the loop body skips
    it instead of dividing by a zero `r`.
   */
  predicate Sound(s: seq<Body>, k: nat)
  {
    k < |s| &&
    (s[k].joint.Some? ==>
      var jt := s[k].joint.value;
      jt.entity1 < |s| && jt.entity2 < |s| && JointSound(jt, s[jt.entity1], s[jt.entity2]))
  }

  /** Equipped endpoints whose squared distance is not `originalDistance²` are apart. */
  lemma Apart(jt: Joint, b1: Body, b2: Body)
    requires Equipped(b1) && Equipped(b2) && JointSound(jt, b1, b2)
    requires ModuleSquare(Gap(b1, b2)) != jt.originalDistance * jt.originalDistance
    ensures !IsZero(Gap(b1, b2))
  {
  }

  predicate AllSound(s: seq<Body>)
  {
    forall k :: 0 <= k < |s| ==> Sound(s, k)
  }

  lemma {:induction false} SoundAlike(s: seq<Body>, t: seq<Body>)
    requires Alike(s, t) && AllSound(s)
    ensures AllSound(t)
  {
    forall k | 0 <= k < |t|
      ensures Sound(t, k)
    {
      assert Sound(s, k);
      assert Like(t[k], s[k]);
      if t[k].joint.Some? {
        var jt := t[k].joint.value;
        assert Like(t[jt.entity1], s[jt.entity1]) && Like(t[jt.entity2], s[jt.entity2]);
      }
    }
  }

  /** `(fx, fy)` of a joint whose endpoints are `d = (dx, dy)` apart: `(d / r) * f` with `f = -(r - originalDistance²) * k`. */
  function Tug(d: Vec, jt: Joint, sqrt: real -> real): Vec
    requires IsSqrt(sqrt) && !IsZero(d)
  {
    ModulePositive(d, sqrt);
    var r := Module(d, sqrt);
    var f := -(r - jt.originalDistance * jt.originalDistance) * jt.k;
    Vec((d.x / r) * f, (d.y / r) * f)
  }

  /** The loop body for entity `k`. */
  function JointStep(s: seq<Body>, k: nat, sqrt: real -> real): (r: seq<Body>)
    requires IsSqrt(sqrt) && Sound(s, k)
    ensures Alike(s, r)
  {
    if s[k].joint.None? then s
    else
      var jt := s[k].joint.value;
      if !Equipped(s[jt.entity1]) || !Equipped(s[jt.entity2]) then s
      else
        var d := Gap(s[jt.entity1], s[jt.entity2]);
        if ModuleSquare(d) == jt.originalDistance * jt.originalDistance then s
        else
          Apart(jt, s[jt.entity1], s[jt.entity2]);
          Shove(s, jt.entity1, jt.entity2, Tug(d, jt, sqrt))
  }

  /** The array after the loop bodies for the first `m` entities. */
  function Jointed(s: seq<Body>, m: nat, sqrt: real -> real): (r: seq<Body>)
    requires IsSqrt(sqrt) && AllSound(s) && m <= |s|
    ensures Alike(s, r)
  {
    if m == 0 then s
    else
      var t := Jointed(s, m - 1, sqrt);
      SoundAlike(s, t);
      var r := JointStep(t, m - 1, sqrt);
      AlikeTrans(s, t, r);
      r
  }

  /**
    A joint whose endpoints are both equipped and apart adds its tug to
    endpoint 1's force and subtracts it from endpoint 2's; the endpoints
    are then different entities, and the total force is kept.  A joint with
    an endpoint lacking a position or a force changes nothing.
   */
  lemma {:induction false} JointStepFacts(s: seq<Body>, k: nat, sqrt: real -> real)
    requires IsSqrt(sqrt) && Sound(s, k) && s[k].joint.Some?
    ensures var jt := s[k].joint.value;
      !Equipped(s[jt.entity1]) || !Equipped(s[jt.entity2]) ==> JointStep(s, k, sqrt) == s
    ensures var jt := s[k].joint.value;
      Equipped(s[jt.entity1]) && Equipped(s[jt.entity2])
        && ModuleSquare(Gap(s[jt.entity1], s[jt.entity2])) != jt.originalDistance * jt.originalDistance ==>
      var d := Gap(s[jt.entity1], s[jt.entity2]);
      && !IsZero(d) && jt.entity1 != jt.entity2
      && JointStep(s, k, sqrt)[jt.entity1].force == Some(Add(s[jt.entity1].force.value, Tug(d, jt, sqrt)))
      && JointStep(s, k, sqrt)[jt.entity2].force == Some(Sub(s[jt.entity2].force.value, Tug(d, jt, sqrt)))
    ensures TotalForce(JointStep(s, k, sqrt)) == TotalForce(s)
  {
    var jt := s[k].joint.value;
    if Equipped(s[jt.entity1]) && Equipped(s[jt.entity2]) {
      var d := Gap(s[jt.entity1], s[jt.entity2]);
      if ModuleSquare(d) != jt.originalDistance * jt.originalDistance {
        Apart(jt, s[jt.entity1], s[jt.entity2]);
        assert jt.entity1 != jt.entity2;
        ShoveFacts(s, jt.entity1, jt.entity2, Tug(d, jt, sqrt));
      }
    }
  }

  /** The whole run keeps the total force. */
  lemma {:induction false} JointedTotal(s: seq<Body>, m: nat, sqrt: real -> real)
    requires IsSqrt(sqrt) && AllSound(s) && m <= |s|
    ensures TotalForce(Jointed(s, m, sqrt)) == TotalForce(s)
  {
    if m > 0 {
      JointedTotal(s, m - 1, sqrt);
      var t := Jointed(s, m - 1, sqrt);
      SoundAlike(s, t);
      if t[m - 1].joint.Some? {
        JointStepFacts(t, m - 1, sqrt);
      }
    }
  }

  lemma DivMul(x: real, r: real, f: real)
    requires r != 0.0
    ensures (x / r) * f == x * (f / r)
  {
  }

  /**
    The tug is zero when the distance `r` equals `originalDistance²`, not
    `originalDistance`; with `k > 0` it points along `d` when `r` is below
    `originalDistance²` and against `d` when `r` is above, pushing the
    endpoints of a stretched joint apart.
   */
  lemma {:induction false} TugSign(d: Vec, jt: Joint, sqrt: real -> real)
    requires IsSqrt(sqrt) && !IsZero(d)
    ensures var od2 := jt.originalDistance * jt.originalDistance;
      Module(d, sqrt) == od2 ==> Tug(d, jt, sqrt) == Zero
    ensures var od2 := jt.originalDistance * jt.originalDistance;
      jt.k > 0.0 && Module(d, sqrt) < od2 ==> exists c: real :: c > 0.0 && Tug(d, jt, sqrt) == Scale(d, c)
    ensures var od2 := jt.originalDistance * jt.originalDistance;
      jt.k > 0.0 && Module(d, sqrt) > od2 ==> exists c: real :: c < 0.0 && Tug(d, jt, sqrt) == Scale(d, c)
  {
    ModulePositive(d, sqrt);
    var r := Module(d, sqrt);
    var od2 := jt.originalDistance * jt.originalDistance;
    var c := -(r - od2) * jt.k / r;
    TugIsScaled(d, jt, sqrt);
    FactorSign(r, od2, jt.k);
    assert Tug(d, jt, sqrt) == Scale(d, c);
  }

  /** The tug is `d` scaled by `f / r`. */
  lemma TugIsScaled(d: Vec, jt: Joint, sqrt: real -> real)
    requires IsSqrt(sqrt) && !IsZero(d)
    ensures Module(d, sqrt) > 0.0
    ensures Tug(d, jt, sqrt) == Scale(d, -(Module(d, sqrt) - jt.originalDistance * jt.originalDistance) * jt.k / Module(d, sqrt))
  {
    ModulePositive(d, sqrt);
    var r := Module(d, sqrt);
    var f := -(r - jt.originalDistance * jt.originalDistance) * jt.k;
    DivMul(d.x, r, f);
    DivMul(d.y, r, f);
  }

  /** The sign of `-(r - od2) * k / r` for a positive `r`. */
  lemma FactorSign(r: real, od2: real, k: real)
    requires r > 0.0
    ensures r == od2 ==> -(r - od2) * k / r == 0.0
    ensures k > 0.0 && r < od2 ==> -(r - od2) * k / r > 0.0
    ensures k > 0.0 && r > od2 ==> -(r - od2) * k / r < 0.0
  {
    var f := -(r - od2) * k;
    if k > 0.0 && r < od2 {
      MulPos(od2 - r, k);
      DivPos(f, r);
    }
    if k > 0.0 && r > od2 {
      MulPos(r - od2, k);
      DivPos(-f, r);
      assert f / r == -((-f) / r);
    }
  }

  /**
    A joint changes nothing at both of its neutral distances: at
    `r == originalDistance` the loop body skips it, and at
    `r == originalDistance²` its tug is zero.
   */
  lemma {:induction false} JointNeutral(s: seq<Body>, k: nat, sqrt: real -> real)
    requires IsSqrt(sqrt) && Sound(s, k) && s[k].joint.Some?
    requires var jt := s[k].joint.value; Equipped(s[jt.entity1]) && Equipped(s[jt.entity2])
    requires var jt := s[k].joint.value; var r := Module(Gap(s[jt.entity1], s[jt.entity2]), sqrt);
      r == jt.originalDistance || r == jt.originalDistance * jt.originalDistance
    ensures JointStep(s, k, sqrt) == s
  {
    var jt := s[k].joint.value;
    var d := Gap(s[jt.entity1], s[jt.entity2]);
    var r := Module(d, sqrt);
    SqrtSquared(sqrt, ModuleSquare(d), r);
    if ModuleSquare(d) != jt.originalDistance * jt.originalDistance {
      assert r != jt.originalDistance;
      assert !IsZero(d) by {
        if IsZero(d) {
          ModuleZero(d, sqrt);
        }
      }
      TugSign(d, jt, sqrt);
      var b1 := s[jt.entity1];
      var b2 := s[jt.entity2];
      JointStepFacts(s, k, sqrt);
      assert AddForce(b1, Zero) == b1;
      var t := s[jt.entity1 := b1];
      assert t == s;
      assert SubForce(b2, Zero) == b2;
    }
  }

  /** The loop body for entity `k` on the array. */
  method JointTurn(a: array<Body>, k: nat, sqrt: real -> real)
    requires IsSqrt(sqrt) && Sound(a[..], k)
    modifies a
    ensures a[..] == JointStep(old(a[..]), k, sqrt)
  {
    ghost var s := a[..];
    var entity := a[k];
    if entity.joint.None? {
      return;
    }
    var jt := entity.joint.value;
    var entity1 := a[jt.entity1];
    if entity1.position.None? || entity1.force.None? {
      return;
    }
    var entity2 := a[jt.entity2];
    if entity2.position.None? || entity2.force.None? {
      return;
    }
    assert s[jt.entity1] == entity1 && s[jt.entity2] == entity2;
    var d := Gap(entity1, entity2);
    if ModuleSquare(d) == jt.originalDistance * jt.originalDistance {
      return;
    }
    Apart(jt, entity1, entity2);
    var force := Tug(d, jt, sqrt);
    a[jt.entity1] := AddForce(a[jt.entity1], force);
    a[jt.entity2] := SubForce(a[jt.entity2], force);
    assert a[..] == Shove(s, jt.entity1, jt.entity2, force);
  }

  /** `JointSystem`, with `sqrt` standing for `Math.sqrt`. */
  method JointSystem(a: array<Body>, sqrt: real -> real)
    requires IsSqrt(sqrt) && AllSound(a[..])
    modifies a
    ensures a[..] == Jointed(old(a[..]), a.Length, sqrt)
  {
    ghost var s0 := a[..];
    for k := 0 to a.Length
      invariant a[..] == Jointed(s0, k, sqrt)
    {
      SoundAlike(s0, a[..]);
      JointTurn(a, k, sqrt);
    }
  }
}
