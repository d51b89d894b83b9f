/**
  Systems that walk the rows of a query and write new values for each row's
  entity into one or two maps.  The writes of such a loop are described by
  a step function: given a row (and the system's parameters) it says which
  value, if any, the row's entity gets.  Walking the whole query is then the
  same as overlaying the new values on the old maps.
 */
module Updates {
  import opened Store
  import opened Components
  import opened World

  datatype Option<T> = None | Some(value: T)

  /** The values a step writes for the rows in order; a later row overwrites an earlier one. */
  function NewValues<P>(rows: seq<Row>, f: (Row, P) -> Option<Value>, p: P): map<int, Value>
  {
    if rows == [] then map[]
    else
      var m := NewValues(rows[..|rows| - 1], f, p);
      var row := rows[|rows| - 1];
      match f(row, p)
      case Some(v) => m[row.entity := v]
      case None => m
  }

  /** The map written by the loop after its first `i` rows. */
  function RunStore<P>(s: Store<Value>, rows: seq<Row>, f: (Row, P) -> Option<Value>, p: P, i: nat): Store<Value>
    requires i <= |rows|
  {
    if i == 0 then s
    else
      var r := RunStore(s, rows, f, p, i - 1);
      var row := rows[i - 1];
      match f(row, p)
      case Some(v) => r.Set(row.entity, v)
      case None => r
  }

  /** `c` and `d` have the same names and the same map for each name other than `n`. */
  predicate Others(c: Holder, d: Holder, n: Name)
  {
    c.Keys == d.Keys && forall m :: m in d && m != n ==> c[m] == d[m]
  }

  /** A record that differs from `d` at most in the map `n`, which is `s`, is `d` with `s` for `n`. */
  lemma OthersEqual(c: Holder, d: Holder, n: Name, s: Store<Value>)
    requires Others(c, d, n) && n in d && c[n] == s
    ensures c == d[n := s]
  {
  }

  lemma OverlaySet(s: Store<Value>, m: map<int, Value>, e: int, v: Value)
    requires m.Keys <= s.vals.Keys && e in s.vals
    ensures Overlay(s, m).Set(e, v) == Overlay(s, m[e := v])
  {
    assert (s.vals + m)[e := v] == s.vals + m[e := v];
  }

  /** The values written all belong to entities of the rows. */
  lemma {:induction false} NewValuesKeys<P>(rows: seq<Row>, f: (Row, P) -> Option<Value>, p: P)
    ensures forall e :: e in NewValues(rows, f, p) ==> e in Entities(rows)
  {
    if rows != [] {
      var init := rows[..|rows| - 1];
      NewValuesKeys(init, f, p);
      assert Entities(rows) == Entities(init) + [rows[|rows| - 1].entity];
    }
  }

  /** Writing the first `i` rows overlays their new values on the map. */
  lemma {:induction false} RunStoreOverlay<P>(s: Store<Value>, rows: seq<Row>, f: (Row, P) -> Option<Value>, p: P, i: nat)
    requires i <= |rows|
    requires forall k :: 0 <= k < |rows| ==> rows[k].entity in s.vals
    ensures NewValues(rows[..i], f, p).Keys <= s.vals.Keys
    ensures RunStore(s, rows, f, p, i) == Overlay(s, NewValues(rows[..i], f, p))
  {
    NewValuesKeys(rows[..i], f, p);
    if i == 0 {
      assert s.vals + map[] == s.vals;
    } else {
      RunStoreOverlay(s, rows, f, p, i - 1);
      var m := NewValues(rows[..i - 1], f, p);
      var row := rows[i - 1];
      assert rows[..i][..i - 1] == rows[..i - 1];
      match f(row, p)
      case Some(v) =>
        assert NewValues(rows[..i], f, p) == m[row.entity := v];
        OverlaySet(s, m, row.entity, v);
      case None =>
        assert NewValues(rows[..i], f, p) == m;
    }
  }

  /**
    Where every row holds its entity's values for the names `q`, an entity
    gets a new value exactly when it has a row and the step gives one for
    that entity's row, and the value is the one the step gives.
   */
  lemma {:induction false} NewValuesAt<P>(c: Holder, q: seq<Name>, rows: seq<Row>, f: (Row, P) -> Option<Value>, p: P)
    requires forall k :: 0 <= k < |rows| ==> rows[k].values == Values(c, q, rows[k].entity)
    ensures forall e :: e in NewValues(rows, f, p) <==> e in Entities(rows) && f(Row(e, Values(c, q, e)), p).Some?
    ensures forall e :: e in NewValues(rows, f, p) ==> NewValues(rows, f, p)[e] == f(Row(e, Values(c, q, e)), p).value
  {
    if rows != [] {
      var init := rows[..|rows| - 1];
      var row := rows[|rows| - 1];
      NewValuesAt(c, q, init, f, p);
      assert Entities(rows) == Entities(init) + [row.entity];
      assert row == Row(row.entity, Values(c, q, row.entity));
    }
  }

  /** The rows of a query all have a value in the map of each listed name. */
  lemma JoinHas(c: Holder, q: seq<Name>, j: nat)
    requires StoresValid(c) && j < |q|
    ensures forall k :: 0 <= k < |Join(c, q)| ==> Has(c, q[j], Join(c, q)[k].entity)
    ensures forall k :: 0 <= k < |Join(c, q)| ==> Join(c, q)[k].values == Values(c, q, Join(c, q)[k].entity)
  {
    forall k | 0 <= k < |Join(c, q)|
      ensures Has(c, q[j], Join(c, q)[k].entity)
      ensures Join(c, q)[k].values == Values(c, q, Join(c, q)[k].entity)
    {
      JoinRow(c, q, k);
    }
  }

  /**
    A loop over the query `q` writing into map `q[j]` overlays new values on
    it: an entity gets one exactly when it has every listed component and
    the step gives a value for its row.
   */
  lemma JoinStore<P>(c: Holder, q: seq<Name>, j: nat, f: (Row, P) -> Option<Value>, p: P)
    requires StoresValid(c) && j < |q| && q[j] in c
    ensures var nv := NewValues(Join(c, q), f, p);
      && nv.Keys <= c[q[j]].vals.Keys
      && RunStore(c[q[j]], Join(c, q), f, p, |Join(c, q)|) == Overlay(c[q[j]], nv)
      && (forall e :: e in nv <==> Has(c, q[0], e) && Matches(c, q, e) && f(Row(e, Values(c, q, e)), p).Some?)
      && (forall e :: e in nv ==> nv[e] == f(Row(e, Values(c, q, e)), p).value)
  {
    var rows := Join(c, q);
    JoinHas(c, q, j);
    JoinFacts(c, q);
    RunStoreOverlay(c[q[j]], rows, f, p, |rows|);
    TakeAll(rows);
    NewValuesAt(c, q, rows, f, p);
  }

  /** Turn `i` of `WriteRows`: the step's value for row `i`, if any, is set for the row's entity in map `n`. */
  method WriteRow<P>(w: World, n: Name, rows: seq<Row>, f: (Row, P) -> Option<Value>, p: P, i: nat, ghost c0: Holder)
    requires w.Valid() && n in c0 && i < |rows|
    requires rows[i].entity in w.active
    requires f(rows[i], p).Some? ==> Fits(n, f(rows[i], p).value)
    requires Others(w.components, c0, n) && w.components[n] == RunStore(c0[n], rows, f, p, i)
    modifies w
    ensures w.Valid()
    ensures w.lastAssignedId == old(w.lastAssignedId) && w.active == old(w.active) && w.currentTime == old(w.currentTime)
    ensures Others(w.components, c0, n) && w.components[n] == RunStore(c0[n], rows, f, p, i + 1)
  {
    var row := rows[i];
    var next := f(row, p);
    if next.Some? {
      w.SetComponent(n, row.entity, next.value);
    }
  }

  /**
    The loop of a system that walks query rows and, for each row the step
    gives a value for, sets that value for the row's entity in map `n`.
   */
  method WriteRows<P>(w: World, n: Name, rows: seq<Row>, f: (Row, P) -> Option<Value>, p: P)
    requires w.Valid() && n in w.components
    requires forall k :: 0 <= k < |rows| ==> rows[k].entity in w.active
    requires forall k :: 0 <= k < |rows| && f(rows[k], p).Some? ==> Fits(n, f(rows[k], p).value)
    modifies w
    ensures w.Valid()
    ensures w.lastAssignedId == old(w.lastAssignedId) && w.active == old(w.active) && w.currentTime == old(w.currentTime)
    ensures Others(w.components, old(w.components), n)
    ensures w.components[n] == RunStore(old(w.components)[n], rows, f, p, |rows|)
  {
    ghost var c0 := w.components;
    for i := 0 to |rows|
      invariant w.Valid()
      invariant w.lastAssignedId == old(w.lastAssignedId) && w.active == old(w.active) && w.currentTime == old(w.currentTime)
      invariant Others(w.components, c0, n) && w.components[n] == RunStore(c0[n], rows, f, p, i)
    {
      WriteRow(w, n, rows, f, p, i, c0);
    }
  }

  /** `c` and `d` have the same names and the same map for each name other than `a` and `b`. */
  predicate Others2(c: Holder, d: Holder, a: Name, b: Name)
  {
    c.Keys == d.Keys && forall m :: m in d && m != a && m != b ==> c[m] == d[m]
  }

  /** A record that differs from `d` at most in the maps `a` and `b`, which are `x` and `y`, is `d` with those two. */
  lemma OthersEqual2(c: Holder, d: Holder, a: Name, b: Name, x: Store<Value>, y: Store<Value>)
    requires Others2(c, d, a, b) && a in d && b in d && c[a] == x && c[b] == y
    ensures c == d[a := x][b := y]
  {
  }

  /** Turn `i` of `WriteRows2`: row `i`'s entity gets the step `f`'s value in map `a`, then `g`'s in map `b`. */
  method WriteRow2<P>(w: World, a: Name, b: Name, rows: seq<Row>, f: (Row, P) -> Option<Value>, g: (Row, P) -> Option<Value>,
                      p: P, i: nat, ghost c0: Holder)
    requires w.Valid() && a in c0 && b in c0 && a != b && i < |rows|
    requires rows[i].entity in w.active
    requires f(rows[i], p).Some? ==> Fits(a, f(rows[i], p).value)
    requires g(rows[i], p).Some? ==> Fits(b, g(rows[i], p).value)
    requires Others2(w.components, c0, a, b)
    requires w.components[a] == RunStore(c0[a], rows, f, p, i) && w.components[b] == RunStore(c0[b], rows, g, p, i)
    modifies w
    ensures w.Valid()
    ensures w.lastAssignedId == old(w.lastAssignedId) && w.active == old(w.active) && w.currentTime == old(w.currentTime)
    ensures Others2(w.components, c0, a, b)
    ensures w.components[a] == RunStore(c0[a], rows, f, p, i + 1) && w.components[b] == RunStore(c0[b], rows, g, p, i + 1)
  {
    var row := rows[i];
    var first := f(row, p);
    if first.Some? {
      w.SetComponent(a, row.entity, first.value);
    }
    var second := g(row, p);
    if second.Some? {
      w.SetComponent(b, row.entity, second.value);
    }
  }

  /** The loop of a system that walks query rows and writes, per row, into two maps. */
  method WriteRows2<P>(w: World, a: Name, b: Name, rows: seq<Row>, f: (Row, P) -> Option<Value>, g: (Row, P) -> Option<Value>, p: P)
    requires w.Valid() && a in w.components && b in w.components && a != b
    requires forall k :: 0 <= k < |rows| ==> rows[k].entity in w.active
    requires forall k :: 0 <= k < |rows| && f(rows[k], p).Some? ==> Fits(a, f(rows[k], p).value)
    requires forall k :: 0 <= k < |rows| && g(rows[k], p).Some? ==> Fits(b, g(rows[k], p).value)
    modifies w
    ensures w.Valid()
    ensures w.lastAssignedId == old(w.lastAssignedId) && w.active == old(w.active) && w.currentTime == old(w.currentTime)
    ensures Others2(w.components, old(w.components), a, b)
    ensures w.components[a] == RunStore(old(w.components)[a], rows, f, p, |rows|)
    ensures w.components[b] == RunStore(old(w.components)[b], rows, g, p, |rows|)
  {
    ghost var c0 := w.components;
    for i := 0 to |rows|
      invariant w.Valid()
      invariant w.lastAssignedId == old(w.lastAssignedId) && w.active == old(w.active) && w.currentTime == old(w.currentTime)
      invariant Others2(w.components, c0, a, b)
      invariant w.components[a] == RunStore(c0[a], rows, f, p, i) && w.components[b] == RunStore(c0[b], rows, g, p, i)
    {
      WriteRow2(w, a, b, rows, f, g, p, i, c0);
    }
  }
}
