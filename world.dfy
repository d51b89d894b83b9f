/**
  The world: an id counter, the set of live entities, the simulation clock
  and one `Map` per component name, together with the operations of
  `src/lib/world.ts` that create, remove and query entities.
 */
module World {
  import opened Store
  import opened Components

  /** The `components` record of a world: the map of each component name it has. */
  type Holder = map<Name, Store<Value>>

  /** A query row: slot 0 is the entity, `values[i]` is the value of the `i`-th listed component. */
  datatype Row = Row(entity: int, values: seq<Value>)

  predicate Has(c: Holder, n: Name, e: int)
  {
    n in c && e in c[n].vals
  }

  /** The entry of component `n` for `e`; where there is none, any value. */
  function Get(c: Holder, n: Name, e: int): (v: Value)
    ensures Has(c, n, e) ==> v == c[n].vals[e]
  {
    if Has(c, n, e) then c[n].vals[e] else OtherVal
  }

  /** The entry of `e` in the map `s`; where there is none, any value. */
  function At(s: Store<Value>, e: int): (v: Value)
    ensures e in s.vals ==> v == s.vals[e]
  {
    if e in s.vals then s.vals[e] else OtherVal
  }

  /** `world.components[n].set(e, v)` on a world that has a map for `n`. */
  function Put(c: Holder, n: Name, e: int, v: Value): (r: Holder)
    requires n in c
    ensures r.Keys == c.Keys && r[n] == c[n].Set(e, v)
    ensures forall m :: m in c && m != n ==> r[m] == c[m]
  {
    c[n := c[n].Set(e, v)]
  }

  /**
    The invariant the world's operations keep: every map is a well-formed
    `Map` whose keys are live entities and whose values fit its name, and no
    live entity has an id above the counter.
   */
  ghost predicate WellFormed(c: Holder, active: set<int>, last: int)
  {
    && (forall e :: e in active ==> e <= last)
    && (forall n :: n in c ==> c[n].Valid())
    && (forall n, e :: n in c && e in c[n].vals ==> e in active && Fits(n, c[n].vals[e]))
  }

  /** Setting a well-shaped value for a live entity keeps the world well formed. */
  lemma PutWellFormed(c: Holder, active: set<int>, last: int, n: Name, e: int, v: Value)
    requires WellFormed(c, active, last) && n in c && e in active && Fits(n, v)
    ensures WellFormed(Put(c, n, e, v), active, last)
  {
    var r := Put(c, n, e, v);
    forall m | m in r
      ensures r[m].Valid()
      ensures forall x :: x in r[m].vals ==> x in active && Fits(m, r[m].vals[x])
    {
      if m != n {
        assert r[m] == c[m];
      } else {
        forall x | x in r[n].vals
          ensures x in active && Fits(n, r[n].vals[x])
        {
          if x != e {
            assert r[n].vals[x] == c[n].vals[x];
          }
        }
      }
    }
  }

  /** Every value of the record has the shape of its map's name. */
  ghost predicate Shaped(c: Holder)
  {
    forall n, e :: n in c && e in c[n].vals ==> Fits(n, c[n].vals[e])
  }

  /** Every map of the record is a well-formed `Map`. */
  ghost predicate StoresValid(c: Holder)
  {
    forall n :: n in c ==> c[n].Valid()
  }

  /*
    The query join.
   */

  /** `e` has a value for every listed component after the first. */
  predicate Matches(c: Holder, names: seq<Name>, e: int)
  {
    forall i :: 1 <= i < |names| ==> Has(c, names[i], e)
  }

  /** The values of `e` for the listed components, in the order listed. */
  function Values(c: Holder, names: seq<Name>, e: int): (vs: seq<Value>)
    ensures |vs| == |names|
    ensures forall i :: 0 <= i < |names| ==> vs[i] == Get(c, names[i], e)
  {
    seq(|names|, i requires 0 <= i < |names| => Get(c, names[i], e))
  }

  /** The rows produced while the first map is walked along `keys`. */
  function JoinKeys(c: Holder, names: seq<Name>, keys: seq<int>): seq<Row>
  {
    if keys == [] then []
    else
      var rest := JoinKeys(c, names, keys[..|keys| - 1]);
      var e := keys[|keys| - 1];
      if Matches(c, names, e) then rest + [Row(e, Values(c, names, e))] else rest
  }

  /** The result of `entitiesWithComponents(names, world)`. */
  function Join(c: Holder, names: seq<Name>): seq<Row>
  {
    if names == [] || names[0] !in c then [] else JoinKeys(c, names, c[names[0]].keys)
  }

  /** Slot `k` of a row's values; any value where the row is shorter. */
  function Slot(row: Row, k: nat): (v: Value)
    ensures k < |row.values| ==> v == row.values[k]
  {
    if k < |row.values| then row.values[k] else OtherVal
  }

  function Entities(rows: seq<Row>): (es: seq<int>)
    ensures |es| == |rows|
    ensures forall k :: 0 <= k < |rows| ==> es[k] == rows[k].entity
  {
    seq(|rows|, k requires 0 <= k < |rows| => rows[k].entity)
  }

  /** The position of the first occurrence of `e` in `s`. */
  function IndexOf(s: seq<int>, e: int): (i: nat)
    requires e in s
    ensures i < |s| && s[i] == e
    ensures forall j :: 0 <= j < i ==> s[j] != e
  {
    if s[0] == e then 0 else 1 + IndexOf(s[1..], e)
  }

  /** Every row is a row of a matching entity with that entity's values. */
  lemma {:induction false} JoinKeysRows(c: Holder, names: seq<Name>, keys: seq<int>)
    ensures forall k :: 0 <= k < |JoinKeys(c, names, keys)| ==>
      var row := JoinKeys(c, names, keys)[k];
      row.entity in keys && Matches(c, names, row.entity) && row.values == Values(c, names, row.entity)
  {
    if keys != [] {
      JoinKeysRows(c, names, keys[..|keys| - 1]);
    }
  }

  /** An entity is in the result exactly when it is one of `keys` and matches. */
  lemma {:induction false} JoinKeysMembers(c: Holder, names: seq<Name>, keys: seq<int>)
    ensures forall e :: e in Entities(JoinKeys(c, names, keys)) <==> e in keys && Matches(c, names, e)
  {
    if keys != [] {
      var init := keys[..|keys| - 1];
      JoinKeysMembers(c, names, init);
      assert keys == init + [keys[|keys| - 1]];
      var rest := JoinKeys(c, names, init);
      var e := keys[|keys| - 1];
      if Matches(c, names, e) {
        assert Entities(rest + [Row(e, Values(c, names, e))]) == Entities(rest) + [e];
      }
    }
  }

  /** Distinct keys give rows with distinct entities, in the order of the keys. */
  lemma {:induction false} JoinKeysOrdered(c: Holder, names: seq<Name>, keys: seq<int>)
    requires Distinct(keys)
    ensures forall k1, k2 :: 0 <= k1 < k2 < |JoinKeys(c, names, keys)| ==>
      var rows := JoinKeys(c, names, keys);
      rows[k1].entity in keys && rows[k2].entity in keys &&
      IndexOf(keys, rows[k1].entity) < IndexOf(keys, rows[k2].entity)
  {
    if keys != [] {
      var init := keys[..|keys| - 1];
      var last := keys[|keys| - 1];
      assert Distinct(init);
      JoinKeysOrdered(c, names, init);
      JoinKeysRows(c, names, init);
      var rest := JoinKeys(c, names, init);
      forall k | 0 <= k < |rest|
        ensures IndexOf(keys, rest[k].entity) == IndexOf(init, rest[k].entity) < |keys| - 1
      {
        IndexOfPrefix(keys, init, rest[k].entity);
      }
      if Matches(c, names, last) {
        assert IndexOf(keys, last) == |keys| - 1;
      }
    }
  }

  lemma {:induction false} IndexOfPrefix(s: seq<int>, init: seq<int>, e: int)
    requires |init| <= |s| && init == s[..|init|] && e in init
    ensures IndexOf(s, e) == IndexOf(init, e)
  {
    if s[0] != e {
      assert init[1..] == s[1..][..|init| - 1];
      IndexOfPrefix(s[1..], init[1..], e);
    }
  }

  /** Strictly increasing positions give distinct entities. */
  lemma OrderedDistinct(keys: seq<int>, rows: seq<Row>)
    requires forall e :: e in Entities(rows) ==> e in keys
    requires forall k1, k2 :: 0 <= k1 < k2 < |rows| ==> IndexOf(keys, rows[k1].entity) < IndexOf(keys, rows[k2].entity)
    ensures Distinct(Entities(rows))
  {
    forall k1, k2 | 0 <= k1 < k2 < |rows|
      ensures Entities(rows)[k1] != Entities(rows)[k2]
    {
      assert rows[k1].entity in Entities(rows) && rows[k2].entity in Entities(rows);
    }
  }

  /**
    The query: an entity has a row exactly when it is a key of the first
    listed map and has a value in every other listed map; it has at most one
    row; the row holds its values in the listed order; and rows follow the
    iteration order of the first map.  No names, or a first map the world
    does not have, give no rows.
   */
  lemma JoinFacts(c: Holder, names: seq<Name>)
    requires StoresValid(c)
    ensures names == [] || names[0] !in c ==> Join(c, names) == []
    ensures forall e :: e in Entities(Join(c, names)) <==> names != [] && Has(c, names[0], e) && Matches(c, names, e)
    ensures Distinct(Entities(Join(c, names)))
    ensures forall k :: 0 <= k < |Join(c, names)| ==>
      Join(c, names)[k].values == Values(c, names, Join(c, names)[k].entity)
    ensures names != [] && names[0] in c ==>
      forall k1, k2 :: 0 <= k1 < k2 < |Join(c, names)| ==>
        Join(c, names)[k1].entity in c[names[0]].keys && Join(c, names)[k2].entity in c[names[0]].keys &&
        IndexOf(c[names[0]].keys, Join(c, names)[k1].entity) < IndexOf(c[names[0]].keys, Join(c, names)[k2].entity)
  {
    if names != [] && names[0] in c {
      var keys := c[names[0]].keys;
      JoinKeysRows(c, names, keys);
      JoinKeysMembers(c, names, keys);
      JoinKeysOrdered(c, names, keys);
      OrderedDistinct(keys, Join(c, names));
    }
  }

  /** `c` and `d` have the same maps for the listed names. */
  predicate Agree(c: Holder, d: Holder, names: seq<Name>)
  {
    forall i :: 0 <= i < |names| ==> (names[i] in c <==> names[i] in d) && (names[i] in c ==> c[names[i]] == d[names[i]])
  }

  lemma {:induction false} JoinKeysFrame(c: Holder, d: Holder, names: seq<Name>, keys: seq<int>)
    requires Agree(c, d, names)
    ensures JoinKeys(c, names, keys) == JoinKeys(d, names, keys)
  {
    if keys != [] {
      JoinKeysFrame(c, d, names, keys[..|keys| - 1]);
      var e := keys[|keys| - 1];
      assert Matches(c, names, e) == Matches(d, names, e);
      assert Values(c, names, e) == Values(d, names, e);
    }
  }

  /** The query reads only the maps it names: changing any other map leaves its result as it was. */
  lemma JoinFrame(c: Holder, d: Holder, names: seq<Name>)
    requires Agree(c, d, names)
    ensures Join(c, names) == Join(d, names)
  {
    if names != [] && names[0] in c {
      JoinKeysFrame(c, d, names, c[names[0]].keys);
    }
  }

  /*
    In-place updates of component values.  A system that changes the values
    of some entities in one map is described by the new values `nv`, which
    overwrite the old ones.
   */

  /** `s` with the entries of `nv` written over its own; no key is added, moved or dropped. */
  function Overlay(s: Store<Value>, nv: map<int, Value>): (r: Store<Value>)
    requires nv.Keys <= s.vals.Keys
    ensures r.keys == s.keys && r.vals.Keys == s.vals.Keys
    ensures forall e :: e in s.vals ==> r.vals[e] == if e in nv then nv[e] else s.vals[e]
    ensures s.Valid() ==> r.Valid()
  {
    Store(s.keys, s.vals + nv)
  }

  lemma EntitiesPrefix(rows: seq<Row>, k: nat)
    requires k <= |rows|
    ensures Entities(rows[..k]) == Entities(rows)[..k]
  {
  }

  /** An entity that matches the query has a row, and the row holds its values. */
  lemma JoinIndex(c: Holder, names: seq<Name>, e: int) returns (k: nat)
    requires StoresValid(c) && names != [] && Has(c, names[0], e) && Matches(c, names, e)
    ensures k < |Join(c, names)| && Join(c, names)[k].entity == e
    ensures Join(c, names)[k].values == Values(c, names, e)
  {
    var keys := c[names[0]].keys;
    JoinKeysMembers(c, names, keys);
    JoinKeysRows(c, names, keys);
    assert c[names[0]].Valid();
    assert e in Entities(Join(c, names));
    k :| 0 <= k < |Join(c, names)| && Join(c, names)[k].entity == e;
  }

  /** What a caller needs of one row of the query. */
  lemma JoinRow(c: Holder, names: seq<Name>, k: nat)
    requires StoresValid(c) && k < |Join(c, names)|
    ensures var row := Join(c, names)[k];
      && names != [] && Has(c, names[0], row.entity) && Matches(c, names, row.entity)
      && row.values == Values(c, names, row.entity)
  {
    JoinFacts(c, names);
    assert Join(c, names)[k].entity in Entities(Join(c, names));
  }

  /** In a well-formed record every query row is a live entity. */
  lemma JoinLive(c: Holder, active: set<int>, last: int, names: seq<Name>)
    requires WellFormed(c, active, last)
    ensures forall k :: 0 <= k < |Join(c, names)| ==> Join(c, names)[k].entity in active
  {
    forall k | 0 <= k < |Join(c, names)|
      ensures Join(c, names)[k].entity in active
    {
      JoinRow(c, names, k);
    }
  }

  /*
    Removal and creation, on values.
   */

  /** The record after `removeEntity(e)`: `e` deleted from every map. */
  function Removed(c: Holder, e: int): Holder
  {
    map n | n in c :: c[n].Delete(e)
  }

  /** After removal `e` has no component, and every other entity keeps all of its entries. */
  lemma RemovedFacts(c: Holder, e: int)
    ensures Removed(c, e).Keys == c.Keys
    ensures forall n :: n in c ==> e !in Removed(c, e)[n].vals
    ensures forall n, x :: n in c && x != e ==> (Has(Removed(c, e), n, x) <==> Has(c, n, x))
    ensures forall n, x :: n in c && x != e && Has(c, n, x) ==> Removed(c, e)[n].vals[x] == c[n].vals[x]
    ensures StoresValid(c) ==> StoresValid(Removed(c, e))
  {
  }

  /** Removing an entity a second time changes nothing. */
  lemma RemovedIdempotent(c: Holder, e: int)
    requires StoresValid(c)
    ensures Removed(Removed(c, e), e) == Removed(c, e)
  {
    forall n | n in c
      ensures Removed(c, e)[n].Delete(e) == c[n].Delete(e)
    {
      DeleteIdempotent(c[n], e);
    }
  }

  /** The record after the supplied components of a new entity `id` are stored in the listed order. */
  function WithEntries(c: Holder, id: int, supplied: seq<(Name, Value)>): Holder
  {
    if supplied == [] then c
    else
      var r := WithEntries(c, id, supplied[..|supplied| - 1]);
      var (n, v) := supplied[|supplied| - 1];
      if n in r then r[n := r[n].Set(id, v)] else r
  }

  predicate DistinctNames(supplied: seq<(Name, Value)>)
  {
    forall i, j :: 0 <= i < j < |supplied| ==> supplied[i].0 != supplied[j].0
  }

  /** The names of a prefix of distinct supplied pairs are distinct, and the last name is not among them. */
  lemma DistinctNamesInit(supplied: seq<(Name, Value)>)
    requires DistinctNames(supplied) && supplied != []
    ensures DistinctNames(supplied[..|supplied| - 1])
    ensures forall i :: 0 <= i < |supplied| - 1 ==> supplied[..|supplied| - 1][i] == supplied[i] && supplied[i].0 != supplied[|supplied| - 1].0
  {
  }

  /**
    Storing the components of a fresh entity: no name is added or removed,
    and each supplied map gets the entry at the end of its order.
   */
  lemma {:induction false} WithEntriesFacts(c: Holder, id: int, supplied: seq<(Name, Value)>)
    requires DistinctNames(supplied)
    requires forall i :: 0 <= i < |supplied| ==> supplied[i].0 in c
    requires forall n :: n in c ==> id !in c[n].vals
    ensures WithEntries(c, id, supplied).Keys == c.Keys
    ensures forall i :: 0 <= i < |supplied| ==>
      var n := supplied[i].0;
      WithEntries(c, id, supplied)[n] == Store(c[n].keys + [id], c[n].vals[id := supplied[i].1])
  {
    if supplied != [] {
      DistinctNamesInit(supplied);
      WithEntriesFacts(c, id, supplied[..|supplied| - 1]);
      WithEntriesOthers(c, id, supplied[..|supplied| - 1]);
    }
  }

  /** The maps of names that are not supplied are unchanged. */
  lemma {:induction false} WithEntriesOthers(c: Holder, id: int, supplied: seq<(Name, Value)>)
    ensures forall n :: n in c && (forall i :: 0 <= i < |supplied| ==> supplied[i].0 != n) ==>
      n in WithEntries(c, id, supplied) && WithEntries(c, id, supplied)[n] == c[n]
  {
    if supplied != [] {
      var init := supplied[..|supplied| - 1];
      WithEntriesOthers(c, id, init);
      assert forall i :: 0 <= i < |init| ==> init[i] == supplied[i];
    }
  }

  /** A world.  `active` is `activeEntitites`. */
  class World {
    var lastAssignedId: int
    var active: set<int>
    var currentTime: real
    var components: Holder

    ghost predicate Valid()
      reads this
    {
      WellFormed(components, active, lastAssignedId)
    }

    /** A fresh world with an empty map for each of `names`, as the demos build one. */
    constructor (names: set<Name>)
      ensures Valid()
      ensures lastAssignedId == 0 && active == {} && currentTime == 0.0
      ensures components.Keys == names && forall n :: n in names ==> components[n] == Empty()
    {
      lastAssignedId := 0;
      active := {};
      currentTime := 0.0;
      components := map n | n in names :: Empty();
    }

    /** `createEntity`: the next id, now live; no map changes. */
    method CreateEntity() returns (id: int)
      requires Valid()
      modifies this
      ensures Valid()
      ensures id == old(lastAssignedId) + 1 && lastAssignedId == id
      ensures id !in old(active) && active == old(active) + {id}
      ensures components == old(components) && currentTime == old(currentTime)
      ensures forall n :: n in components ==> id !in components[n].vals
    {
      lastAssignedId := lastAssignedId + 1;
      id := lastAssignedId;
      active := active + {id};
    }

    /** `createEntityFromComponents`: a new entity with the supplied components, stored in the order given. */
    method CreateEntityFromComponents(supplied: seq<(Name, Value)>) returns (id: int)
      requires Valid()
      requires DistinctNames(supplied)
      requires forall i :: 0 <= i < |supplied| ==> supplied[i].0 in components && Fits(supplied[i].0, supplied[i].1)
      modifies this
      ensures Valid()
      ensures id == old(lastAssignedId) + 1 && lastAssignedId == id
      ensures id !in old(active) && active == old(active) + {id}
      ensures currentTime == old(currentTime)
      ensures components == WithEntries(old(components), id, supplied)
    {
      id := CreateEntity();
      var i := 0;
      while i < |supplied|
        invariant 0 <= i <= |supplied|
        invariant Valid()
        invariant lastAssignedId == id && active == old(active) + {id} && currentTime == old(currentTime)
        invariant components.Keys == old(components).Keys
        invariant components == WithEntries(old(components), id, supplied[..i])
      {
        assert supplied[..i + 1][..i] == supplied[..i];
        var (n, v) := supplied[i];
        SetComponent(n, id, v);
        i := i + 1;
      }
      assert supplied[..i] == supplied;
    }

    /** `map.set(e, v)` on the map of `n`, for a live entity and a value of `n`'s shape. */
    method SetComponent(n: Name, e: int, v: Value)
      requires Valid() && n in components && e in active && Fits(n, v)
      modifies this
      ensures Valid()
      ensures components == Put(old(components), n, e, v)
      ensures lastAssignedId == old(lastAssignedId) && active == old(active) && currentTime == old(currentTime)
    {
      PutWellFormed(components, active, lastAssignedId, n, e, v);
      components := Put(components, n, e, v);
    }

    /** `map.clear()` on the map of `n`. */
    method ClearComponent(n: Name)
      requires Valid() && n in components
      modifies this
      ensures Valid()
      ensures components == old(components)[n := Empty()]
      ensures lastAssignedId == old(lastAssignedId) && active == old(active) && currentTime == old(currentTime)
    {
      components := components[n := Empty()];
    }

    /** `removeEntity`: the entity leaves every map and the live set. */
    method RemoveEntity(e: int)
      requires Valid()
      modifies this
      ensures Valid()
      ensures components == Removed(old(components), e)
      ensures active == old(active) - {e}
      ensures lastAssignedId == old(lastAssignedId) && currentTime == old(currentTime)
    {
      var todo := components.Keys;
      ghost var c0 := components;
      while todo != {}
        invariant todo <= c0.Keys && components.Keys == c0.Keys
        invariant active == old(active) && lastAssignedId == old(lastAssignedId) && currentTime == old(currentTime)
        invariant forall n :: n in c0 ==> components[n] == if n in todo then c0[n] else c0[n].Delete(e)
        decreases todo
      {
        var n :| n in todo;
        components := components[n := components[n].Delete(e)];
        todo := todo - {n};
      }
      assert components == Removed(c0, e);
      RemovedFacts(c0, e);
      active := active - {e};
    }

    /**
      `entitiesWithComponents(names, world)`: walks the first listed map in
      its order and keeps each entity that has every other listed component.
     */
    method EntitiesWithComponents(names: seq<Name>) returns (rows: seq<Row>)
      requires Valid()
      requires forall i :: 1 <= i < |names| ==> names[i] in components
      ensures rows == Join(components, names)
      ensures names == [] || names[0] !in components ==> rows == []
    {
      rows := [];
      if names == [] || names[0] !in components {
        return;
      }
      var first := components[names[0]];
      var k := 0;
      while k < |first.keys|
        invariant 0 <= k <= |first.keys|
        invariant rows == JoinKeys(components, names, first.keys[..k])
      {
        var entity := first.keys[k];
        assert entity in first.vals;
        var row := [first.vals[entity]];
        var i := 1;
        var found := true;
        while i < |names|
          invariant 1 <= i <= |names| && |row| == i && found
          invariant forall j :: 0 <= j < i ==> row[j] == Get(components, names[j], entity)
          invariant forall j :: 1 <= j < i ==> Has(components, names[j], entity)
        {
          var store := components[names[i]];
          if entity !in store.vals {
            found := false;
            break;
          }
          row := row + [store.vals[entity]];
          i := i + 1;
        }
        assert first.keys[..k + 1][..k] == first.keys[..k];
        if found {
          assert row == Values(components, names, entity);
          rows := rows + [Row(entity, row)];
        }
        k := k + 1;
      }
      assert first.keys[..k] == first.keys;
    }
  }
}
