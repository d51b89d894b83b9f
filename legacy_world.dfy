/**
  The array-based world of index.ts: an id counter, the array `entities` of
  created ids in creation order, and one map per component kind.
  `createEntity` appends the next id; `removeEntity` deletes the entity from
  every map and splices its first occurrence out of `entities`.
 */
module LegacyWorld {
  import opened Store

  /** The component maps of the old world. */
  datatype Kind =
    | PositionComponent | VelocityComponent | AccelerationComponent | ForceComponent | MassComponent
    | CanvasRenderComponent | JointComponent | UserControlComponent | CanvasTextComponent

  /** `entities.indexOf(e)`: the first index holding `e`, or `-1`. */
  function IndexOf(s: seq<int>, e: int): (i: int)
    ensures -1 <= i < |s|
    ensures i == -1 <==> e !in s
    ensures 0 <= i ==> s[i] == e && e !in s[..i]
  {
    if s == [] then -1
    else if s[0] == e then 0
    else
      var j := IndexOf(s[1..], e);
      assert j >= 0 ==> s[1..][..j] == s[1..j + 1];
      if j == -1 then -1 else j + 1
  }

  /** `entities` after `removeEntity(e)`: the first occurrence of `e` spliced out, if there is one. */
  function RemoveFirst(s: seq<int>, e: int): seq<int>
  {
    var p := IndexOf(s, e);
    if p == -1 then s else s[..p] + s[p + 1..]
  }

  /**
    Splicing out an absent entity changes nothing.  Splicing out a present
    one leaves one element fewer, and putting `e` back at its old index
    restores the array, so the other ids keep their relative order.
   */
  lemma {:induction false} RemoveFirstFacts(s: seq<int>, e: int)
    ensures e !in s ==> RemoveFirst(s, e) == s
    ensures e in s ==> |RemoveFirst(s, e)| == |s| - 1
    ensures e in s ==>
      var p := IndexOf(s, e);
      RemoveFirst(s, e)[..p] + [e] + RemoveFirst(s, e)[p..] == s
    ensures multiset(RemoveFirst(s, e)) == multiset(s) - multiset{e}
  {
    if e in s {
      var p := IndexOf(s, e);
      var r := RemoveFirst(s, e);
      assert r[..p] == s[..p];
      assert r[p..] == s[p + 1..];
      assert s == s[..p] + [e] + s[p + 1..];
      assert multiset(s) == multiset(s[..p]) + multiset{e} + multiset(s[p + 1..]);
    }
  }

  /** Cutting `s` around index `j + 1` is cutting its tail around index `j`, behind the head. */
  lemma SpliceTail(s: seq<int>, j: nat)
    requires j + 1 < |s|
    ensures s[..j + 1] + s[j + 2..] == [s[0]] + (s[1..][..j] + s[1..][j + 1..])
  {
    assert s[..j + 1] == [s[0]] + s[1..][..j];
    assert s[j + 2..] == s[1..][j + 1..];
  }

  /** Splicing from a list whose head is not `e` keeps the head and splices from the tail. */
  lemma {:induction false} RemoveFirstCons(s: seq<int>, e: int)
    requires s != [] && s[0] != e
    ensures RemoveFirst(s, e) == [s[0]] + RemoveFirst(s[1..], e)
  {
    var j := IndexOf(s[1..], e);
    assert IndexOf(s, e) == if j == -1 then -1 else j + 1;
    if j == -1 {
      assert s == [s[0]] + s[1..];
    } else {
      SpliceTail(s, j);
    }
  }

  /** On distinct ids the splice agrees with dropping every occurrence of `e`. */
  lemma {:induction false} RemoveFirstIsWithout(s: seq<int>, e: int)
    requires Distinct(s)
    ensures RemoveFirst(s, e) == Without(s, e)
  {
    if s != [] {
      var t := s[1..];
      assert Distinct(t) by {
        forall i, j | 0 <= i < j < |t| ensures t[i] != t[j] {
          assert t[i] == s[i + 1] && t[j] == s[j + 1];
        }
      }
      if s[0] == e {
        assert e !in t by {
          forall k | 0 <= k < |t| ensures t[k] != e {
            assert t[k] == s[k + 1];
          }
        }
        WithoutAbsent(t, e);
        assert RemoveFirst(s, e) == s[..0] + t;
      } else {
        RemoveFirstCons(s, e);
        RemoveFirstIsWithout(t, e);
      }
    }
  }

  /** With distinct ids, `e` is gone after the splice, the rest stay, and they stay distinct. */
  lemma {:induction false} RemoveFirstDistinct(s: seq<int>, e: int)
    requires Distinct(s)
    ensures e !in RemoveFirst(s, e)
    ensures Distinct(RemoveFirst(s, e))
    ensures forall x :: x in RemoveFirst(s, e) <==> x in s && x != e
  {
    RemoveFirstIsWithout(s, e);
    WithoutFacts(s, e);
  }

  /** The old world; `V` is the type of the component values. */
  class World<V> {
    var lastAssignedId: int
    var entities: seq<int>
    var components: map<Kind, map<int, V>>

    /** Created ids are distinct and none lies above the counter. */
    ghost predicate Valid()
      reads this
    {
      Distinct(entities) && forall i :: 0 <= i < |entities| ==> entities[i] <= lastAssignedId
    }

    /** A world with no entity and an empty map for each of `kinds`. */
    constructor (kinds: set<Kind>)
      ensures Valid()
      ensures lastAssignedId == 0 && entities == []
      ensures components == map k | k in kinds :: map[]
    {
      lastAssignedId := 0;
      entities := [];
      components := map k | k in kinds :: map[];
    }

    /** `createEntity`: the next id, appended to `entities`; no map changes. */
    method CreateEntity() returns (id: int)
      modifies this
      ensures id == old(lastAssignedId) + 1 && lastAssignedId == id
      ensures entities == old(entities) + [id]
      ensures components == old(components)
      ensures old(Valid()) ==> Valid() && id !in old(entities)
    {
      lastAssignedId := lastAssignedId + 1;
      id := lastAssignedId;
      entities := entities + [id];
    }

    /** `removeEntity(e)`: every map loses `e`, and its first occurrence leaves `entities`. */
    method RemoveEntity(e: int)
      modifies this
      ensures components.Keys == old(components).Keys
      ensures forall k :: k in components ==> components[k] == old(components)[k] - {e}
      ensures entities == RemoveFirst(old(entities), e)
      ensures lastAssignedId == old(lastAssignedId)
      ensures old(Valid()) ==> Valid() && e !in entities
    {
      ghost var c0 := components;
      var todo := components.Keys;
      while todo != {}
        invariant todo <= c0.Keys && components.Keys == c0.Keys
        invariant entities == old(entities) && lastAssignedId == old(lastAssignedId)
        invariant forall k :: k in c0 ==> components[k] == if k in todo then c0[k] else c0[k] - {e}
        decreases todo
      {
        var k :| k in todo;
        components := components[k := components[k] - {e}];
        todo := todo - {k};
      }
      var position := IndexOf(entities, e);
      if position != -1 {
        entities := entities[..position] + entities[position + 1..];
      }
      if old(Valid()) {
        RemoveFirstDistinct(old(entities), e);
        assert forall x :: x in entities ==> x in old(entities);
      }
    }
  }

  /** Removing an entity a second time changes nothing. */
  lemma {:induction false} RemoveTwice(s: seq<int>, e: int)
    requires Distinct(s)
    ensures RemoveFirst(RemoveFirst(s, e), e) == RemoveFirst(s, e)
  {
    RemoveFirstDistinct(s, e);
    RemoveFirstFacts(RemoveFirst(s, e), e);
  }
}
