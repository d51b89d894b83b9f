/**
  Component storage: a JavaScript `Map<Entity, V>`.  Besides its entries a
  `Map` has an iteration order, the order in which keys were first
  inserted; overwriting an entry keeps its place, deleting it drops it.
 */
module Store {

  /** `keys` is the iteration order of the map, `vals` its entries. */
  datatype Store<V> = Store(keys: seq<int>, vals: map<int, V>) {

    /** Every entry is visited exactly once. */
    ghost predicate Valid()
    {
      && Distinct(keys)
      && (forall e :: e in vals <==> e in keys)
    }

    /** `map.set(e, v)`: a new key goes to the end; an existing key keeps its place. */
    function Set(e: int, v: V): (s: Store<V>)
      ensures Valid() ==> s.Valid()
      ensures s.vals == vals[e := v]
      ensures e in vals ==> s.keys == keys
      ensures e !in vals ==> s.keys == keys + [e]
    {
      if e in vals then Store(keys, vals[e := v])
      else
        assert Valid() ==> forall i :: 0 <= i < |keys| ==> keys[i] != e;
        Store(keys + [e], vals[e := v])
    }

    /** `map.delete(e)`: the entry goes; the others keep their relative order. */
    function Delete(e: int): (s: Store<V>)
      ensures Valid() ==> s.Valid()
      ensures s.vals == vals - {e}
      ensures s.keys == Without(keys, e)
      ensures Valid() && e !in vals ==> s == this
    {
      WithoutFacts(keys, e);
      Store(Without(keys, e), vals - {e})
    }
  }

  /** `new Map()`, and the map after `map.clear()`. */
  function Empty<V>(): (s: Store<V>)
    ensures s.Valid() && s.vals == map[] && s.keys == []
  {
    Store([], map[])
  }

  /** Every key of the iteration order has an entry. */
  lemma KeysIn<V>(s: Store<V>)
    requires s.Valid()
    ensures forall k :: 0 <= k < |s.keys| ==> s.keys[k] in s.vals
  {
    forall k | 0 <= k < |s.keys|
      ensures s.keys[k] in s.vals
    {
      assert s.keys[k] in s.keys;
    }
  }

  lemma TakeAll<T>(s: seq<T>)
    ensures s[..|s|] == s
  {
  }

  /** Two maps with the same keys and the same entries are equal. */
  lemma SameMap<V>(a: map<int, V>, b: map<int, V>)
    requires forall e :: e in a <==> e in b
    requires forall e :: e in a ==> a[e] == b[e]
    ensures a == b
  {
    assert forall e :: e in a.Keys <==> e in b.Keys;
    assert a.Keys == b.Keys;
    assert forall e :: e in a.Keys ==> a[e] == b[e];
  }

  predicate Distinct(s: seq<int>)
  {
    forall i, j :: 0 <= i < j < |s| ==> s[i] != s[j]
  }

  /** A prefix of a sequence without repeats has none, and the next element is not in it. */
  lemma DistinctPrefix(s: seq<int>, k: nat)
    requires Distinct(s) && k < |s|
    ensures Distinct(s[..k]) && s[k] !in s[..k]
  {
    assert forall i :: 0 <= i < k ==> s[..k][i] == s[i];
  }

  /** `s` with every occurrence of `e` removed, the rest in their order. */
  function Without(s: seq<int>, e: int): (r: seq<int>)
    ensures forall x :: x in r <==> x in s && x != e
    ensures |r| <= |s|
  {
    if s == [] then []
    else if s[0] == e then Without(s[1..], e)
    else [s[0]] + Without(s[1..], e)
  }

  lemma {:induction false} WithoutDistinct(s: seq<int>, e: int)
    requires Distinct(s)
    ensures Distinct(Without(s, e))
  {
    if s != [] {
      assert Distinct(s[1..]) by {
        forall i, j | 0 <= i < j < |s[1..]| ensures s[1..][i] != s[1..][j] {
          assert s[1..][i] == s[i + 1] && s[1..][j] == s[j + 1];
        }
      }
      WithoutDistinct(s[1..], e);
      if s[0] != e {
        var r := Without(s[1..], e);
        assert s[0] !in r by {
          forall k | 1 <= k < |s| ensures s[k] != s[0] { }
          assert s[0] !in s[1..];
        }
        forall i, j | 0 <= i < j < |[s[0]] + r| ensures ([s[0]] + r)[i] != ([s[0]] + r)[j] {
          if i == 0 {
            assert ([s[0]] + r)[j] == r[j - 1];
          } else {
            assert ([s[0]] + r)[i] == r[i - 1] && ([s[0]] + r)[j] == r[j - 1];
          }
        }
      }
    }
  }

  lemma WithoutFacts(s: seq<int>, e: int)
    ensures Distinct(s) ==> Distinct(Without(s, e))
    ensures e !in s ==> Without(s, e) == s
  {
    if Distinct(s) {
      WithoutDistinct(s, e);
    }
    if e !in s {
      WithoutAbsent(s, e);
    }
  }

  lemma {:induction false} WithoutAbsent(s: seq<int>, e: int)
    requires e !in s
    ensures Without(s, e) == s
  {
    if s != [] {
      assert e !in s[1..];
      WithoutAbsent(s[1..], e);
      assert [s[0]] + s[1..] == s;
    }
  }

  /** Deleting a key twice is the same as deleting it once. */
  lemma DeleteIdempotent<V>(s: Store<V>, e: int)
    requires s.Valid()
    ensures s.Delete(e).Delete(e) == s.Delete(e)
  {
  }

  /** Overwriting the entry of an existing key changes nothing but that entry. */
  lemma SetExistingKeepsOrder<V>(s: Store<V>, e: int, v: V)
    requires s.Valid() && e in s.vals
    ensures s.Set(e, v).keys == s.keys
    ensures forall x :: x in s.vals && x != e ==> s.Set(e, v).vals[x] == s.vals[x]
  {
  }
}
