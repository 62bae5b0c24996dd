/**
 * The JavaScript `Map` used for the viewer's model registry: entries in
 * insertion order, `set` overwriting in place and appending new keys,
 * `delete` removing the key's entry.
 */
module OrderedMap {
  import opened Wrappers

  function Keys<K, V>(m: seq<(K, V)>): (ks: seq<K>)
    ensures |ks| == |m|
    ensures forall i :: 0 <= i < |m| ==> ks[i] == m[i].0
  {
    if m == [] then [] else [m[0].0] + Keys(m[1..])
  }

  /** No key occurs twice: what every `Map` satisfies. */
  predicate NoDupKeys<K(==), V>(m: seq<(K, V)>) {
    forall i, j :: 0 <= i < j < |m| ==> m[i].0 != m[j].0
  }

  predicate HasKey<K(==), V>(m: seq<(K, V)>, k: K) {
    k in Keys(m)
  }

  /** `map.get(k)`. */
  function Get<K(==), V>(m: seq<(K, V)>, k: K): Option<V> {
    if m == [] then None
    else if m[0].0 == k then Some(m[0].1)
    else Get(m[1..], k)
  }

  /** `map.set(k, v)`. */
  function Set<K(==), V>(m: seq<(K, V)>, k: K, v: V): seq<(K, V)> {
    if m == [] then [(k, v)]
    else if m[0].0 == k then [(k, v)] + m[1..]
    else [m[0]] + Set(m[1..], k, v)
  }

  /** `map.delete(k)`. */
  function Delete<K(==), V>(m: seq<(K, V)>, k: K): seq<(K, V)> {
    if m == [] then []
    else if m[0].0 == k then Delete(m[1..], k)
    else [m[0]] + Delete(m[1..], k)
  }

  lemma {:induction false} GetSome<K, V>(m: seq<(K, V)>, k: K)
    ensures Get(m, k).Some? <==> HasKey(m, k)
  {
    if m != [] {
      GetSome(m[1..], k);
      assert Keys(m) == [m[0].0] + Keys(m[1..]);
    }
  }

  /** Looking a key up finds the value of the entry that holds it. */
  lemma {:induction false} GetAt<K, V>(m: seq<(K, V)>, i: nat)
    requires NoDupKeys(m) && i < |m|
    ensures Get(m, m[i].0) == Some(m[i].1)
  {
    if i > 0 {
      GetAt(m[1..], i - 1);
    }
  }

  /** After `set(k, v)`, `get(k)` is `v`. */
  lemma {:induction false} GetSetSame<K, V>(m: seq<(K, V)>, k: K, v: V)
    ensures Get(Set(m, k, v), k) == Some(v)
  {
    if m != [] && m[0].0 != k {
      GetSetSame(m[1..], k, v);
    }
  }

  /** `set(k, v)` leaves every other key's value as it was. */
  lemma {:induction false} GetSetOther<K, V>(m: seq<(K, V)>, k: K, v: V, k': K)
    requires k' != k
    ensures Get(Set(m, k, v), k') == Get(m, k')
  {
    if m != [] && m[0].0 != k {
      GetSetOther(m[1..], k, v, k');
    }
  }

  /** `set` keeps the position of a key already present and appends a new one. */
  lemma {:induction false} KeysSet<K, V>(m: seq<(K, V)>, k: K, v: V)
    ensures Keys(Set(m, k, v)) == if HasKey(m, k) then Keys(m) else Keys(m) + [k]
  {
    if m != [] {
      assert Keys(m) == [m[0].0] + Keys(m[1..]);
      if m[0].0 != k {
        KeysSet(m[1..], k, v);
        assert Keys(Set(m, k, v)) == [m[0].0] + Keys(Set(m[1..], k, v));
      } else {
        assert Keys(Set(m, k, v)) == [k] + Keys(m[1..]);
      }
    }
  }

  lemma SetNoDup<K, V>(m: seq<(K, V)>, k: K, v: V)
    requires NoDupKeys(m)
    ensures NoDupKeys(Set(m, k, v))
  {
    KeysSet(m, k, v);
    var s := Set(m, k, v);
    assert forall i :: 0 <= i < |s| ==> s[i].0 == Keys(s)[i];
    assert forall i :: 0 <= i < |m| ==> m[i].0 == Keys(m)[i];
  }

  /** After `delete(k)`, `get(k)` finds nothing. */
  lemma {:induction false} GetDeleteSame<K, V>(m: seq<(K, V)>, k: K)
    ensures Get(Delete(m, k), k) == None
  {
    if m != [] {
      GetDeleteSame(m[1..], k);
    }
  }

  /** `delete(k)` leaves every other key's value as it was. */
  lemma {:induction false} GetDeleteOther<K, V>(m: seq<(K, V)>, k: K, k': K)
    requires k' != k
    ensures Get(Delete(m, k), k') == Get(m, k')
  {
    if m != [] {
      GetDeleteOther(m[1..], k, k');
    }
  }

  /** `delete` keeps the order of the remaining entries. */
  lemma {:induction false} KeysDelete<K, V>(m: seq<(K, V)>, k: K, k': K)
    ensures k' in Keys(Delete(m, k)) <==> k' in Keys(m) && k' != k
  {
    if m != [] {
      KeysDelete(m[1..], k, k');
      assert Keys(m) == [m[0].0] + Keys(m[1..]);
      if m[0].0 != k {
        assert Keys(Delete(m, k)) == [m[0].0] + Keys(Delete(m[1..], k));
      }
    }
  }

  /** Deleting an absent key changes nothing. */
  lemma {:induction false} DeleteAbsent<K, V>(m: seq<(K, V)>, k: K)
    requires !HasKey(m, k)
    ensures Delete(m, k) == m
  {
    if m != [] {
      assert Keys(m) == [m[0].0] + Keys(m[1..]);
      DeleteAbsent(m[1..], k);
    }
  }

  /** In a map, deleting a present key removes exactly one entry. */
  lemma {:induction false} DeleteSize<K, V>(m: seq<(K, V)>, k: K)
    requires NoDupKeys(m)
    ensures |Delete(m, k)| == if HasKey(m, k) then |m| - 1 else |m|
  {
    if m != [] {
      assert Keys(m) == [m[0].0] + Keys(m[1..]);
      DeleteSize(m[1..], k);
      if m[0].0 == k {
        assert !HasKey(m[1..], k);
      }
    }
  }

  lemma {:induction false} DeleteKeys<K, V>(m: seq<(K, V)>, k: K)
    ensures forall k' :: k' in Keys(Delete(m, k)) <==> k' in Keys(m) && k' != k
  {
    forall k' ensures k' in Keys(Delete(m, k)) <==> k' in Keys(m) && k' != k {
      KeysDelete(m, k, k');
    }
  }

  lemma DeleteNoDup<K, V>(m: seq<(K, V)>, k: K)
    requires NoDupKeys(m)
    ensures NoDupKeys(Delete(m, k))
    decreases |m|
  {
    if m != [] {
      DeleteNoDup(m[1..], k);
      if m[0].0 != k {
        var d := Delete(m[1..], k);
        DeleteKeys(m[1..], k);
        forall i | 0 <= i < |d| ensures d[i].0 != m[0].0 {
          assert d[i].0 == Keys(d)[i];
          assert d[i].0 in Keys(m[1..]);
          var j :| 0 <= j < |m[1..]| && Keys(m[1..])[j] == d[i].0;
          assert m[1 + j].0 == d[i].0;
        }
      }
    }
  }

  /** Setting a key to the value it already has changes nothing. */
  lemma {:induction false} SetUnchanged<K, V>(m: seq<(K, V)>, k: K, v: V)
    requires Get(m, k) == Some(v)
    ensures Set(m, k, v) == m
  {
    if m[0].0 != k {
      SetUnchanged(m[1..], k, v);
    }
  }

  /** A second `set` of the same key overrides the first. */
  lemma {:induction false} SetSet<K, V>(m: seq<(K, V)>, k: K, v1: V, v2: V)
    ensures Set(Set(m, k, v1), k, v2) == Set(m, k, v2)
  {
    if m != [] && m[0].0 != k {
      SetSet(m[1..], k, v1, v2);
    }
  }
}
