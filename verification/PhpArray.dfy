/** PHP arrays used as dictionaries: insertion-ordered maps. Iteration order is
    visible to the code, so they are lists of pairs rather than Dafny maps. */
module PhpArray {
  import opened Options

  type Dict<K, V> = seq<(K, V)>

  function Get<K(==), V>(a: Dict<K, V>, k: K): Option<V> {
    if a == [] then None
    else if a[0].0 == k then Some(a[0].1)
    else Get(a[1..], k)
  }

  /** `isset($a[$k])` for values that are never null. */
  predicate Has<K(==), V>(a: Dict<K, V>, k: K) {
    Get(a, k).Some?
  }

  /** `$a[$k] = $v`: overwrite in place, or append a new key. */
  function Set<K(==), V>(a: Dict<K, V>, k: K, v: V): Dict<K, V> {
    if a == [] then [(k, v)]
    else if a[0].0 == k then [(k, v)] + a[1..]
    else [a[0]] + Set(a[1..], k, v)
  }

  /** `unset($a[$k])`. */
  function Unset<K(==), V>(a: Dict<K, V>, k: K): Dict<K, V> {
    if a == [] then []
    else if a[0].0 == k then Unset(a[1..], k)
    else [a[0]] + Unset(a[1..], k)
  }

  ghost predicate UniqueKeys<K, V>(a: Dict<K, V>) {
    forall i, j :: 0 <= i < j < |a| ==> a[i].0 != a[j].0
  }

  lemma GetSet<K, V>(a: Dict<K, V>, k: K, v: V, q: K)
    ensures Get(Set(a, k, v), q) == if q == k then Some(v) else Get(a, q)
  {
    if a != [] && a[0].0 != k { GetSet(a[1..], k, v, q); }
  }

  lemma GetUnset<K, V>(a: Dict<K, V>, k: K, q: K)
    ensures Get(Unset(a, k), q) == if q == k then None else Get(a, q)
  {
    if a != [] { GetUnset(a[1..], k, q); }
  }

  lemma GetIsMember<K, V>(a: Dict<K, V>, k: K)
    ensures Has(a, k) ==> (k, Get(a, k).value) in a
    ensures !Has(a, k) ==> forall i :: 0 <= i < |a| ==> a[i].0 != k
  {
    if a != [] { GetIsMember(a[1..], k); }
  }

  /** With unique keys, membership and lookup say the same. */
  lemma MemberIffGet<K, V>(a: Dict<K, V>, k: K, v: V)
    requires UniqueKeys(a)
    ensures (k, v) in a <==> Get(a, k) == Some(v)
  {
    GetIsMember(a, k);
    if (k, v) in a && Has(a, k) {
      var i :| 0 <= i < |a| && a[i] == (k, v);
      var j :| 0 <= j < |a| && a[j] == (k, Get(a, k).value);
    }
  }

  lemma {:induction false} SetMembers<K, V>(a: Dict<K, V>, k: K, v: V)
    ensures forall p :: p in Set(a, k, v) ==> p in a || p == (k, v)
    ensures UniqueKeys(a) ==> UniqueKeys(Set(a, k, v))
  {
    if a != [] && a[0].0 != k {
      SetMembers(a[1..], k, v);
      var rest := Set(a[1..], k, v);
      if UniqueKeys(a) {
        forall j | 0 <= j < |rest|
          ensures rest[j].0 != a[0].0
        {
          assert rest[j] in rest;
        }
      }
    }
  }

  lemma {:induction false} UnsetMembers<K, V>(a: Dict<K, V>, k: K)
    ensures forall i :: 0 <= i < |Unset(a, k)| ==> Unset(a, k)[i] in a && Unset(a, k)[i].0 != k
    ensures UniqueKeys(a) ==> UniqueKeys(Unset(a, k))
  {
    if a != [] {
      UnsetMembers(a[1..], k);
      var rest := Unset(a[1..], k);
      if UniqueKeys(a) {
        forall j | 0 <= j < |rest|
          ensures rest[j].0 != a[0].0
        {
          assert rest[j] in a[1..];
        }
      }
    }
  }
}
