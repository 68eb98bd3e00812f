/**
 * A JavaScript `Map` as a value: its bindings in insertion order. `Put` overwrites an existing key
 * in place, as `Map.set` does; a key moves to the end only when it is removed first.
 */
module OrderedMap {
  import opened Wrappers

  datatype Binding<K, V> = Binding(key: K, value: V)

  function Lookup<K(==), V>(m: seq<Binding<K, V>>, k: K): Option<V> {
    if m == [] then None else if m[0].key == k then Some(m[0].value) else Lookup(m[1..], k)
  }

  predicate Has<K(==), V>(m: seq<Binding<K, V>>, k: K) {
    Lookup(m, k).Some?
  }

  function Remove<K(==), V>(m: seq<Binding<K, V>>, k: K): seq<Binding<K, V>> {
    if m == [] then [] else (if m[0].key == k then [] else [m[0]]) + Remove(m[1..], k)
  }

  function Put<K(==), V>(m: seq<Binding<K, V>>, k: K, v: V): seq<Binding<K, V>> {
    if m == [] then [Binding(k, v)]
    else if m[0].key == k then [Binding(k, v)] + m[1..]
    else [m[0]] + Put(m[1..], k, v)
  }

  /** Every key once. */
  ghost predicate Distinct<K, V>(m: seq<Binding<K, V>>) {
    m == [] || (!Has(m[1..], m[0].key) && Distinct(m[1..]))
  }

  lemma {:induction false} LookupRemove<K, V>(m: seq<Binding<K, V>>, k: K, j: K)
    ensures Lookup(Remove(m, k), j) == if j == k then None else Lookup(m, j)
  {
    if m != [] {
      LookupRemove(m[1..], k, j);
      var rest := Remove(m[1..], k);
      assert m[0].key != k ==> Remove(m, k) == [m[0]] + rest && Remove(m, k)[1..] == rest;
      assert m[0].key == k ==> Remove(m, k) == rest;
    }
  }

  lemma {:induction false} LookupConcat<K, V>(m: seq<Binding<K, V>>, n: seq<Binding<K, V>>, j: K)
    ensures Lookup(m + n, j) == if Has(m, j) then Lookup(m, j) else Lookup(n, j)
  {
    if m == [] {
      assert m + n == n;
    } else {
      LookupConcat(m[1..], n, j);
      assert (m + n)[1..] == m[1..] + n;
    }
  }

  lemma {:induction false} LookupPut<K, V>(m: seq<Binding<K, V>>, k: K, v: V, j: K)
    ensures Lookup(Put(m, k, v), j) == if j == k then Some(v) else Lookup(m, j)
  {
    if m != [] {
      LookupPut(m[1..], k, v, j);
      assert m[0].key == k ==> Put(m, k, v)[1..] == m[1..];
      assert m[0].key != k ==> Put(m, k, v)[1..] == Put(m[1..], k, v);
    }
  }

  lemma {:induction false} DistinctRemove<K, V>(m: seq<Binding<K, V>>, k: K)
    requires Distinct(m)
    ensures Distinct(Remove(m, k))
    ensures |Remove(m, k)| == |m| - if Has(m, k) then 1 else 0
  {
    if m != [] {
      DistinctRemove(m[1..], k);
      LookupRemove(m[1..], k, m[0].key);
      var rest := Remove(m[1..], k);
      assert m[0].key != k ==> Remove(m, k) == [m[0]] + rest && Remove(m, k)[1..] == rest;
      assert m[0].key == k ==> Remove(m, k) == rest;
    }
  }

  lemma {:induction false} DistinctAppend<K, V>(m: seq<Binding<K, V>>, k: K, v: V)
    requires Distinct(m) && !Has(m, k)
    ensures Distinct(m + [Binding(k, v)])
  {
    if m != [] {
      DistinctAppend(m[1..], k, v);
      LookupConcat(m[1..], [Binding(k, v)], m[0].key);
      assert (m + [Binding(k, v)])[1..] == m[1..] + [Binding(k, v)];
    }
  }

  lemma {:induction false} DistinctPut<K, V>(m: seq<Binding<K, V>>, k: K, v: V)
    requires Distinct(m)
    ensures Distinct(Put(m, k, v))
  {
    if m != [] && m[0].key != k {
      DistinctPut(m[1..], k, v);
      LookupPut(m[1..], k, v, m[0].key);
      assert Put(m, k, v)[1..] == Put(m[1..], k, v);
    } else if m != [] {
      assert Put(m, k, v)[1..] == m[1..];
    }
  }

  lemma {:induction false} PutNew<K, V>(m: seq<Binding<K, V>>, k: K, v: V)
    requires !Has(m, k)
    ensures Put(m, k, v) == m + [Binding(k, v)]
  {
    if m != [] {
      PutNew(m[1..], k, v);
    }
  }

  lemma {:induction false} RemoveAbsent<K, V>(m: seq<Binding<K, V>>, k: K)
    requires !Has(m, k)
    ensures Remove(m, k) == m
  {
    if m != [] {
      RemoveAbsent(m[1..], k);
    }
  }

  /** The keys in their order. */
  function KeyOrder<K, V>(m: seq<Binding<K, V>>): seq<K> {
    if m == [] then [] else [m[0].key] + KeyOrder(m[1..])
  }

  /** The keys but one, in the same order. */
  function Skipping<K(==)>(ks: seq<K>, k: K): seq<K> {
    if ks == [] then [] else (if ks[0] == k then [] else [ks[0]]) + Skipping(ks[1..], k)
  }

  /** Setting a key that is there leaves every key in its place; setting a new one puts it last. */
  lemma {:induction false} PutKeepsOrder<K, V>(m: seq<Binding<K, V>>, k: K, v: V)
    ensures KeyOrder(Put(m, k, v)) == KeyOrder(m) + if Has(m, k) then [] else [k]
  {
    if m != [] && m[0].key != k {
      PutKeepsOrder(m[1..], k, v);
      assert Put(m, k, v)[1..] == Put(m[1..], k, v);
    } else if m != [] {
      assert Put(m, k, v)[1..] == m[1..];
    }
  }

  lemma {:induction false} RemoveKeepsOrder<K, V>(m: seq<Binding<K, V>>, k: K)
    ensures KeyOrder(Remove(m, k)) == Skipping(KeyOrder(m), k)
  {
    if m != [] {
      RemoveKeepsOrder(m[1..], k);
      var rest := Remove(m[1..], k);
      assert KeyOrder(m)[1..] == KeyOrder(m[1..]);
      assert m[0].key != k ==> Remove(m, k)[1..] == rest;
      assert m[0].key == k ==> Remove(m, k) == rest;
    }
  }

  /** Deleting a key and setting it again moves it to the end. */
  lemma PutLast<K, V>(m: seq<Binding<K, V>>, k: K, v: V)
    ensures Put(if Has(m, k) then Remove(m, k) else m, k, v) == Remove(m, k) + [Binding(k, v)]
  {
    LookupRemove(m, k, k);
    PutNew(Remove(m, k), k, v);
    if !Has(m, k) { RemoveAbsent(m, k); }
  }
}
