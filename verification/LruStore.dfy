/**
 * The store that both LRU caches keep (src/cache.js, src/persistent-cache.js): a JavaScript `Map` in
 * insertion order, least recently used first. `GetFrom` and `SetIn` say what a read and a write do.
 */
module LruStore {
  import opened Wrappers
  import opened OrderedMap

  /** `expires` is a clock value, or `None` for the source's `Infinity`. */
  datatype Slot<V> = Slot(value: V, expires: Option<int>)

  type Store<K, V> = seq<Binding<K, Slot<V>>>

  /** A read at `now` treats the entry as gone. */
  predicate Stale<V>(s: Slot<V>, ttlMs: nat, now: int) {
    ttlMs > 0 && s.expires.Some? && s.expires.value <= now
  }

  function Expiry(ttlMs: nat, override: Option<int>, now: int): Option<int> {
    var effective := if override.Some? then override.value else ttlMs;
    if effective > 0 then Some(now + effective) else None
  }

  /** The newest `max` entries. */
  function Evicted<K, V>(m: Store<K, V>, max: nat): Store<K, V> {
    if |m| > max then m[|m| - max..] else m
  }

  /** The store and the answer after a read. */
  function GetFrom<K(==), V>(m: Store<K, V>, ttlMs: nat, k: K, now: int): (Store<K, V>, Option<V>) {
    match Lookup(m, k)
    case None => (m, None)
    case Some(s) =>
      if Stale(s, ttlMs, now) then (Remove(m, k), None)
      else (Remove(m, k) + [Binding(k, s)], Some(s.value))
  }

  function SetIn<K(==), V>(m: Store<K, V>, max: nat, ttlMs: nat, k: K, v: V, override: Option<int>, now: int): Store<K, V> {
    Evicted(Remove(m, k) + [Binding(k, Slot(v, Expiry(ttlMs, override, now)))], max)
  }

  // ---------- What a read or a write leaves of the other entries ----------

  lemma {:induction false} DropHolds<K, V>(m: Store<K, V>, d: nat, j: K)
    requires Distinct(m) && d <= |m|
    ensures Distinct(m[d..]) && (Has(m[d..], j) ==> Lookup(m[d..], j) == Lookup(m, j))
    decreases d
  {
    if d > 0 {
      DropHolds(m[1..], d - 1, j);
      assert m[1..][d - 1..] == m[d..];
    }
  }

  /** A read adds and changes no entry. */
  lemma GetHolds<K, V>(m: Store<K, V>, ttlMs: nat, k: K, now: int, j: K)
    requires Distinct(m)
    ensures var m' := GetFrom(m, ttlMs, k, now).0;
            Distinct(m') && (Has(m', j) ==> Lookup(m', j) == Lookup(m, j))
  {
    if Has(m, k) {
      var s := Lookup(m, k).value;
      DistinctRemove(m, k);
      LookupRemove(m, k, k);
      LookupRemove(m, k, j);
      DistinctAppend(Remove(m, k), k, s);
      LookupConcat(Remove(m, k), [Binding(k, s)], j);
    }
  }

  /** After a write, what is held is the new entry or one held before. */
  lemma SetHolds<K, V>(m: Store<K, V>, max: nat, ttlMs: nat, k: K, v: V, override: Option<int>, now: int, j: K)
    requires Distinct(m)
    ensures var m' := SetIn(m, max, ttlMs, k, v, override, now);
            Distinct(m') && (Has(m', j) ==>
              Lookup(m', j) == if j == k then Some(Slot(v, Expiry(ttlMs, override, now))) else Lookup(m, j))
  {
    var s := Slot(v, Expiry(ttlMs, override, now));
    var full := Remove(m, k) + [Binding(k, s)];
    DistinctRemove(m, k);
    LookupRemove(m, k, k);
    LookupRemove(m, k, j);
    DistinctAppend(Remove(m, k), k, s);
    LookupConcat(Remove(m, k), [Binding(k, s)], j);
    DropHolds(full, |full| - |Evicted(full, max)|, j);
  }
}
