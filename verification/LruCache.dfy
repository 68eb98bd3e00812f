/**
 * The in-memory LRU cache with a time to live (src/cache.js): the object that updates its store step
 * by step, and what holds of any run of it.
 */
module LruCache {
  import opened Wrappers
  import opened OrderedMap
  import opened LruStore

  class LRUCache<K(==), V> {
    const max: nat
    const ttlMs: nat
    var store: Store<K, V>

    /** The source throws unless `max > 0` and `ttlMs >= 0`. */
    constructor (max: nat, ttlMs: nat)
      requires max > 0
      ensures this.max == max && this.ttlMs == ttlMs && store == []
    {
      this.max := max;
      this.ttlMs := ttlMs;
      store := [];
    }

    method Get(k: K, now: int) returns (v: Option<V>)
      modifies this
      ensures (store, v) == GetFrom(old(store), ttlMs, k, now)
    {
      var entry := Lookup(store, k);
      if entry.None? { return None; }
      var e := entry.value.expires;
      if ttlMs > 0 && e.Some? && e.value <= now {
        store := Remove(store, k);
        return None;
      }
      PutLast(store, k, entry.value);
      store := Remove(store, k);
      store := Put(store, k, entry.value);
      return Some(entry.value.value);
    }

    method Set(k: K, v: V, override: Option<int>, now: int)
      modifies this
      ensures store == SetIn(old(store), max, ttlMs, k, v, override, now)
    {
      var effective := if override.Some? then override.value else ttlMs;
      var expires := if effective > 0 then Some(now + effective) else None;
      PutLast(store, k, Slot(v, expires));
      if Has(store, k) {
        store := Remove(store, k);
      }
      store := Put(store, k, Slot(v, expires));
      assert store == Remove(old(store), k) + [Binding(k, Slot(v, Expiry(ttlMs, override, now)))];
      EvictOldest();
    }

    /** The last loop of `Set`. */
    method EvictOldest()
      modifies this
      ensures store == Evicted(old(store), max)
    {
      ghost var dropped: nat := 0;
      while |store| > max
        invariant dropped <= |old(store)| && store == old(store)[dropped..]
        invariant dropped > 0 ==> |store| >= max
      {
        store := store[1..];
        dropped := dropped + 1;
      }
    }

    method Delete(k: K) returns (had: bool)
      modifies this
      ensures had == Has(old(store), k) && store == Remove(old(store), k)
    {
      had := Has(store, k);
      store := Remove(store, k);
    }

    method Clear()
      modifies this
      ensures store == []
    {
      store := [];
    }
  }

  // ---------- Runs ----------

  datatype Op<K, V> =
    | Get(k: K, now: int)
    | Set(k: K, v: V, override: Option<int>, now: int)
    | Delete(k: K)
    | Clear

  datatype Limits = Limits(max: nat, ttlMs: nat)

  function Apply<K(==), V>(m: Store<K, V>, c: Limits, op: Op<K, V>): Store<K, V> {
    match op
    case Get(k, now) => GetFrom(m, c.ttlMs, k, now).0
    case Set(k, v, override, now) => SetIn(m, c.max, c.ttlMs, k, v, override, now)
    case Delete(k) => Remove(m, k)
    case Clear => []
  }

  function Run<K(==), V>(m: Store<K, V>, c: Limits, ops: seq<Op<K, V>>): Store<K, V>
    decreases |ops|
  {
    if ops == [] then m else Run(Apply(m, c, ops[0]), c, ops[1..])
  }

  lemma {:induction false} RunOneMore<K, V>(m: Store<K, V>, c: Limits, ops: seq<Op<K, V>>, op: Op<K, V>)
    ensures Run(m, c, ops + [op]) == Apply(Run(m, c, ops), c, op)
    decreases |ops|
  {
    if ops == [] {
      assert [op][1..] == [] && [] + [op] == [op];
    } else {
      assert (ops + [op])[1..] == ops[1..] + [op] && (ops + [op])[0] == ops[0];
      RunOneMore(Apply(m, c, ops[0]), c, ops[1..], op);
    }
  }

  // ---------- Subsequences in recency order ----------

  ghost predicate Sub<K, V>(a: Store<K, V>, b: Store<K, V>) {
    a == [] || (b != [] && ((a[0] == b[0] && Sub(a[1..], b[1..])) || Sub(a, b[1..])))
  }

  lemma {:induction false} SubLookup<K, V>(a: Store<K, V>, b: Store<K, V>, k: K)
    requires Sub(a, b) && Distinct(b) && Has(a, k)
    ensures Lookup(b, k) == Lookup(a, k)
    decreases |b|
  {
    if Sub(a, b[1..]) {
      SubLookup(a, b[1..], k);
    } else if a[0].key != k {
      SubLookup(a[1..], b[1..], k);
    }
  }

  lemma {:induction false} SubTail<K, V>(a: Store<K, V>, b: Store<K, V>)
    requires Sub(a, b) && a != []
    ensures Sub(a[1..], b)
    decreases |b|
  {
    if Sub(a, b[1..]) {
      SubTail(a, b[1..]);
    }
  }

  lemma {:induction false} SubSmaller<K, V>(a: Store<K, V>, b: Store<K, V>)
    requires Sub(a, b)
    ensures |a| <= |b|
    decreases |b|
  {
    if a != [] {
      if Sub(a, b[1..]) {
        SubSmaller(a, b[1..]);
      } else {
        SubSmaller(a[1..], b[1..]);
      }
    }
  }

  lemma {:induction false} SubRemove<K, V>(a: Store<K, V>, b: Store<K, V>, k: K)
    requires Sub(a, b)
    ensures Sub(Remove(a, k), Remove(b, k))
    decreases |b|
  {
    if a != [] {
      var ra, rb := Remove(a[1..], k), Remove(b[1..], k);
      if Sub(a, b[1..]) {
        SubRemove(a, b[1..], k);
        assert b[0].key != k ==> Remove(b, k)[1..] == rb;
        assert b[0].key == k ==> Remove(b, k) == rb;
      } else {
        SubRemove(a[1..], b[1..], k);
        assert b[0].key != k ==> Remove(b, k)[1..] == rb && Remove(a, k)[1..] == ra;
        assert b[0].key == k ==> Remove(b, k) == rb && Remove(a, k) == ra;
      }
    }
  }

  lemma {:induction false} SubAppend<K, V>(a: Store<K, V>, b: Store<K, V>, e: Binding<K, Slot<V>>)
    requires Sub(a, b)
    ensures Sub(a + [e], b + [e]) && Sub(a, b + [e])
    decreases |b|
  {
    if b == [] {
    } else {
      assert (b + [e])[1..] == b[1..] + [e];
      if a == [] {
        SubAppend(a, b[1..], e);
      } else if Sub(a, b[1..]) {
        SubAppend(a, b[1..], e);
      } else {
        SubAppend(a[1..], b[1..], e);
        assert (a + [e])[1..] == a[1..] + [e];
      }
    }
  }

  // ---------- Inclusion ----------

  /** A smaller and a larger cache in step: the small one holds a subsequence of the large one's
      entries, each within its capacity, and the large one is ahead by no more than its extra room. */
  ghost predicate Included<K, V>(small: Store<K, V>, large: Store<K, V>, m: nat, n: nat) {
    && Distinct(small) && Distinct(large)
    && |small| <= m && |large| <= n
    && |large| - |small| <= n - m
    && Sub(small, large)
  }

  lemma {:induction false} SubLack<K, V>(a: Store<K, V>, b: Store<K, V>, k: K)
    requires Sub(a, b) && Distinct(b) && !Has(b, k)
    ensures !Has(a, k)
  {
    if Has(a, k) { SubLookup(a, b, k); }
  }

  lemma RemoveBoth<K, V>(small: Store<K, V>, large: Store<K, V>, m: nat, n: nat, k: K)
    requires m <= n && Included(small, large, m, n)
    ensures Included(Remove(small, k), Remove(large, k), m, n)
  {
    SubRemove(small, large, k);
    DistinctRemove(small, k);
    DistinctRemove(large, k);
    if !Has(large, k) { SubLack(small, large, k); }
  }

  lemma GetBoth<K, V>(small: Store<K, V>, large: Store<K, V>, m: nat, n: nat, ttlMs: nat, k: K, now: int)
    requires m <= n && Included(small, large, m, n)
    ensures Included(GetFrom(small, ttlMs, k, now).0, GetFrom(large, ttlMs, k, now).0, m, n)
  {
    if Has(small, k) { SubLookup(small, large, k); }
    if Has(large, k) {
      var s := Lookup(large, k).value;
      RemoveBoth(small, large, m, n, k);
      DistinctRemove(small, k);
      DistinctRemove(large, k);
      LookupRemove(small, k, k);
      LookupRemove(large, k, k);
      DistinctAppend(Remove(small, k), k, s);
      DistinctAppend(Remove(large, k), k, s);
      SubAppend(Remove(small, k), Remove(large, k), Binding(k, s));
      if !Has(small, k) { RemoveAbsent(small, k); }
    } else {
      SubLack(small, large, k);
    }
  }

  /** Inserting a key that neither cache holds. */
  lemma InsertBoth<K, V>(small: Store<K, V>, large: Store<K, V>, m: nat, n: nat, k: K, s: Slot<V>)
    requires 0 < m <= n && Included(small, large, m, n) && !Has(large, k)
    ensures Included(Evicted(small + [Binding(k, s)], m), Evicted(large + [Binding(k, s)], n), m, n)
  {
    var e := Binding(k, s);
    SubLack(small, large, k);
    DistinctAppend(small, k, s);
    DistinctAppend(large, k, s);
    SubAppend(small, large, e);
    SubSmaller(small, large);
    var a, b := small + [e], large + [e];
    if |a| > m { SubTail(a, b); }
    if |b| > n {
      assert |a| > m;
      DropHeads(a, b);
    }
  }

  /** Evicting from both sides at once keeps the subsequence. */
  lemma {:induction false} DropHeads<K, V>(a: Store<K, V>, b: Store<K, V>)
    requires Sub(a, b) && a != []
    ensures Sub(a[1..], b[1..])
  {
    if Sub(a, b[1..]) { SubTail(a, b[1..]); }
  }

  lemma SetBoth<K, V>(small: Store<K, V>, large: Store<K, V>, m: nat, n: nat, k: K, s: Slot<V>)
    requires 0 < m <= n && Included(small, large, m, n)
    ensures Included(Evicted(Remove(small, k) + [Binding(k, s)], m), Evicted(Remove(large, k) + [Binding(k, s)], n), m, n)
  {
    RemoveBoth(small, large, m, n, k);
    LookupRemove(large, k, k);
    InsertBoth(Remove(small, k), Remove(large, k), m, n, k, s);
  }

  /** The inclusion theorem: on any trace, with the same clock and time to live, a cache of capacity
      `m` holds at every point a recency-order subsequence of what a cache of capacity `n >= m` holds. */
  lemma {:induction false} Inclusion<K, V>(small: Store<K, V>, large: Store<K, V>, m: nat, n: nat, ttlMs: nat, ops: seq<Op<K, V>>)
    requires 0 < m <= n && Included(small, large, m, n)
    ensures Included(Run(small, Limits(m, ttlMs), ops), Run(large, Limits(n, ttlMs), ops), m, n)
    decreases |ops|
  {
    if ops != [] {
      match ops[0] {
        case Get(k, now) => GetBoth(small, large, m, n, ttlMs, k, now);
        case Set(k, v, override, now) => SetBoth(small, large, m, n, k, Slot(v, Expiry(ttlMs, override, now)));
        case Delete(k) => RemoveBoth(small, large, m, n, k);
        case Clear =>
      }
      Inclusion(Apply(small, Limits(m, ttlMs), ops[0]), Apply(large, Limits(n, ttlMs), ops[0]), m, n, ttlMs, ops[1..]);
    }
  }

  /** More room never loses a hit: after any trace, what the smaller cache answers, the larger one
      answers too, with the same value. */
  lemma BiggerNeverMisses<K, V>(m: nat, n: nat, ttlMs: nat, ops: seq<Op<K, V>>, k: K, now: int)
    requires 0 < m <= n
    ensures var small := Run([], Limits(m, ttlMs), ops);
            var large := Run([], Limits(n, ttlMs), ops);
            GetFrom(small, ttlMs, k, now).1.Some? ==>
              GetFrom(large, ttlMs, k, now).1 == GetFrom(small, ttlMs, k, now).1
  {
    Inclusion<K, V>([], [], m, n, ttlMs, ops);
    var small := Run([], Limits(m, ttlMs), ops);
    var large := Run([], Limits(n, ttlMs), ops);
    if Has(small, k) { SubLookup(small, large, k); }
  }

  // ---------- Least recently used goes first ----------

  /** The entries used more recently than `k`. */
  function Behind<K(==), V>(m: Store<K, V>, k: K): Store<K, V> {
    if m == [] then [] else if m[0].key == k then m[1..] else Behind(m[1..], k)
  }

  function Keys<K(==), V>(m: Store<K, V>): set<K> {
    if m == [] then {} else {m[0].key} + Keys(m[1..])
  }

  lemma {:induction false} KeysAreHeld<K, V>(m: Store<K, V>, j: K)
    ensures j in Keys(m) <==> Has(m, j)
  {
    if m != [] { KeysAreHeld(m[1..], j); }
  }

  lemma {:induction false} KeyCount<K, V>(m: Store<K, V>)
    requires Distinct(m)
    ensures |Keys(m)| == |m|
  {
    if m != [] {
      KeyCount(m[1..]);
      KeysAreHeld(m[1..], m[0].key);
    }
  }

  lemma {:induction false} KeysConcat<K, V>(m: Store<K, V>, n: Store<K, V>)
    ensures Keys(m + n) == Keys(m) + Keys(n)
  {
    if m == [] {
      assert m + n == n;
    } else {
      KeysConcat(m[1..], n);
      assert (m + n)[1..] == m[1..] + n;
    }
  }

  lemma {:induction false} KeysRemove<K, V>(m: Store<K, V>, j: K)
    ensures Keys(Remove(m, j)) == Keys(m) - {j}
  {
    if m != [] {
      KeysRemove(m[1..], j);
      var rest := Remove(m[1..], j);
      assert m[0].key != j ==> Remove(m, j)[1..] == rest;
      assert m[0].key == j ==> Remove(m, j) == rest;
    }
  }

  lemma {:induction false} BehindRemove<K, V>(m: Store<K, V>, k: K, j: K)
    requires j != k
    ensures Behind(Remove(m, j), k) == Remove(Behind(m, k), j)
  {
    if m != [] {
      BehindRemove(m[1..], k, j);
      var rest := Remove(m[1..], j);
      assert m[0].key != j ==> Remove(m, j)[1..] == rest;
      assert m[0].key == j ==> Remove(m, j) == rest;
    }
  }

  lemma {:induction false} BehindAppend<K, V>(m: Store<K, V>, k: K, e: Binding<K, Slot<V>>)
    requires Has(m, k)
    ensures Behind(m + [e], k) == Behind(m, k) + [e]
  {
    assert (m + [e])[1..] == m[1..] + [e];
    if m[0].key != k { BehindAppend(m[1..], k, e); }
  }

  /** Dropping the oldest entries spares `k` as long as `k` and those behind it are kept. */
  lemma {:induction false} DropSpares<K, V>(m: Store<K, V>, k: K, d: nat)
    requires Distinct(m) && Has(m, k) && d + |Behind(m, k)| < |m|
    ensures Distinct(m[d..]) && Lookup(m[d..], k) == Lookup(m, k) && Behind(m[d..], k) == Behind(m, k)
    decreases d
  {
    if d > 0 {
      assert m[0].key != k;
      DropSpares(m[1..], k, d - 1);
      assert m[1..][d - 1..] == m[d..];
    }
  }

  lemma {:induction false} DropLoses<K, V>(m: Store<K, V>, k: K, d: nat)
    requires Distinct(m) && d <= |m| <= d + |Behind(m, k)|
    ensures !Has(m[d..], k)
    decreases d
  {
    DistinctBehind(m, k);
    if d > 0 {
      assert m[1..][d - 1..] == m[d..];
      if m[0].key == k {
        DropHolds(m[1..], d - 1, k);
      } else {
        DropLoses(m[1..], k, d - 1);
      }
    }
  }

  /** Eviction keeps exactly the entries with fewer than `max` others behind them. */
  lemma EvictionKeepsIff<K, V>(m: Store<K, V>, k: K, max: nat)
    requires Distinct(m) && Has(m, k) && max > 0
    ensures Has(Evicted(m, max), k) <==> |Behind(m, k)| < max
    ensures Has(Evicted(m, max), k) ==> Lookup(Evicted(m, max), k) == Lookup(m, k)
  {
    DistinctBehind(m, k);
    if |m| > max {
      var d := |m| - max;
      assert Evicted(m, max) == m[d..];
      if |Behind(m, k)| < max { DropSpares(m, k, d); } else { DropLoses(m, k, d); }
    }
  }

  lemma {:induction false} DistinctBehind<K, V>(m: Store<K, V>, k: K)
    requires Distinct(m)
    ensures Distinct(Behind(m, k)) && |Behind(m, k)| <= |m|
    ensures Has(m, k) ==> |Behind(m, k)| < |m|
  {
    if m != [] { DistinctBehind(m[1..], k); }
  }

  /** `k` is held as `s`, and only keys of `used` have been used since `k` was. */
  ghost predicate Recent<K, V>(m: Store<K, V>, k: K, s: Slot<V>, used: set<K>) {
    Distinct(m) && Lookup(m, k) == Some(s) && Keys(Behind(m, k)) <= used
  }

  lemma RecentAfterUse<K, V>(m: Store<K, V>, k: K, s: Slot<V>, used: set<K>, j: K, t: Slot<V>)
    requires Recent(m, k, s, used) && j in used && k !in used
    ensures Recent(Remove(m, j) + [Binding(j, t)], k, s, used)
  {
    var r := Remove(m, j);
    DistinctRemove(m, j);
    LookupRemove(m, j, j);
    LookupRemove(m, j, k);
    DistinctAppend(r, j, t);
    LookupConcat(r, [Binding(j, t)], k);
    BehindRemove(m, k, j);
    BehindAppend(r, k, Binding(j, t));
    KeysRemove(Behind(m, k), j);
    KeysConcat(Behind(r, k), [Binding(j, t)]);
  }

  lemma RecentAfterRemove<K, V>(m: Store<K, V>, k: K, s: Slot<V>, used: set<K>, j: K)
    requires Recent(m, k, s, used) && j != k
    ensures Recent(Remove(m, j), k, s, used)
  {
    DistinctRemove(m, j);
    LookupRemove(m, j, k);
    BehindRemove(m, k, j);
    KeysRemove(Behind(m, k), j);
  }

  lemma SubsetSmaller<T>(a: set<T>, b: set<T>)
    requires a <= b
    ensures |a| <= |b|
    decreases |b|
  {
    if x :| x in b {
      SubsetSmaller(a - {x}, b - {x});
    }
  }

  lemma RecentAfterEviction<K, V>(m: Store<K, V>, k: K, s: Slot<V>, used: set<K>, max: nat)
    requires Recent(m, k, s, used) && |used| < max
    ensures Recent(Evicted(m, max), k, s, used)
  {
    DistinctBehind(m, k);
    KeyCount(Behind(m, k));
    SubsetSmaller(Keys(Behind(m, k)), used);
    if |m| > max { DropSpares(m, k, |m| - max); }
  }

  /** The operation uses no key outside `used`, and does nothing to `k`, held as `s`, but read it before it
      expires. */
  predicate Elsewhere<K(==), V>(op: Op<K, V>, ttlMs: nat, k: K, s: Slot<V>, used: set<K>) {
    match op
    case Get(j, now) => j in used || (j == k && !Stale(s, ttlMs, now))
    case Set(j, _, _, _) => j in used
    case Delete(j) => j != k
    case Clear => false
  }

  lemma RecentAfterRead<K, V>(m: Store<K, V>, k: K, s: Slot<V>, used: set<K>)
    requires Recent(m, k, s, used)
    ensures Recent(Remove(m, k) + [Binding(k, s)], k, s, used)
  {
    MovedLast(m, k, s);
  }

  lemma MovedLast<K, V>(m: Store<K, V>, k: K, s: Slot<V>)
    requires Distinct(m)
    ensures Recent(Remove(m, k) + [Binding(k, s)], k, s, {})
  {
    var r := Remove(m, k);
    DistinctRemove(m, k);
    LookupRemove(m, k, k);
    DistinctAppend(r, k, s);
    LookupConcat(r, [Binding(k, s)], k);
    LastHasNoneBehind(r, Binding(k, s));
  }

  /** The least recently used entry goes first: an entry is never evicted while fewer than `max`
      other keys have been used since it was, whatever the order of the uses. */
  lemma {:induction false} RecentlyUsedStays<K, V>(m: Store<K, V>, c: Limits, ops: seq<Op<K, V>>, k: K, s: Slot<V>, used: set<K>)
    requires Recent(m, k, s, used) && k !in used && |used| < c.max
    requires forall op | op in ops :: Elsewhere(op, c.ttlMs, k, s, used)
    ensures Lookup(Run(m, c, ops), k) == Some(s)
    decreases |ops|
  {
    if ops != [] {
      assert ops[0] in ops && forall op | op in ops[1..] :: op in ops;
      StepStays(m, c, ops[0], k, s, used);
      RecentlyUsedStays(Apply(m, c, ops[0]), c, ops[1..], k, s, used);
    }
  }

  lemma StepStays<K, V>(m: Store<K, V>, c: Limits, op: Op<K, V>, k: K, s: Slot<V>, used: set<K>)
    requires Recent(m, k, s, used) && k !in used && |used| < c.max && Elsewhere(op, c.ttlMs, k, s, used)
    ensures Recent(Apply(m, c, op), k, s, used)
  {
    match op {
      case Get(j, now) =>
        if j == k {
          RecentAfterRead(m, k, s, used);
        } else if Has(m, j) {
          RecentAfterUse(m, k, s, used, j, Lookup(m, j).value);
          RecentAfterRemove(m, k, s, used, j);
        }
      case Set(j, v, override, now) =>
        var t := Slot(v, Expiry(c.ttlMs, override, now));
        RecentAfterUse(m, k, s, used, j, t);
        RecentAfterEviction(Remove(m, j) + [Binding(j, t)], k, s, used, c.max);
      case Delete(j) => RecentAfterRemove(m, k, s, used, j);
    }
  }

  /** From a fresh write: `k` is still held after any operations that use fewer than `max` other keys. */
  lemma WrittenStays<K, V>(m: Store<K, V>, c: Limits, ops: seq<Op<K, V>>, k: K, v: V, override: Option<int>, now: int, used: set<K>)
    requires Distinct(m) && k !in used && |used| < c.max
    requires forall op | op in ops :: Elsewhere(op, c.ttlMs, k, Slot(v, Expiry(c.ttlMs, override, now)), used)
    ensures Lookup(Run(SetIn(m, c.max, c.ttlMs, k, v, override, now), c, ops), k)
         == Some(Slot(v, Expiry(c.ttlMs, override, now)))
  {
    var s := Slot(v, Expiry(c.ttlMs, override, now));
    MovedLast(m, k, s);
    RecentAfterEviction(Remove(m, k) + [Binding(k, s)], k, s, used, c.max);
    RecentlyUsedStays(SetIn(m, c.max, c.ttlMs, k, v, override, now), c, ops, k, s, used);
  }

  /** From a read that hits: `k` stays as after a fresh write. */
  lemma ReadStays<K, V>(m: Store<K, V>, c: Limits, ops: seq<Op<K, V>>, k: K, now: int, used: set<K>)
    requires Distinct(m) && k !in used && |used| < c.max
    requires GetFrom(m, c.ttlMs, k, now).1.Some?
    requires forall op | op in ops :: Elsewhere(op, c.ttlMs, k, Lookup(m, k).value, used)
    ensures Lookup(Run(GetFrom(m, c.ttlMs, k, now).0, c, ops), k) == Lookup(m, k)
  {
    var s := Lookup(m, k).value;
    MovedLast(m, k, s);
    RecentlyUsedStays(Remove(m, k) + [Binding(k, s)], c, ops, k, s, used);
  }

  /** What a read answers after a write: the value written, until its time to live - its own, or else the
      cache's - has passed; for ever if that is not positive, or if the cache has none. */
  lemma WrittenIsRead<K, V>(m: Store<K, V>, c: Limits, ops: seq<Op<K, V>>, k: K, v: V, override: Option<int>, now: int,
                            used: set<K>, later: int)
    requires Distinct(m) && k !in used && |used| < c.max
    requires forall op | op in ops :: Elsewhere(op, c.ttlMs, k, Slot(v, Expiry(c.ttlMs, override, now)), used)
    ensures var after := Run(SetIn(m, c.max, c.ttlMs, k, v, override, now), c, ops);
            var life := if override.Some? then override.value else c.ttlMs;
            GetFrom(after, c.ttlMs, k, later).1 ==
              if c.ttlMs > 0 && life > 0 && later >= now + life then None else Some(v)
  {
    WrittenStays(m, c, ops, k, v, override, now, used);
  }

  /** A key that was deleted, or cleared away, is not answered. */
  lemma DeletedIsMissed<K, V>(m: Store<K, V>, c: Limits, k: K, now: int)
    ensures GetFrom(Apply(m, c, Op<K, V>.Delete(k)), c.ttlMs, k, now).1 == None
    ensures GetFrom(Apply(m, c, Op<K, V>.Clear), c.ttlMs, k, now).1 == None
  {
    LookupRemove(m, k, k);
  }

  lemma {:induction false} LastHasNoneBehind<K, V>(m: Store<K, V>, e: Binding<K, Slot<V>>)
    requires !Has(m, e.key)
    ensures Behind(m + [e], e.key) == []
  {
    if m != [] {
      assert (m + [e])[1..] == m[1..] + [e];
      LastHasNoneBehind(m[1..], e);
    }
  }
}
