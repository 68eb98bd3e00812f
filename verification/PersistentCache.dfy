/**
 * The persistent LRU cache over an append log (src/persistent-cache.js, JSONL backend).
 *
 * The file is a sequence of records that one writer appends to and replaces atomically. `Cache` is
 * the cache as a value: the live store, the file, and the writes since the last compaction.
 * Evictions and recency refreshes change the store only; they are never logged.
 */
module PersistentCache {
  import opened Wrappers
  import opened OrderedMap
  import opened LruStore
  import LruCache

  datatype Record<K, V> = SetRecord(k: K, slot: Slot<V>) | DelRecord(k: K) | ClearRecord

  datatype Config = Config(max: nat, ttlMs: nat, compactEveryWrites: int)

  datatype Cache<K, V> = Cache(store: Store<K, V>, file: seq<Record<K, V>>, writes: nat)

  // ---------- Replay ----------

  function Replayed<K(==), V>(m: Store<K, V>, r: Record<K, V>, ttlMs: nat, now: int): Store<K, V> {
    match r
    case SetRecord(k, s) => if Stale(s, ttlMs, now) then Remove(m, k) else Put(m, k, s)
    case DelRecord(k) => Remove(m, k)
    case ClearRecord => []
  }

  function Replay<K(==), V>(file: seq<Record<K, V>>, ttlMs: nat, now: int): Store<K, V> {
    if file == [] then []
    else Replayed(Replay(file[..|file| - 1], ttlMs, now), file[|file| - 1], ttlMs, now)
  }

  /** What the file last says about a key, whether expired or not. */
  function LastWrite<K(==), V>(file: seq<Record<K, V>>, k: K): Option<Slot<V>> {
    if file == [] then None
    else
      match file[|file| - 1]
      case SetRecord(j, s) => if j == k then Some(s) else LastWrite(file[..|file| - 1], k)
      case DelRecord(j) => if j == k then None else LastWrite(file[..|file| - 1], k)
      case ClearRecord => None
  }

  function Unexpired<V>(s: Option<Slot<V>>, ttlMs: nat, now: int): Option<Slot<V>> {
    if s.Some? && Stale(s.value, ttlMs, now) then None else s
  }

  /** The records a compaction writes. */
  function Snapshot<K, V>(m: Store<K, V>): seq<Record<K, V>> {
    if m == [] then [] else Snapshot(m[..|m| - 1]) + [SetRecord(m[|m| - 1].key, m[|m| - 1].value)]
  }

  // ---------- The operations ----------

  function Compacted<K, V>(s: Cache<K, V>): Cache<K, V> {
    s.(file := Snapshot(s.store), writes := 0)
  }

  /** One record more in the file, before any compaction. */
  function Logged<K, V>(s: Cache<K, V>, r: Record<K, V>): Cache<K, V> {
    s.(file := s.file + [r], writes := s.writes + 1)
  }

  function Append<K, V>(s: Cache<K, V>, c: Config, r: Record<K, V>): Cache<K, V> {
    var t := Logged(s, r);
    if t.writes >= c.compactEveryWrites then Compacted(t) else t
  }

  function Trim<K, V>(s: Cache<K, V>, c: Config): Cache<K, V> {
    s.(store := Evicted(s.store, c.max))
  }

  function Opened<K(==), V>(file: seq<Record<K, V>>, c: Config, now: int): Cache<K, V> {
    Trim(Cache(Replay(file, c.ttlMs, now), file, 0), c)
  }

  datatype Op<K, V> =
    | Get(k: K, now: int)
    | Set(k: K, v: V, override: Option<int>, now: int)
    | Delete(k: K)
    | Clear
    | Reopen(now: int)

  /** What an operation does to the store in memory before it touches the file, and the record it
      then appends, if any. */
  function InMemory<K(==), V>(m: Store<K, V>, c: Config, op: Op<K, V>): (Store<K, V>, Option<Record<K, V>>)
    requires !op.Reopen?
  {
    match op
    case Get(k, now) =>
      if Has(m, k) && Stale(Lookup(m, k).value, c.ttlMs, now)
      then (Remove(m, k), Some(DelRecord(k)))
      else (GetFrom(m, c.ttlMs, k, now).0, None)
    case Set(k, v, override, now) =>
      var s := Slot(v, Expiry(c.ttlMs, override, now));
      (Remove(m, k) + [Binding(k, s)], Some(SetRecord(k, s)))
    case Delete(k) => (Remove(m, k), Some(DelRecord(k)))
    case Clear => ([], Some(ClearRecord))
  }

  /** The states an operation passes through once its record is written: after the append, after the
      compaction's rename if there is one, and after the eviction, which is where it ends. A crash may
      leave the file as it is at any of them. */
  function Moments<K(==), V>(s: Cache<K, V>, c: Config, op: Op<K, V>): (ms: seq<Cache<K, V>>)
    ensures |ms| == 3
  {
    if op.Reopen? then
      var loaded := Cache(Replay(s.file, c.ttlMs, op.now), s.file, 0);
      [loaded, loaded, Trim(loaded, c)]
    else
      var (m, r) := InMemory(s.store, c, op);
      var before := s.(store := m);
      if r.None? then [before, before, before]
      else
        var after := Append(before, c, r.value);
        [Logged(before, r.value), after, if op.Set? then Trim(after, c) else after]
  }

  function Apply<K(==), V>(s: Cache<K, V>, c: Config, op: Op<K, V>): Cache<K, V> {
    Moments(s, c, op)[2]
  }

  function Run<K(==), V>(s: Cache<K, V>, c: Config, ops: seq<Op<K, V>>): Cache<K, V> {
    if ops == [] then s else Apply(Run(s, c, ops[..|ops| - 1]), c, ops[|ops| - 1])
  }

  lemma SetApplied<K, V>(s: Cache<K, V>, c: Config, k: K, v: V, override: Option<int>, now: int)
    ensures var slot := Slot(v, Expiry(c.ttlMs, override, now));
            Apply(s, c, Set(k, v, override, now)) ==
            Trim(Append(s.(store := Remove(s.store, k) + [Binding(k, slot)]), c, SetRecord(k, slot)), c)
  {
  }

  // ---------- The object ----------

  class PersistentLRU<K(==), V> {
    const max: nat
    const ttlMs: nat
    const compactEveryWrites: int
    var store: Store<K, V>
    var file: seq<Record<K, V>>
    var writes: nat

    ghost function View(): Cache<K, V>
      reads this
    {
      Cache(store, file, writes)
    }

    ghost function Conf(): Config {
      Config(max, ttlMs, compactEveryWrites)
    }

    /** Opens on the records already in the file. The source throws unless `max > 0` and `ttlMs >= 0`. */
    constructor (max: nat, ttlMs: nat, compactEveryWrites: int, file: seq<Record<K, V>>, now: int)
      requires max > 0
      ensures this.max == max && this.ttlMs == ttlMs && this.compactEveryWrites == compactEveryWrites
      ensures View() == Opened(file, Conf(), now)
    {
      this.max := max;
      this.ttlMs := ttlMs;
      this.compactEveryWrites := compactEveryWrites;
      this.store := [];
      this.file := file;
      this.writes := 0;
      new;
      InitJsonl(now);
    }

    method InitJsonl(now: int)
      requires store == [] && writes == 0
      modifies this
      ensures View() == Opened(old(file), Conf(), now)
    {
      for i := 0 to |file|
        invariant file == old(file) && writes == 0
        invariant store == Replay(file[..i], ttlMs, now)
      {
        assert file[..i + 1][..i] == file[..i];
        match file[i]
        case SetRecord(k, s) =>
          if ttlMs > 0 && s.expires.Some? && s.expires.value <= now {
            store := Remove(store, k);
          } else {
            store := Put(store, k, s);
          }
        case DelRecord(k) =>
          store := Remove(store, k);
        case ClearRecord =>
          store := [];
      }
      assert file[..|file|] == file;
      EvictIfNeeded();
    }

    method AppendJsonl(r: Record<K, V>)
      modifies this
      ensures View() == Append(old(View()), Conf(), r)
    {
      file := file + [r];
      writes := writes + 1;
      if writes >= compactEveryWrites {
        CompactJsonl();
      }
    }

    /** Writes the live store to a new file, then replaces the old one. */
    method CompactJsonl()
      modifies this
      ensures View() == Compacted(old(View()))
    {
      var tmp: seq<Record<K, V>> := [];
      for i := 0 to |store|
        invariant View() == old(View())
        invariant tmp == Snapshot(store[..i])
      {
        assert store[..i + 1][..i] == store[..i];
        tmp := tmp + [SetRecord(store[i].key, store[i].value)];
      }
      assert store[..|store|] == store;
      file := tmp;
      writes := 0;
    }

    method EvictIfNeeded()
      modifies this
      ensures View() == Trim(old(View()), Conf())
    {
      ghost var dropped: nat := 0;
      while |store| > max
        invariant file == old(file) && writes == old(writes)
        invariant dropped <= |old(store)| && store == old(store)[dropped..]
        invariant dropped > 0 ==> |store| >= max
      {
        store := store[1..];
        dropped := dropped + 1;
      }
    }

    method Get(k: K, now: int) returns (v: Option<V>)
      modifies this
      ensures View() == Apply(old(View()), Conf(), Op.Get(k, now))
      ensures v == GetFrom(old(store), ttlMs, k, now).1
    {
      var entry := Lookup(store, k);
      if entry.None? { return None; }
      var e := entry.value.expires;
      if ttlMs > 0 && e.Some? && e.value <= now {
        var _ := Delete(k);
        return None;
      }
      MoveToEnd(k, entry.value);
      return Some(entry.value.value);
    }

    method MoveToEnd(k: K, s: Slot<V>)
      modifies this`store
      ensures store == Remove(old(store), k) + [Binding(k, s)]
    {
      PutLast(store, k, s);
      if Has(store, k) {
        store := Remove(store, k);
      }
      store := Put(store, k, s);
    }

    method Set(k: K, v: V, override: Option<int>, now: int)
      modifies this
      ensures View() == Apply(old(View()), Conf(), Op.Set(k, v, override, now))
    {
      var effective := if override.Some? then override.value else ttlMs;
      var s := Slot(v, if effective > 0 then Some(now + effective) else None);
      ghost var after := Apply(View(), Conf(), Op.Set(k, v, override, now));
      assert after == Trim(Append(View().(store := Remove(store, k) + [Binding(k, s)]), Conf(), SetRecord(k, s)), Conf()) by {
        SetApplied(View(), Conf(), k, v, override, now);
      }
      Store(k, s);
    }

    /** `Set`, once the entry is made. */
    method Store(k: K, s: Slot<V>)
      modifies this
      ensures View() == Trim(Append(old(View()).(store := Remove(old(store), k) + [Binding(k, s)]), Conf(), SetRecord(k, s)), Conf())
    {
      MoveToEnd(k, s);
      AppendJsonl(SetRecord(k, s));
      EvictIfNeeded();
    }

    method Delete(k: K) returns (had: bool)
      modifies this
      ensures had == Has(old(store), k)
      ensures View() == Apply(old(View()), Conf(), Op.Delete(k))
    {
      had := Has(store, k);
      store := Remove(store, k);
      AppendJsonl(DelRecord(k));
    }

    method Clear()
      modifies this
      ensures View() == Apply(old(View()), Conf(), Op.Clear)
    {
      store := [];
      AppendJsonl(ClearRecord);
    }
  }

  // ---------- What a replay yields ----------

  /** Replaying with expiry gives, for every key, what the file last says about it unless that has
      expired: the same as replaying everything and then dropping the expired keys. */
  lemma {:induction false} ReplayIsLastUnexpiredWrite<K, V>(file: seq<Record<K, V>>, ttlMs: nat, now: int, k: K)
    ensures Lookup(Replay(file, ttlMs, now), k) == Unexpired(LastWrite(file, k), ttlMs, now)
  {
    if file != [] {
      var init, r := file[..|file| - 1], file[|file| - 1];
      ReplayIsLastUnexpiredWrite(init, ttlMs, now, k);
      if !r.ClearRecord? { LookupRemove(Replay(init, ttlMs, now), r.k, k); }
      if r.SetRecord? { LookupPut(Replay(init, ttlMs, now), r.k, r.slot, k); }
    }
  }

  lemma {:induction false} ReplayDistinct<K, V>(file: seq<Record<K, V>>, ttlMs: nat, now: int)
    ensures Distinct(Replay(file, ttlMs, now))
  {
    if file != [] {
      var init, r := file[..|file| - 1], file[|file| - 1];
      ReplayDistinct(init, ttlMs, now);
      if !r.ClearRecord? { DistinctRemove(Replay(init, ttlMs, now), r.k); }
      if r.SetRecord? { DistinctPut(Replay(init, ttlMs, now), r.k, r.slot); }
    }
  }

  lemma {:induction false} DistinctInit<K, V>(m: Store<K, V>)
    requires Distinct(m) && m != []
    ensures Distinct(m[..|m| - 1]) && !Has(m[..|m| - 1], m[|m| - 1].key)
    ensures forall k :: Lookup(m, k) == if k == m[|m| - 1].key then Some(m[|m| - 1].value) else Lookup(m[..|m| - 1], k)
  {
    if |m| > 1 {
      DistinctInit(m[1..]);
      var n := m[..|m| - 1];
      assert m[1..][..|m| - 2] == n[1..];
    }
  }

  /** A compacted file says exactly what the store says. */
  lemma {:induction false} SnapshotSaysStore<K, V>(m: Store<K, V>, k: K)
    requires Distinct(m)
    ensures LastWrite(Snapshot(m), k) == Lookup(m, k)
  {
    if m != [] {
      DistinctInit(m);
      SnapshotSaysStore(m[..|m| - 1], k);
      assert Snapshot(m)[..|Snapshot(m)| - 1] == Snapshot(m[..|m| - 1]);
    }
  }

  function DropStale<K, V>(m: Store<K, V>, ttlMs: nat, now: int): Store<K, V> {
    if m == [] then []
    else
      var b := m[|m| - 1];
      DropStale(m[..|m| - 1], ttlMs, now) + if Stale(b.value, ttlMs, now) then [] else [b]
  }

  /** Reopening right after a compaction rebuilds the unexpired entries in the same recency order. */
  lemma {:induction false} CompactionRoundTrip<K, V>(m: Store<K, V>, ttlMs: nat, now: int)
    requires Distinct(m)
    ensures Replay(Snapshot(m), ttlMs, now) == DropStale(m, ttlMs, now)
  {
    if m != [] {
      var init, b := m[..|m| - 1], m[|m| - 1];
      DistinctInit(m);
      CompactionRoundTrip(init, ttlMs, now);
      assert Snapshot(m)[..|Snapshot(m)| - 1] == Snapshot(init);
      ReplayIsLastUnexpiredWrite(Snapshot(init), ttlMs, now, b.key);
      SnapshotSaysStore(init, b.key);
      RemoveAbsent(Replay(Snapshot(init), ttlMs, now), b.key);
      PutNew(Replay(Snapshot(init), ttlMs, now), b.key, b.value);
    }
  }

  lemma {:induction false} NothingStale<K, V>(m: Store<K, V>, ttlMs: nat, now: int)
    requires forall i | 0 <= i < |m| :: !Stale(m[i].value, ttlMs, now)
    ensures DropStale(m, ttlMs, now) == m
  {
    if m != [] { NothingStale(m[..|m| - 1], ttlMs, now); }
  }

  // ---------- The store, the file and the history ----------

  /** What a caller last did to a key: the last write of it not undone by a delete or a clear. Reads,
      evictions, compactions and restarts play no part. */
  function Intended<K(==), V>(file: seq<Record<K, V>>, c: Config, ops: seq<Op<K, V>>, k: K): Option<Slot<V>> {
    if ops == [] then LastWrite(file, k)
    else
      var rest := ops[..|ops| - 1];
      match ops[|ops| - 1]
      case Set(j, v, override, now) =>
        if j == k then Some(Slot(v, Expiry(c.ttlMs, override, now))) else Intended(file, c, rest, k)
      case Delete(j) => if j == k then None else Intended(file, c, rest, k)
      case Clear => None
      case Get(_, _) => Intended(file, c, rest, k)
      case Reopen(_) => Intended(file, c, rest, k)
  }

  /** The live store is contained in what the file says. */
  ghost predicate Covered<K(!new), V>(s: Cache<K, V>) {
    Distinct(s.store) && forall k :: Has(s.store, k) ==> LastWrite(s.file, k) == Lookup(s.store, k)
  }

  lemma CoveredAppend<K(!new), V>(s: Cache<K, V>, c: Config, m: Store<K, V>, r: Record<K, V>)
    requires Covered(s) && Distinct(m)
    requires forall k :: Has(m, k) ==>
      if r.SetRecord? && r.k == k then Lookup(m, k) == Some(r.slot)
      else Lookup(m, k) == Lookup(s.store, k) && !(r.DelRecord? && r.k == k) && !r.ClearRecord?
    ensures Covered(Logged(s.(store := m), r)) && Covered(Append(s.(store := m), c, r))
  {
    var t := Logged(s.(store := m), r);
    assert t.file[..|t.file| - 1] == s.file;
    forall k | Has(m, k) ensures LastWrite(Snapshot(m), k) == Lookup(m, k) {
      SnapshotSaysStore(m, k);
    }
  }

  lemma CoveredTrim<K(!new), V>(s: Cache<K, V>, c: Config)
    requires Covered(s)
    ensures Covered(Trim(s, c))
  {
    var d := |s.store| - |Evicted(s.store, c.max)|;
    assert Evicted(s.store, c.max) == s.store[d..];
    if s.store != [] { DropHolds(s.store, d, s.store[0].key); }
    forall k | Has(s.store[d..], k) ensures Lookup(s.store[d..], k) == Lookup(s.store, k) {
      DropHolds(s.store, d, k);
    }
  }

  lemma InMemoryCovered<K(!new), V>(s: Cache<K, V>, c: Config, op: Op<K, V>)
    requires Covered(s) && !op.Reopen?
    ensures var (m, r) := InMemory(s.store, c, op);
            && Distinct(m)
            && (r.None? ==> Covered(s.(store := m)))
            && (r.Some? ==> Covered(Logged(s.(store := m), r.value)) && Covered(Append(s.(store := m), c, r.value)))
  {
    var (m, r) := InMemory(s.store, c, op);
    if !op.Clear? {
      var removed := Remove(s.store, op.k);
      DistinctRemove(s.store, op.k);
      forall j ensures Lookup(removed, j) == if j == op.k then None else Lookup(s.store, j) {
        LookupRemove(s.store, op.k, j);
      }
      if |m| > 0 && m == removed + [m[|m| - 1]] && m[|m| - 1].key == op.k {
        DistinctAppend(removed, op.k, m[|m| - 1].value);
        forall j ensures Lookup(m, j) == if j == op.k then Some(m[|m| - 1].value) else Lookup(s.store, j) {
          LookupConcat(removed, [m[|m| - 1]], j);
        }
      }
    }
    if r.Some? { CoveredAppend(s, c, m, r.value); }
  }

  lemma LoadedCovered<K(!new), V>(file: seq<Record<K, V>>, c: Config, now: int)
    ensures Covered(Cache(Replay(file, c.ttlMs, now), file, 0))
  {
    var m := Replay(file, c.ttlMs, now);
    ReplayDistinct(file, c.ttlMs, now);
    forall k | Has(m, k) ensures LastWrite(file, k) == Lookup(m, k) {
      ReplayIsLastUnexpiredWrite(file, c.ttlMs, now, k);
    }
  }

  /** At every moment of every operation of a run, whatever has been evicted, refreshed, compacted or
      reopened, the file still says about each live key exactly what the live store says. */
  lemma MomentsCovered<K(!new), V>(s: Cache<K, V>, c: Config, op: Op<K, V>, i: nat)
    requires Covered(s) && i < 3
    ensures Covered(Moments(s, c, op)[i])
  {
    if op.Reopen? {
      LoadedCovered<K, V>(s.file, c, op.now);
      CoveredTrim(Cache(Replay(s.file, c.ttlMs, op.now), s.file, 0), c);
    } else {
      InMemoryCovered(s, c, op);
      var (m, r) := InMemory(s.store, c, op);
      if r.Some? { CoveredTrim(Append(s.(store := m), c, r.value), c); }
    }
  }

  lemma {:induction false} RunCovered<K(!new), V>(s: Cache<K, V>, c: Config, ops: seq<Op<K, V>>)
    requires Covered(s)
    ensures Covered(Run(s, c, ops))
  {
    if ops != [] {
      RunCovered(s, c, ops[..|ops| - 1]);
      MomentsCovered(Run(s, c, ops[..|ops| - 1]), c, ops[|ops| - 1], 2);
    }
  }

  /** Crash safety. Open any file and run any operations, restarts included. Stop at any moment of the
      next one - after its append, on either side of a compaction's rename, after its eviction. A replay
      of the file at any later time then yields every live entry that has not expired by then, with the
      same value and expiry. */
  lemma CrashSafe<K(!new), V>(file: seq<Record<K, V>>, c: Config, t0: int, ops: seq<Op<K, V>>, op: Op<K, V>, i: nat, now: int, k: K)
    requires i < 3
    ensures var s := Moments(Run(Opened(file, c, t0), c, ops), c, op)[i];
            Has(s.store, k) && !Stale(Lookup(s.store, k).value, c.ttlMs, now) ==>
              Lookup(Replay(s.file, c.ttlMs, now), k) == Lookup(s.store, k)
  {
    OpenedCovered(file, c, t0);
    RunCovered(Opened(file, c, t0), c, ops);
    MomentsCovered(Run(Opened(file, c, t0), c, ops), c, op, i);
    var s := Moments(Run(Opened(file, c, t0), c, ops), c, op)[i];
    ReplayIsLastUnexpiredWrite(s.file, c.ttlMs, now, k);
  }

  lemma OpenedCovered<K(!new), V>(file: seq<Record<K, V>>, c: Config, t0: int)
    ensures Covered(Opened(file, c, t0))
  {
    LoadedCovered(file, c, t0);
    CoveredTrim(Cache(Replay(file, c.ttlMs, t0), file, 0), c);
  }

  /** What the file says about a key is what the callers last did to it, or nothing. */
  ghost predicate Honest<K, V>(s: Cache<K, V>, file: seq<Record<K, V>>, c: Config, ops: seq<Op<K, V>>, k: K) {
    LastWrite(s.file, k).Some? ==> LastWrite(s.file, k) == Intended(file, c, ops, k)
  }

  /** One more record says what its caller did. */
  lemma LoggedHonest<K(!new), V>(s: Cache<K, V>, file: seq<Record<K, V>>, c: Config, ops: seq<Op<K, V>>, op: Op<K, V>, k: K)
    requires Honest(s, file, c, ops, k) && !op.Reopen?
    ensures var (m, r) := InMemory(s.store, c, op);
            Honest(if r.Some? then Logged(s.(store := m), r.value) else s.(store := m), file, c, ops + [op], k)
  {
    assert (ops + [op])[..|ops|] == ops;
    var (m, r) := InMemory(s.store, c, op);
    if r.Some? {
      assert Logged(s.(store := m), r.value).file[..|s.file|] == s.file;
    }
  }

  /** What the file holds at each moment: the record more, or the compaction of that. */
  lemma MomentFiles<K, V>(s: Cache<K, V>, c: Config, op: Op<K, V>, i: nat)
    requires i < 3 && !op.Reopen?
    ensures var (m, r) := InMemory(s.store, c, op);
            var file := Moments(s, c, op)[i].file;
            if r.None? then file == s.file else file == s.file + [r.value] || file == Snapshot(m)
  {
  }

  /** And a compaction says no more. */
  lemma CompactedHonest<K(!new), V>(s: Cache<K, V>, file: seq<Record<K, V>>, c: Config, ops: seq<Op<K, V>>, k: K)
    requires Covered(s) && Honest(s, file, c, ops, k)
    ensures Honest(Compacted(s), file, c, ops, k)
  {
    SnapshotSaysStore(s.store, k);
  }

  lemma MomentHonest<K(!new), V>(s: Cache<K, V>, file: seq<Record<K, V>>, c: Config, ops: seq<Op<K, V>>, op: Op<K, V>, i: nat, k: K)
    requires Covered(s) && Honest(s, file, c, ops, k) && i < 3
    ensures Honest(Moments(s, c, op)[i], file, c, ops + [op], k)
  {
    if op.Reopen? {
      assert (ops + [op])[..|ops|] == ops;
    } else {
      var (m, r) := InMemory(s.store, c, op);
      MomentFiles(s, c, op, i);
      LoggedHonest(s, file, c, ops, op, k);
      if r.Some? {
        assert Covered(Logged(s.(store := m), r.value)) by { InMemoryCovered(s, c, op); }
        CompactedHonest(Logged(s.(store := m), r.value), file, c, ops + [op], k);
      }
    }
  }

  lemma {:induction false} RunHonest<K(!new), V>(file: seq<Record<K, V>>, c: Config, t0: int, ops: seq<Op<K, V>>, k: K)
    ensures Honest(Run(Opened(file, c, t0), c, ops), file, c, ops, k)
  {
    if ops != [] {
      var init, op := ops[..|ops| - 1], ops[|ops| - 1];
      RunHonest(file, c, t0, init, k);
      OpenedCovered(file, c, t0);
      RunCovered(Opened(file, c, t0), c, init);
      MomentHonest(Run(Opened(file, c, t0), c, init), file, c, init, op, 2, k);
      assert init + [op] == ops;
    }
  }

  /** No resurrection: after any run, whatever a replay yields for a key is the last value a caller
      wrote to it, never one that was since overwritten, deleted or cleared. */
  lemma ReplayNeverResurrects<K(!new), V>(file: seq<Record<K, V>>, c: Config, t0: int, ops: seq<Op<K, V>>, now: int, k: K)
    ensures var s := Run(Opened(file, c, t0), c, ops);
            Has(Replay(s.file, c.ttlMs, now), k) ==>
              Lookup(Replay(s.file, c.ttlMs, now), k) == Intended(file, c, ops, k)
  {
    RunHonest(file, c, t0, ops, k);
    ReplayIsLastUnexpiredWrite(Run(Opened(file, c, t0), c, ops).file, c.ttlMs, now, k);
  }

  /** The same at any moment of the next operation: once its record is written, on either side of a
      compaction's rename, a replay knows of the operation and of nothing it undid. */
  lemma CrashNeverResurrects<K(!new), V>(
      file: seq<Record<K, V>>, c: Config, t0: int, ops: seq<Op<K, V>>, op: Op<K, V>, i: nat, now: int, k: K)
    requires i < 3
    ensures var s := Moments(Run(Opened(file, c, t0), c, ops), c, op)[i];
            Has(Replay(s.file, c.ttlMs, now), k) ==>
              Lookup(Replay(s.file, c.ttlMs, now), k) == Intended(file, c, ops + [op], k)
  {
    var before := Run(Opened(file, c, t0), c, ops);
    OpenedCovered(file, c, t0);
    RunCovered(Opened(file, c, t0), c, ops);
    RunHonest(file, c, t0, ops, k);
    MomentHonest(before, file, c, ops, op, i, k);
    ReplayIsLastUnexpiredWrite(Moments(before, c, op)[i].file, c.ttlMs, now, k);
  }

  // ---------- The surface of the in-memory cache ----------

  function AsInMemory<K, V>(op: Op<K, V>): LruCache.Op<K, V>
    requires !op.Reopen?
  {
    match op
    case Get(k, now) => LruCache.Op.Get(k, now)
    case Set(k, v, override, now) => LruCache.Op.Set(k, v, override, now)
    case Delete(k) => LruCache.Op.Delete(k)
    case Clear => LruCache.Op.Clear
  }

  function AllInMemory<K, V>(ops: seq<Op<K, V>>): seq<LruCache.Op<K, V>>
    requires forall i | 0 <= i < |ops| :: !ops[i].Reopen?
  {
    if ops == [] then [] else AllInMemory(ops[..|ops| - 1]) + [AsInMemory(ops[|ops| - 1])]
  }

  lemma StepAsInMemory<K, V>(s: Cache<K, V>, c: Config, op: Op<K, V>)
    requires !op.Reopen?
    ensures Apply(s, c, op).store == LruCache.Apply(s.store, LruCache.Limits(c.max, c.ttlMs), AsInMemory(op))
  {
  }

  /** Until it is reopened, the persistent cache holds just what the in-memory cache would, in the same
      order: logging and compaction do not show. */
  lemma {:induction false} RunAsInMemory<K, V>(s: Cache<K, V>, c: Config, ops: seq<Op<K, V>>)
    requires forall i | 0 <= i < |ops| :: !ops[i].Reopen?
    ensures Run(s, c, ops).store == LruCache.Run(s.store, LruCache.Limits(c.max, c.ttlMs), AllInMemory(ops))
  {
    if ops != [] {
      var rest, op := ops[..|ops| - 1], ops[|ops| - 1];
      RunAsInMemory(s, c, rest);
      StepAsInMemory(Run(s, c, rest), c, op);
      LruCache.RunOneMore(s.store, LruCache.Limits(c.max, c.ttlMs), AllInMemory(rest), AsInMemory(op));
    }
  }

  // ---------- What an operation leaves in the file ----------

  /** What an operation on `m` says of a key it touches: the value and expiry set, or nothing after a delete,
      a clear, or a read that found the entry expired. */
  ghost predicate Says<K, V>(m: Store<K, V>, c: Config, op: Op<K, V>, k: K, said: Option<Slot<V>>)
    requires !op.Reopen?
  {
    match op
    case Set(j, v, override, now) =>
      var life := if override.Some? then override.value else c.ttlMs;
      j == k ==> said == Some(Slot(v, if life > 0 then Some(now + life) else None))
    case Delete(j) => j == k ==> said == None
    case Clear => said == None
    case Get(j, now) =>
      var held := Lookup(m, k);
      var expired := c.ttlMs > 0 && held.Some? && held.value.expires.Some? && held.value.expires.value <= now;
      j == k && expired ==> said == None
  }

  lemma StoreSays<K, V>(m: Store<K, V>, c: Config, op: Op<K, V>, k: K)
    requires !op.Reopen?
    ensures Says(m, c, op, k, Lookup(InMemory(m, c, op).0, k))
  {
    LookupRemove(m, k, k);
    if op.Set? { LookupConcat(Remove(m, op.k), [Binding(op.k, Slot(op.v, Expiry(c.ttlMs, op.override, op.now)))], k); }
  }

  lemma RecordSays<K, V>(m: Store<K, V>, c: Config, op: Op<K, V>, file: seq<Record<K, V>>, k: K)
    requires !op.Reopen? && InMemory(m, c, op).1.Some?
    ensures Says(m, c, op, k, LastWrite(file + [InMemory(m, c, op).1.value], k))
  {
    assert (file + [InMemory(m, c, op).1.value])[..|file|] == file;
  }

  lemma SilentRead<K, V>(m: Store<K, V>, c: Config, op: Op<K, V>, k: K, said: Option<Slot<V>>)
    requires !op.Reopen? && InMemory(m, c, op).1.None?
    ensures Says(m, c, op, k, said)
  {
  }

  /** Once its record is written, at each moment, the file's last word on a key is what the operation says. */
  lemma LastWord<K(!new), V>(s: Cache<K, V>, c: Config, op: Op<K, V>, i: nat, k: K)
    requires Covered(s) && i < 3 && !op.Reopen?
    ensures Says(s.store, c, op, k, LastWrite(Moments(s, c, op)[i].file, k))
  {
    var (m, r) := InMemory(s.store, c, op);
    MomentFiles(s, c, op, i);
    if r.None? {
      SilentRead(s.store, c, op, k, LastWrite(s.file, k));
    } else {
      RecordSays(s.store, c, op, s.file, k);
      assert Distinct(m) by { InMemoryCovered(s, c, op); }
      SnapshotSaysStore(m, k);
      StoreSays(s.store, c, op, k);
    }
  }

  /** A compaction inside a write comes before that write's eviction: with a new key the file holds one record
      more than the store did, the evicted one's among them. */
  lemma CompactionBeforeEviction<K, V>(s: Cache<K, V>, c: Config, k: K, v: V, override: Option<int>, now: int)
    requires !Has(s.store, k) && s.writes + 1 >= c.compactEveryWrites
    ensures |Apply(s, c, Set(k, v, override, now)).file| == |s.store| + 1
    ensures Apply(s, c, Set(k, v, override, now)).writes == 0
  {
    RemoveAbsent(s.store, k);
    SnapshotLength(s.store + [Binding(k, Slot(v, Expiry(c.ttlMs, override, now)))]);
  }

  // ---------- The order of a replay ----------

  /** Where the file first set a key since it was last deleted, cleared or set already expired: nothing if it
      is none of the keys a replay yields. */
  function Birth<K(==), V>(file: seq<Record<K, V>>, ttlMs: nat, now: int, k: K): Option<nat> {
    if file == [] then None
    else
      var before := Birth(file[..|file| - 1], ttlMs, now, k);
      match file[|file| - 1]
      case SetRecord(j, s) =>
        if j != k then before
        else if Stale(s, ttlMs, now) then None
        else if before.Some? then before
        else Some(|file| - 1)
      case DelRecord(j) => if j == k then None else before
      case ClearRecord => None
  }

  predicate BornBefore(a: Option<nat>, b: Option<nat>) {
    a.Some? && b.Some? && a.value < b.value
  }

  lemma {:induction false} BornInFile<K, V>(file: seq<Record<K, V>>, ttlMs: nat, now: int, k: K)
    ensures Birth(file, ttlMs, now, k).Some? <==> Has(Replay(file, ttlMs, now), k)
    ensures Birth(file, ttlMs, now, k).Some? ==> Birth(file, ttlMs, now, k).value < |file|
  {
    if file != [] {
      var init, r := file[..|file| - 1], file[|file| - 1];
      BornInFile(init, ttlMs, now, k);
      if !r.ClearRecord? { LookupRemove(Replay(init, ttlMs, now), r.k, k); }
      if r.SetRecord? { LookupPut(Replay(init, ttlMs, now), r.k, r.slot, k); }
    }
  }

  lemma {:induction false} BehindPut<K, V>(m: Store<K, V>, k: K, s: Slot<V>, j: K, x: K)
    requires Distinct(m)
    ensures Has(LruCache.Behind(Put(m, k, s), j), x)
       <==> Has(LruCache.Behind(m, j), x) || (!Has(m, k) && Has(m, j) && x == k)
  {
    if m == [] {
    } else if m[0].key == k {
      assert Put(m, k, s)[1..] == m[1..];
    } else {
      assert Put(m, k, s)[1..] == Put(m[1..], k, s);
      if m[0].key == j {
        LookupPut(m[1..], k, s, x);
      } else {
        BehindPut(m[1..], k, s, j, x);
      }
    }
  }

  lemma {:induction false} BehindIsHeld<K, V>(m: Store<K, V>, j: K, x: K)
    requires Distinct(m)
    ensures Has(LruCache.Behind(m, j), x) ==> Has(m, x) && Has(m, j) && x != j
  {
    if m != [] && m[0].key != j { BehindIsHeld(m[1..], j, x); }
  }

  /** The order of a replay. Of two keys it yields, the one whose record first set it - since it was last
      deleted, cleared or set already expired - comes first, whatever was written again later: a rewritten
      key keeps its place. */
  lemma {:induction false} ReplayOrder<K, V>(file: seq<Record<K, V>>, ttlMs: nat, now: int, j: K, x: K)
    ensures Has(LruCache.Behind(Replay(file, ttlMs, now), j), x)
       <==> BornBefore(Birth(file, ttlMs, now, j), Birth(file, ttlMs, now, x))
  {
    if file != [] {
      var init, r := file[..|file| - 1], file[|file| - 1];
      ReplayOrder(init, ttlMs, now, j, x);
      if !r.ClearRecord? { OrderStep(init, ttlMs, now, r, j, x); }
    }
  }

  lemma OrderStep<K, V>(init: seq<Record<K, V>>, ttlMs: nat, now: int, r: Record<K, V>, j: K, x: K)
    requires !r.ClearRecord?
    requires Has(LruCache.Behind(Replay(init, ttlMs, now), j), x)
        <==> BornBefore(Birth(init, ttlMs, now, j), Birth(init, ttlMs, now, x))
    ensures Has(LruCache.Behind(Replayed(Replay(init, ttlMs, now), r, ttlMs, now), j), x)
       <==> BornBefore(Birth(init + [r], ttlMs, now, j), Birth(init + [r], ttlMs, now, x))
  {
    var m, file := Replay(init, ttlMs, now), init + [r];
    assert file[..|init|] == init;
    ReplayDistinct(init, ttlMs, now);
    BornInFile(init, ttlMs, now, j);
    BornInFile(init, ttlMs, now, x);
    BornInFile(init, ttlMs, now, r.k);
    BehindIsHeld(m, j, x);
    if r.SetRecord? && !Stale(r.slot, ttlMs, now) {
      BehindPut(m, r.k, r.slot, j, x);
    } else {
      RemovedBehind(m, r.k, j, x);
    }
  }

  lemma RemovedBehind<K, V>(m: Store<K, V>, k: K, j: K, x: K)
    requires Distinct(m)
    ensures Has(LruCache.Behind(Remove(m, k), j), x) <==> j != k && x != k && Has(LruCache.Behind(m, j), x)
  {
    if j == k {
      DistinctRemove(m, k);
      LookupRemove(m, k, k);
      BehindIsHeld(Remove(m, k), j, x);
    } else {
      LruCache.BehindRemove(m, j, k);
      LookupRemove(LruCache.Behind(m, j), k, x);
    }
  }

  function KeysOf<K(==), V>(file: seq<Record<K, V>>): set<K> {
    if file == [] then {}
    else KeysOf(file[..|file| - 1]) + if file[|file| - 1].SetRecord? then {file[|file| - 1].k} else {}
  }

  lemma {:induction false} BornAreNamed<K, V>(file: seq<Record<K, V>>, ttlMs: nat, now: int, k: K)
    ensures Birth(file, ttlMs, now, k).Some? ==> k in KeysOf(file)
  {
    if file != [] { BornAreNamed(file[..|file| - 1], ttlMs, now, k); }
  }

  /** The keys that the file set, for the first time in their present life, after `k`. */
  function BornAfter<K(==), V>(file: seq<Record<K, V>>, ttlMs: nat, now: int, k: K): set<K> {
    set x | x in KeysOf(file) && BornBefore(Birth(file, ttlMs, now, k), Birth(file, ttlMs, now, x))
  }

  lemma BornAfterCount<K(!new), V>(file: seq<Record<K, V>>, ttlMs: nat, now: int, k: K)
    ensures |LruCache.Behind(Replay(file, ttlMs, now), k)| == |BornAfter(file, ttlMs, now, k)|
  {
    var behind := LruCache.Behind(Replay(file, ttlMs, now), k);
    ReplayDistinct(file, ttlMs, now);
    LruCache.DistinctBehind(Replay(file, ttlMs, now), k);
    LruCache.KeyCount(behind);
    forall x ensures x in LruCache.Keys(behind) <==> x in BornAfter(file, ttlMs, now, k) {
      LruCache.KeysAreHeld(behind, x);
      ReplayOrder(file, ttlMs, now, k, x);
      BornAreNamed(file, ttlMs, now, x);
    }
    assert LruCache.Keys(behind) == BornAfter(file, ttlMs, now, k);
  }

  // ---------- The size of the log ----------

  /** `n * m`, one `m` at a time. */
  function Times(n: nat, m: nat): nat {
    if n == 0 then 0 else Times(n - 1, m) + m
  }

  lemma {:induction false} TimesIs(n: nat, m: nat)
    ensures Times(n, m) == n * m
  {
    if n > 0 {
      TimesIs(n - 1, m);
      assert n * m == (n - 1) * m + m;
    }
  }

  /** How many writes make a compaction due. */
  function Limit(c: Config): (l: int)
    ensures l >= 1
  {
    if c.compactEveryWrites > 1 then c.compactEveryWrites else 1
  }

  /** Between operations, `k` restarts after the file held at most `base` records. */
  ghost predicate Bounded<K, V>(s: Cache<K, V>, c: Config, base: nat, k: nat) {
    && |s.store| <= c.max < base
    && s.writes < Limit(c)
    && |s.file| <= base + s.writes + Times(k, Limit(c) - 1)
  }

  predicate Compacts<K(==), V>(s: Cache<K, V>, c: Config, op: Op<K, V>) {
    !op.Reopen? && InMemory(s.store, c, op).1.Some? && s.writes + 1 >= c.compactEveryWrites
  }

  lemma {:induction false} SnapshotLength<K, V>(m: Store<K, V>)
    ensures |Snapshot(m)| == |m|
  {
    if m != [] { SnapshotLength(m[..|m| - 1]); }
  }

  lemma {:induction false} RemoveNoLonger<K, V>(m: Store<K, V>, k: K)
    ensures |Remove(m, k)| <= |m| && (Has(m, k) ==> |Remove(m, k)| < |m|)
  {
    if m != [] { RemoveNoLonger(m[1..], k); }
  }

  /** An operation that compacts leaves at most `max + 1` records. */
  lemma CompactsBounded<K, V>(s: Cache<K, V>, c: Config, op: Op<K, V>, base: nat)
    requires 0 < c.max < base && |s.store| <= c.max && Compacts(s, c, op)
    ensures Bounded(Apply(s, c, op), c, base, 0)
  {
    var m := InMemory(s.store, c, op).0;
    if !op.Clear? { RemoveNoLonger(s.store, op.k); }
    assert |m| <= |s.store| + if op.Set? then 1 else 0;
    SnapshotLength(m);
  }

  lemma QuietBounded<K, V>(s: Cache<K, V>, c: Config, op: Op<K, V>, base: nat, k: nat)
    requires 0 < c.max && Bounded(s, c, base, k) && !op.Reopen? && !Compacts(s, c, op)
    ensures Bounded(Apply(s, c, op), c, base, k)
  {
    var (m, r) := InMemory(s.store, c, op);
    if !op.Clear? { RemoveNoLonger(s.store, op.k); }
    assert |m| <= |s.store| + if op.Set? then 1 else 0;
  }

  lemma ReopenBounded<K, V>(s: Cache<K, V>, c: Config, now: int, base: nat, k: nat)
    requires Bounded(s, c, base, k)
    ensures Bounded(Apply(s, c, Reopen(now)), c, base, k + 1)
  {
  }

  /** The restarts since the last compaction, after one more operation. */
  function NextRestarts<K(==), V>(s: Cache<K, V>, c: Config, op: Op<K, V>, k: nat): nat {
    if op.Reopen? then k + 1 else if Compacts(s, c, op) then 0 else k
  }

  /** The restarts of a run since its last compaction. */
  function Restarts<K(==), V>(s: Cache<K, V>, c: Config, ops: seq<Op<K, V>>): nat {
    if ops == [] then 0
    else
      var rest := ops[..|ops| - 1];
      NextRestarts(Run(s, c, rest), c, ops[|ops| - 1], Restarts(s, c, rest))
  }

  lemma StepBounded<K, V>(s: Cache<K, V>, c: Config, op: Op<K, V>, base: nat, k: nat)
    requires 0 < c.max && Bounded(s, c, base, k)
    ensures Bounded(Apply(s, c, op), c, base, NextRestarts(s, c, op, k))
  {
    if op.Reopen? {
      ReopenBounded(s, c, op.now, base, k);
    } else if Compacts(s, c, op) {
      CompactsBounded(s, c, op, base);
    } else {
      QuietBounded(s, c, op, base, k);
    }
  }

  lemma {:induction false} RunBounded<K, V>(s: Cache<K, V>, c: Config, ops: seq<Op<K, V>>, base: nat)
    requires 0 < c.max && Bounded(s, c, base, 0)
    ensures Bounded(Run(s, c, ops), c, base, Restarts(s, c, ops))
  {
    if ops != [] {
      var rest := ops[..|ops| - 1];
      RunBounded(s, c, rest, base);
      StepBounded(Run(s, c, rest), c, ops[|ops| - 1], base, Restarts(s, c, rest));
    }
  }

  /** How large the log gets. From a compaction on it holds between operations at most `max + 1` records,
      one for each write since the file was last compacted or opened - fewer than `compactEveryWrites` -
      and up to `compactEveryWrites - 1` for each restart since the last compaction: opening the file
      forgets how many writes it has seen and compacts nothing. */
  lemma LogStaysSmall<K, V>(s: Cache<K, V>, c: Config, op: Op<K, V>, ops: seq<Op<K, V>>)
    requires c.max > 0 && |s.store| <= c.max && Compacts(s, c, op)
    ensures var after := Apply(s, c, op);
            var t := Run(after, c, ops);
            && t.writes < Limit(c)
            && |t.file| <= c.max + 1 + t.writes + Restarts(after, c, ops) * (Limit(c) - 1)
  {
    CompactsBounded(s, c, op, c.max + 1);
    var after := Apply(s, c, op);
    RunBounded(after, c, ops, c.max + 1);
    BoundedMeans(Run(after, c, ops), c, c.max + 1, Restarts(after, c, ops));
  }

  /** The same from any file, in place of the records of a compaction. */
  lemma LogFromAnyFile<K, V>(file: seq<Record<K, V>>, c: Config, t0: int, ops: seq<Op<K, V>>)
    requires c.max > 0
    ensures var start := Opened(file, c, t0);
            var t := Run(start, c, ops);
            && t.writes < Limit(c)
            && |t.file| <= (if |file| > c.max then |file| else c.max + 1) + t.writes
                           + Restarts(start, c, ops) * (Limit(c) - 1)
  {
    var base := if |file| > c.max then |file| else c.max + 1;
    var start := Opened(file, c, t0);
    OpenedBounded(file, c, t0, base);
    RunBounded(start, c, ops, base);
    BoundedMeans(Run(start, c, ops), c, base, Restarts(start, c, ops));
  }

  lemma OpenedBounded<K, V>(file: seq<Record<K, V>>, c: Config, t0: int, base: nat)
    requires c.max < base && |file| <= base
    ensures Bounded(Opened(file, c, t0), c, base, 0)
  {
  }

  lemma BoundedMeans<K, V>(s: Cache<K, V>, c: Config, base: nat, k: nat)
    requires Bounded(s, c, base, k)
    ensures s.writes < Limit(c) && |s.file| <= base + s.writes + k * (Limit(c) - 1)
  {
    TimesIs(k, Limit(c) - 1);
  }

  /** The cache after `m` deletes of a key. */
  function AfterDeletes<K(==), V>(s: Cache<K, V>, c: Config, k: K, m: nat): Cache<K, V> {
    if m == 0 then s else Apply(AfterDeletes(s, c, k, m - 1), c, Delete(k))
  }

  /** The cache after one life of a process: `m` deletes of a key and a restart. */
  function AfterLife<K(==), V>(s: Cache<K, V>, c: Config, k: K, m: nat, now: int): Cache<K, V> {
    Apply(AfterDeletes(s, c, k, m), c, Reopen(now))
  }

  /** And after `n` such lives. */
  function AfterLives<K(==), V>(s: Cache<K, V>, c: Config, k: K, m: nat, now: int, n: nat): Cache<K, V> {
    if n == 0 then s else AfterLife(AfterLives(s, c, k, m, now, n - 1), c, k, m, now)
  }

  /** The file has only grown, by so many records. */
  ghost predicate Grown<K, V>(s: Cache<K, V>, t: Cache<K, V>, records: int) {
    s.file <= t.file && |t.file| == |s.file| + records
  }

  lemma DeleteLogs<K, V>(s: Cache<K, V>, c: Config, k: K)
    requires s.writes + 1 < c.compactEveryWrites
    ensures Apply(s, c, Delete(k)) == Logged(s.(store := Remove(s.store, k)), DelRecord(k))
  {
  }

  lemma ReopenLogs<K, V>(s: Cache<K, V>, c: Config, now: int)
    ensures Apply(s, c, Reopen(now)).writes == 0 && Apply(s, c, Reopen(now)).file == s.file
  {
  }

  lemma {:induction false} DeletesLog<K, V>(s: Cache<K, V>, c: Config, k: K, m: nat)
    requires s.writes + m < c.compactEveryWrites
    ensures AfterDeletes(s, c, k, m).writes == s.writes + m && Grown(s, AfterDeletes(s, c, k, m), m)
  {
    if m > 0 {
      DeletesLog(s, c, k, m - 1);
      DeleteLogs(AfterDeletes(s, c, k, m - 1), c, k);
    }
  }

  lemma LifeLog<K, V>(born: Cache<K, V>, c: Config, k: K, m: nat, now: int)
    requires born.writes == 0 && m < c.compactEveryWrites
    ensures var t := AfterLife(born, c, k, m, now);
            t.writes == 0 && Grown(born, t, m)
  {
    DeletesLog(born, c, k, m);
    ReopenLogs(AfterDeletes(born, c, k, m), c, now);
  }

  lemma GrowsMore<K, V>(s: Cache<K, V>, born: Cache<K, V>, c: Config, k: K, m: nat, now: int, records: int)
    requires born.writes == 0 && m < c.compactEveryWrites && Grown(s, born, records)
    ensures AfterLife(born, c, k, m, now).writes == 0 && Grown(s, AfterLife(born, c, k, m, now), records + m)
  {
    LifeLog(born, c, k, m, now);
  }

  lemma {:induction false} LivesLog<K, V>(s: Cache<K, V>, c: Config, k: K, m: nat, now: int, n: nat)
    requires s.writes == 0 && m < c.compactEveryWrites
    ensures AfterLives(s, c, k, m, now, n).writes == 0
    ensures Grown(s, AfterLives(s, c, k, m, now, n), Times(n, m))
  {
    if n > 0 {
      LivesLog(s, c, k, m, now, n - 1);
      GrowsMore(s, AfterLives(s, c, k, m, now, n - 1), c, k, m, now, Times(n - 1, m));
    }
  }

  /** Nothing bounds the log of a process that is restarted before `compactEveryWrites` writes. Each life
      of `m` writes leaves `m` records more, and the file only ever grows; with `m` one short of the
      threshold this is all that `LogStaysSmall` allows. */
  lemma RestartsGrowTheLog<K, V>(s: Cache<K, V>, c: Config, k: K, m: nat, now: int, n: nat)
    requires s.writes == 0 && m < c.compactEveryWrites
    ensures var t := AfterLives(s, c, k, m, now, n);
            t.writes == 0 && s.file <= t.file && |t.file| == |s.file| + n * m
  {
    LivesLog(s, c, k, m, now, n);
    TimesIs(n, m);
  }

  // ---------- Restarting ----------

  /** A file that replays to at most `max` entries is reopened without loss: the new store answers for
      every key what the file last says, unless expired; so every unexpired live entry is back. */
  lemma ReopenKeepsAll<K(!new), V>(s: Cache<K, V>, c: Config, now: int, k: K)
    requires Covered(s) && |Replay(s.file, c.ttlMs, now)| <= c.max
    ensures var store := Apply(s, c, Reopen(now)).store;
            && Lookup(store, k) == Unexpired(LastWrite(s.file, k), c.ttlMs, now)
            && (Has(s.store, k) ==> Lookup(store, k) == Unexpired(Lookup(s.store, k), c.ttlMs, now))
  {
    ReplayIsLastUnexpiredWrite(s.file, c.ttlMs, now, k);
  }

  /** Exactly when an unexpired live entry comes back: when the file set fewer than `max` other keys after
      it. What counts is when each key was first set in its present life, not when it was last written or
      read. */
  lemma LiveEntryReopensIff<K(!new), V>(s: Cache<K, V>, c: Config, now: int, k: K)
    requires c.max > 0 && Covered(s) && Has(s.store, k) && !Stale(Lookup(s.store, k).value, c.ttlMs, now)
    ensures Lookup(Apply(s, c, Reopen(now)).store, k) == Lookup(s.store, k)
       <==> |BornAfter(s.file, c.ttlMs, now, k)| < c.max
  {
    ReplayIsLastUnexpiredWrite(s.file, c.ttlMs, now, k);
    ReplayDistinct(s.file, c.ttlMs, now);
    LruCache.EvictionKeepsIff(Replay(s.file, c.ttlMs, now), k, c.max);
    BornAfterCount(s.file, c.ttlMs, now, k);
  }

  /** Writing a key that is not held, away from a compaction. */
  lemma SetFresh<K, V>(s: Cache<K, V>, c: Config, k: K, v: V, now: int)
    requires !Has(s.store, k) && c.ttlMs == 0 && s.writes + 1 < c.compactEveryWrites
    ensures Apply(s, c, Set(k, v, None, now))
         == Cache(Evicted(s.store + [Binding(k, Slot(v, None))], c.max), s.file + [SetRecord(k, Slot(v, None))], s.writes + 1)
  {
    RemoveAbsent(s.store, k);
  }

  lemma RunOneMore<K, V>(s: Cache<K, V>, c: Config, ops: seq<Op<K, V>>, op: Op<K, V>)
    ensures Run(s, c, ops + [op]) == Apply(Run(s, c, ops), c, op)
  {
    assert (ops + [op])[..|ops|] == ops;
  }

  lemma ReplayOneMore<K, V>(file: seq<Record<K, V>>, r: Record<K, V>, ttlMs: nat, now: int)
    ensures Replay(file + [r], ttlMs, now) == Replayed(Replay(file, ttlMs, now), r, ttlMs, now)
  {
    assert (file + [r])[..|file|] == file;
  }

  lemma HasConcat<K, V>(b: Binding<K, Slot<V>>, rest: Store<K, V>, k: K)
    ensures Has([b] + rest, k) <==> b.key == k || Has(rest, k)
    ensures Remove([b] + rest, k) == (if b.key == k then [] else [b]) + Remove(rest, k)
  {
    assert ([b] + rest)[1..] == rest;
  }

  lemma TwoWrites<K, V>(c: Config, a: K, b: K, x: V, y: V, now: int)
    requires a != b && c.max == 2 && c.ttlMs == 0 && c.compactEveryWrites > 3
    ensures Run(Cache([], [], 0), c, [] + [Set(a, x, None, now)] + [Set(b, y, None, now)])
         == Cache([Binding(a, Slot(x, None)), Binding(b, Slot(y, None))],
                  [SetRecord(a, Slot(x, None)), SetRecord(b, Slot(y, None))], 2)
  {
    var s0: Cache<K, V> := Cache([], [], 0);
    RunOneMore(s0, c, [], Set(a, x, None, now));
    SetFresh(s0, c, a, x, now);
    RunOneMore(s0, c, [] + [Set(a, x, None, now)], Set(b, y, None, now));
    var ba := Binding(a, Slot(x, None));
    HasConcat(ba, [], b);
    assert [ba] + [] == [] + [ba];
    SetFresh(Cache([] + [ba], [] + [SetRecord(a, Slot(x, None))], 1), c, b, y, now);
  }

  lemma ReadThenWrite<K, V>(s: Cache<K, V>, c: Config, a: K, b: K, d: K, x: V, y: V, z: V, now: int)
    requires a != b && a != d && b != d && c.max == 2 && c.ttlMs == 0 && c.compactEveryWrites > 3 && s.writes == 2
    requires s.store == [Binding(a, Slot(x, None)), Binding(b, Slot(y, None))]
    ensures Apply(Apply(s, c, Get(a, now)), c, Set(d, z, None, now))
         == Cache([Binding(a, Slot(x, None)), Binding(d, Slot(z, None))], s.file + [SetRecord(d, Slot(z, None))], 3)
  {
    var ba, bb := Binding(a, Slot(x, None)), Binding(b, Slot(y, None));
    assert s.store == [ba] + ([bb] + []);
    HasConcat(ba, [bb] + [], a);
    HasConcat(bb, [], a);
    HasConcat(bb, [ba] + [], d);
    HasConcat(ba, [], d);
    var t := s.(store := [bb] + ([ba] + []));
    assert Apply(s, c, Get(a, now)) == t;
    SetFresh(t, c, d, z, now);
  }

  /** The four operations of the example below. */
  lemma FourSteps<K, V>(c: Config, a: K, b: K, d: K, x: V, y: V, z: V, now: int)
    requires a != b && a != d && b != d && c.max == 2 && c.ttlMs == 0 && c.compactEveryWrites > 3
    ensures Run(Cache([], [], 0), c, [Set(a, x, None, now), Set(b, y, None, now), Get(a, now), Set(d, z, None, now)])
         == Cache([Binding(a, Slot(x, None)), Binding(d, Slot(z, None))],
                  [SetRecord(a, Slot(x, None)), SetRecord(b, Slot(y, None)), SetRecord(d, Slot(z, None))], 3)
  {
    var two := [] + [Set(a, x, None, now)] + [Set(b, y, None, now)];
    TwoWrites(c, a, b, x, y, now);
    RunOneMore(Cache([], [], 0), c, two, Get(a, now));
    RunOneMore(Cache([], [], 0), c, two + [Get(a, now)], Set(d, z, None, now));
    ReadThenWrite(Run(Cache([], [], 0), c, two), c, a, b, d, x, y, z, now);
    assert two + [Get(a, now)] + [Set(d, z, None, now)]
        == [Set(a, x, None, now), Set(b, y, None, now), Get(a, now), Set(d, z, None, now)];
  }

  /** Beyond `max` a restart may lose a live entry, because the file holds evicted keys and knows
      nothing of reads. With room for two, write `a` and `b`, read `a`, write `d`: `b` is evicted and
      `a` is live, but a restart brings back `b` and `d`. */
  lemma ReopenMayLoseALiveEntry<K(!new), V>(c: Config, a: K, b: K, d: K, x: V, y: V, z: V, now: int)
    requires a != b && a != d && b != d && c.max == 2 && c.ttlMs == 0 && c.compactEveryWrites > 3
    ensures var s := Run(Cache([], [], 0), c, [Set(a, x, None, now), Set(b, y, None, now), Get(a, now), Set(d, z, None, now)]);
            var reopened := Apply(s, c, Reopen(now));
            && Covered(s)
            && Lookup(s.store, a) == Some(Slot(x, None)) && Lookup(s.store, b) == None
            && Lookup(reopened.store, a) == None && Lookup(reopened.store, b) == Some(Slot(y, None))
  {
    FourSteps(c, a, b, d, x, y, z, now);
    var s: Cache<K, V> := Run(Cache([], [], 0), c, [Set(a, x, None, now), Set(b, y, None, now), Get(a, now), Set(d, z, None, now)]);
    RunCovered(Cache([], [], 0), c, [Set(a, x, None, now), Set(b, y, None, now), Get(a, now), Set(d, z, None, now)]);
    var ra, rb, rd := SetRecord(a, Slot(x, None)), SetRecord(b, Slot(y, None)), SetRecord(d, Slot(z, None));
    var ba, bb, bd := Binding(a, Slot(x, None)), Binding(b, Slot(y, None)), Binding(d, Slot(z, None));
    ReplayOneMore([], ra, 0, now);
    ReplayOneMore([] + [ra], rb, 0, now);
    ReplayOneMore([] + [ra] + [rb], rd, 0, now);
    assert [] + [ra] + [rb] + [rd] == s.file;
    HasConcat(ba, [], b);
    PutNew([ba] + [], b, Slot(y, None));
    HasConcat(bb, [], d);
    HasConcat(ba, [bb] + [], d);
    PutNew([ba] + ([bb] + []), d, Slot(z, None));
    assert [ba] + [] == [ba] && [ba] + ([bb] + []) == [ba] + [bb];
    assert Replay(s.file, 0, now) == [ba] + [bb] + [bd];
    assert Evicted([ba] + [bb] + [bd], 2) == [bb] + ([bd] + []);
    HasConcat(bb, [bd] + [], a);
    HasConcat(bd, [], a);
  }
}
