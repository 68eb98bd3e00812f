/**
 * The caching resolver (src/resolver.js). Between its two awaits `resolve` is two synchronous
 * stretches: a cache read, and - once the lookup has ended - a cache write. Calls interleave freely,
 * so a run is any sequence of `Ask` and `Finish` events. Trimming and lower-casing, JSON extraction and
 * the parse-failure test are parameters.
 */
module Resolver {
  import opened Wrappers
  import opened OrderedMap
  import opened LruStore
  import opened Identifier
  import LruCache

  /** How a lookup ends. `BadRow` is a row whose value is not a string. */
  datatype Outcome = RateLimited | Threw | NoRecord | BadRow | Record(value: string)

  datatype World<!A> = World(
    normal: string -> string,
    extract: (string, string, string) -> Option<A>,
    parseFails: string -> bool)

  datatype Config = Config(max: nat, cacheTtlMs: nat, negCacheTtlMs: nat)

  /** The cache key. */
  function Key(n: Name): string {
    n.namecoin + "|" + n.local
  }

  /** The answer a lookup gives, with no cache in between. */
  function Answer<A>(w: World<A>, n: Name, l: Outcome): Option<A> {
    if l.Record? then w.extract(l.value, n.local, n.namecoin) else None
  }

  predicate Stored(l: Outcome) {
    !l.RateLimited? && !l.Threw?
  }

  /** Negative answers that may be a passing problem. */
  predicate ShortLived<A>(w: World<A>, n: Name, l: Outcome) {
    match l
    case Record(v) => w.extract(v, n.local, n.namecoin).None? && w.parseFails(v)
    case _ => true
  }

  /** The time to live of what a lookup stores. */
  function Ttl<A>(w: World<A>, c: Config, n: Name, l: Outcome): nat {
    if ShortLived(w, n, l) then c.negCacheTtlMs else c.cacheTtlMs
  }

  function Override<A>(w: World<A>, c: Config, n: Name, l: Outcome): Option<int> {
    if ShortLived(w, n, l) && c.negCacheTtlMs != c.cacheTtlMs then Some(c.negCacheTtlMs) else None
  }

  type Cache<A> = Store<string, Option<A>>

  /** The cache after a read, and the cached answer if there is one. */
  function Asked<A>(m: Cache<A>, c: Config, n: Name, now: int): (Cache<A>, Option<Option<A>>) {
    GetFrom(m, c.cacheTtlMs, Key(n), now)
  }

  function Finished<A>(m: Cache<A>, w: World<A>, c: Config, n: Name, l: Outcome, now: int): Cache<A> {
    if Stored(l) then SetIn(m, c.max, c.cacheTtlMs, Key(n), Answer(w, n, l), Override(w, c, n, l), now)
    else m
  }

  class NamecoinResolver<!A> {
    const cache: LruCache.LRUCache<string, Option<A>>
    const config: Config
    const world: World<A>
    var lastWasRateLimited: bool

    ghost predicate Valid() {
      cache.max == config.max && cache.ttlMs == config.cacheTtlMs
    }

    constructor (cache: LruCache.LRUCache<string, Option<A>>, config: Config, world: World<A>)
      requires cache.max == config.max && cache.ttlMs == config.cacheTtlMs
      ensures this.cache == cache && this.config == config && this.world == world && Valid()
    {
      this.cache := cache;
      this.config := config;
      this.world := world;
      lastWasRateLimited := false;
    }

    /** `resolve` up to its first await: the parsed name, and the cached answer if there is one. */
    method Begin(identifier: string, now: int) returns (n: Option<Name>, cached: Option<Option<A>>)
      requires Valid()
      modifies this, cache
      ensures Valid() && !lastWasRateLimited && n == ParseIdentifier(world.normal(identifier))
      ensures n.None? ==> cached == None && cache.store == old(cache.store)
      ensures n.Some? ==> (cache.store, cached) == Asked(old(cache.store), config, n.value, now)
    {
      lastWasRateLimited := false;
      n := ParseIdentifier(world.normal(identifier));
      if n.None? { return n, None; }
      cached := cache.Get(Key(n.value), now);
    }

    /** The rest of `resolve`, once the limiter has refused or the lookup has ended. */
    method Finish(n: Name, l: Outcome, now: int) returns (result: Option<A>)
      requires Valid()
      modifies this, cache
      ensures Valid() && result == Answer(world, n, l)
      ensures result == match l case Record(v) => world.extract(v, n.local, n.namecoin) case _ => None
      ensures cache.store == Finished(old(cache.store), world, config, n, l, now)
      ensures lastWasRateLimited == (l.RateLimited? || old(lastWasRateLimited))
    {
      result := None;
      var parseFailure := false;
      match l {
        case RateLimited =>
          lastWasRateLimited := true;
          return None;
        case Threw =>
          return None;
        case Record(v) =>
          result := world.extract(v, n.local, n.namecoin);
          if result.None? { parseFailure := world.parseFails(v); }
        case NoRecord => parseFailure := true;
        case BadRow => parseFailure := true;
      }
      if result.None? && parseFailure && config.negCacheTtlMs != config.cacheTtlMs {
        cache.Set(Key(n), result, Some(config.negCacheTtlMs), now);
      } else {
        cache.Set(Key(n), result, None, now);
      }
    }
  }

  // ---------- Runs ----------

  datatype Event = Ask(n: Name, now: int) | Finish(n: Name, l: Outcome, now: int)

  function Step<A>(m: Cache<A>, w: World<A>, c: Config, e: Event): Cache<A> {
    match e
    case Ask(n, now) => Asked(m, c, n, now).0
    case Finish(n, l, now) => Finished(m, w, c, n, l, now)
  }

  function Run<A>(m: Cache<A>, w: World<A>, c: Config, es: seq<Event>): Cache<A>
    decreases |es|
  {
    if es == [] then m else Run(Step(m, w, c, es[0]), w, c, es[1..])
  }

  /** The latest event of a run that stored an answer under a key. */
  function LastStored(es: seq<Event>, key: string): Option<Event> {
    if es == [] then None
    else
      var e := es[|es| - 1];
      if e.Finish? && Stored(e.l) && Key(e.n) == key then Some(e) else LastStored(es[..|es| - 1], key)
  }

  lemma {:induction false} LastStoredOccurs(es: seq<Event>, key: string)
    ensures LastStored(es, key).Some? ==>
              var e := LastStored(es, key).value;
              e in es && e.Finish? && Stored(e.l) && Key(e.n) == key
  {
    if es != [] { LastStoredOccurs(es[..|es| - 1], key); }
  }

  function SlotOf<A>(w: World<A>, c: Config, e: Event): Slot<Option<A>>
    requires e.Finish?
  {
    Slot(Answer(w, e.n, e.l), Expiry(c.cacheTtlMs, Override(w, c, e.n, e.l), e.now))
  }

  /** Whatever the cache holds under a key was put there by the last lookup stored under it. */
  ghost predicate Explained<A>(m: Cache<A>, w: World<A>, c: Config, past: seq<Event>, key: string) {
    Distinct(m) &&
    (Has(m, key) ==>
       var last := LastStored(past, key);
       last.Some? && last.value.Finish? && Lookup(m, key).value == SlotOf(w, c, last.value))
  }

  lemma StepExplained<A>(m: Cache<A>, w: World<A>, c: Config, past: seq<Event>, e: Event, key: string)
    requires Explained(m, w, c, past, key)
    ensures Explained(Step(m, w, c, e), w, c, past + [e], key)
  {
    assert (past + [e])[..|past|] == past;
    match e
    case Ask(n, now) =>
      GetHolds(m, c.cacheTtlMs, Key(n), now, key);
    case Finish(n, l, now) =>
      SetHolds(m, c.max, c.cacheTtlMs, Key(n), Answer(w, n, l), Override(w, c, n, l), now, key);
  }

  lemma {:induction false} RunExplained<A>(m: Cache<A>, w: World<A>, c: Config, past: seq<Event>, es: seq<Event>, key: string)
    requires Explained(m, w, c, past, key)
    ensures Explained(Run(m, w, c, es), w, c, past + es, key)
    decreases |es|
  {
    if es == [] {
      assert past + es == past;
    } else {
      StepExplained(m, w, c, past, es[0], key);
      RunExplained(Step(m, w, c, es[0]), w, c, past + [es[0]], es[1..], key);
      assert past + [es[0]] + es[1..] == past + es;
    }
  }

  // ---------- Bounded staleness ----------

  predicate NoBar(s: string) {
    '|' !in s
  }

  lemma FirstBar(n: Name)
    ensures Key(n)[|n.namecoin|] == '|'
    ensures NoBar(n.namecoin) ==> forall i | 0 <= i < |n.namecoin| :: Key(n)[i] != '|'
  {
    assert forall i | 0 <= i < |n.namecoin| :: Key(n)[i] == n.namecoin[i];
  }

  /** Among names without a bar, whatever their local parts, keys are unambiguous. */
  lemma KeyInjective(n: Name, n': Name)
    requires NoBar(n.namecoin) && NoBar(n'.namecoin) && Key(n) == Key(n')
    ensures n == n'
  {
    FirstBar(n);
    FirstBar(n');
    var a := |n.namecoin|;
    assert a == |n'.namecoin|;
    assert Key(n)[..a] == n.namecoin && Key(n')[..a] == n'.namecoin;
    assert Key(n)[a + 1..] == n.local && Key(n')[a + 1..] == n'.local;
  }

  /** A key read with its bar at `i`. */
  function Reading(key: string, i: nat): Name
    requires i < |key|
  {
    Name(key[..i], key[i + 1..])
  }

  lemma OwnReading(n: Name)
    ensures n == Reading(Key(n), |n.namecoin|) && Key(n)[|n.namecoin|] == '|'
  {
    var key := Key(n);
    assert key[..|n.namecoin|] == n.namecoin && key[|n.namecoin| + 1..] == n.local;
  }

  lemma ReadingKey(key: string, i: nat)
    requires i < |key| && key[i] == '|'
    ensures Key(Reading(key, i)) == key
  {
    assert key == key[..i] + "|" + key[i + 1..];
  }

  /** The code's key is not injective: the names with a given key are its readings, one for each bar. */
  lemma KeyReadings(n: Name, n': Name)
    ensures Key(n') == Key(n) <==> exists i | 0 <= i < |Key(n)| && Key(n)[i] == '|' :: n' == Reading(Key(n), i)
  {
    OwnReading(n');
    if i :| 0 <= i < |Key(n)| && Key(n)[i] == '|' && n' == Reading(Key(n), i) { ReadingKey(Key(n), i); }
  }

  /** A question whose key reads as another one that can be asked. */
  predicate Shared(n: Name) {
    exists i | 0 <= i < |Key(n)| && i != |n.namecoin| && Key(n)[i] == '|' :: Askable(Reading(Key(n), i))
  }

  /** Exactly when a question shares its key with another that some identifier asks. */
  lemma KeySharedIff(n: Name)
    ensures (exists n': Name :: Askable(n') && n' != n && Key(n') == Key(n)) <==> Shared(n)
  {
    if n': Name :| Askable(n') && n' != n && Key(n') == Key(n) {
      KeyReadings(n, n');
      var i :| 0 <= i < |Key(n)| && Key(n)[i] == '|' && n' == Reading(Key(n), i);
      OwnReading(n);
      assert i != |n.namecoin|;
    }
    if Shared(n) {
      var i :| 0 <= i < |Key(n)| && i != |n.namecoin| && Key(n)[i] == '|' && Askable(Reading(Key(n), i));
      ReadingKey(Key(n), i);
      assert |Reading(Key(n), i).namecoin| == i;
    }
  }

  /** Without a bar in its name or local part, a question has its key to itself. */
  lemma NoBarOwnKey(n: Name, n': Name)
    requires NoBar(n.namecoin) && NoBar(n.local) && Key(n') == Key(n)
    ensures n' == n
  {
    var a, key := |n.namecoin|, Key(n);
    FirstBar(n');
    assert forall i | 0 <= i < |key| && i != a ::
        key[i] == if i < a then n.namecoin[i] else n.local[i - a - 1];
    assert forall i | 0 <= i < |n.namecoin| :: n.namecoin[i] in n.namecoin;
    assert forall i | 0 <= i < |n.local| :: n.local[i] in n.local;
    assert |n'.namecoin| == a;
    assert Key(n')[..a] == n'.namecoin && key[..a] == n.namecoin;
    assert Key(n')[a + 1..] == n'.local && key[a + 1..] == n.local;
  }

  lemma BarMoves(a: string, b: string)
    ensures Key(Name("d/" + (a + "|" + b), "_")) == Key(Name("d/" + a, b + "|_"))
  {
    assert "d/" + (a + "|" + b) + "|" + "_" == "d/" + a + "|" + (b + "|_");
  }

  /** And bars do occur: for any plain stems `a` and `b`, the identifiers `d/a|b` and `b|_@d/a`
      parse to different names and share a cache key. */
  lemma AmbiguousIdentifiers(a: string, b: string) returns (n: Name, n': Name)
    requires Plain(a) && Plain(b) && SevenBit(a) && SevenBit(b) && |a| + |b| < MAX_STEM_LEN
    ensures ParseIdentifier("d/" + (a + "|" + b)) == Some(n)
    ensures ParseIdentifier((b + "|_") + "@" + ("d/" + a)) == Some(n')
    ensures n != n' && Key(n) == Key(n')
  {
    n, n' := Name("d/" + (a + "|" + b), "_"), Name("d/" + a, b + "|_");
    PlainParses(a + "|" + b, "_");
    PlainParses(a, b + "|_");
    BarMoves(a, b);
    assert |n'.local| > |n.local|;
  }

  /** Bounded staleness. After any interleaving of calls, a cached answer is exactly what an uncached
      lookup gave when it was stored: the last one stored under the same key, less than its class's time
      to live ago. Rate-limited and failed lookups are never what is answered. The lookup was one of the
      very name asked for whenever that question has its key to itself, whatever else the run asks - or
      when no name of the run has a bar. */
  lemma BoundedStaleness<A>(w: World<A>, c: Config, es: seq<Event>, n: Name, now: int)
    requires c.cacheTtlMs > 0 && c.negCacheTtlMs > 0
    requires Asked(Run([], w, c, es), c, n, now).1.Some?
    ensures var cached := Asked(Run([], w, c, es), c, n, now).1.value;
            var last := LastStored(es, Key(n));
            && last.Some? && last.value in es && last.value.Finish? && Stored(last.value.l)
            && Key(last.value.n) == Key(n)
            && cached == Answer(w, last.value.n, last.value.l)
            && now - last.value.now < Ttl(w, c, last.value.n, last.value.l)
            && (NoBar(n.namecoin) && (NoBar(n.local) || forall e | e in es :: NoBar(e.n.namecoin)) ==>
                  last.value.n == n)
  {
    RunExplained([], w, c, [], es, Key(n));
    assert [] + es == es;
    LastStoredOccurs(es, Key(n));
    var n' := LastStored(es, Key(n)).value.n;
    if NoBar(n.namecoin) && NoBar(n.local) { NoBarOwnKey(n, n'); }
    if NoBar(n.namecoin) && NoBar(n'.namecoin) { KeyInjective(n, n'); }
  }

  /** When two questions share a key, a lookup for one is served as the answer to the other, for as long
      as it lives. */
  lemma SharedKeyServesOther<A>(w: World<A>, c: Config, n: Name, n': Name, l: Outcome, s: int, now: int)
    requires Key(n) == Key(n') && Stored(l) && c.max > 0
    requires c.cacheTtlMs > 0 && c.negCacheTtlMs > 0 && now - s < Ttl(w, c, n', l)
    ensures Asked(Run([], w, c, [Finish(n', l, s)]), c, n, now).1 == Some(Answer(w, n', l))
  {
    var slot := SlotOf(w, c, Finish(n', l, s));
    assert [Finish(n', l, s)][1..] == [];
    assert Run([], w, c, [Finish(n', l, s)]) == [Binding(Key(n'), slot)];
  }

  /** So there are identifiers that are given each other's answers: after a lookup of `b|_@d/a`, asking for
      `d/a|b` yields what the former's record says, without a lookup. */
  lemma WrongAnswerServed<A>(w: World<A>, c: Config, a: string, b: string, l: Outcome, s: int, now: int)
    returns (n: Name, n': Name)
    requires Plain(a) && Plain(b) && SevenBit(a) && SevenBit(b) && |a| + |b| < MAX_STEM_LEN
    requires Stored(l) && c.max > 0 && c.cacheTtlMs > 0 && c.negCacheTtlMs > 0
    ensures ParseIdentifier("d/" + (a + "|" + b)) == Some(n)
    ensures ParseIdentifier((b + "|_") + "@" + ("d/" + a)) == Some(n') && n != n'
    ensures now - s < Ttl(w, c, n', l) ==>
              Asked(Run([], w, c, [Finish(n', l, s)]), c, n, now).1 == Some(Answer(w, n', l))
  {
    n, n' := AmbiguousIdentifiers(a, b);
    if now - s < Ttl(w, c, n', l) { SharedKeyServesOther(w, c, n, n', l, s, now); }
  }

  /** Whatever is asked and looked up, a cached answer to `n` comes from a lookup of `n` itself. */
  ghost predicate OwnAnswersOnly<A>(w: World<A>, c: Config, n: Name) {
    forall es: seq<Event>, now: int ::
      (forall e | e in es :: Askable(e.n)) && Asked(Run([], w, c, es), c, n, now).1.Some? ==>
        LastStored(es, Key(n)).Some? && LastStored(es, Key(n)).value.n == n
  }

  /** A question that shares its key is given the other one's answer right after a lookup of that one. */
  lemma SharedMayMistake<A>(w: World<A>, c: Config, n: Name) returns (n': Name)
    requires c.max > 0 && c.cacheTtlMs > 0 && c.negCacheTtlMs > 0 && Shared(n)
    ensures Askable(n') && n' != n
    ensures var es := [Finish(n', NoRecord, 0)];
            && Asked(Run([], w, c, es), c, n, 0).1.Some?
            && LastStored(es, Key(n)) == Some(Finish(n', NoRecord, 0))
  {
    KeySharedIff(n);
    n' :| Askable(n') && n' != n && Key(n') == Key(n);
    SharedKeyServesOther(w, c, n, n', NoRecord, 0, 0);
  }

  lemma UnsharedNeverMistakes<A>(w: World<A>, c: Config, n: Name, es: seq<Event>, now: int)
    requires c.cacheTtlMs > 0 && c.negCacheTtlMs > 0 && !Shared(n)
    requires (forall e | e in es :: Askable(e.n)) && Asked(Run([], w, c, es), c, n, now).1.Some?
    ensures LastStored(es, Key(n)).Some? && LastStored(es, Key(n)).value.n == n
  {
    BoundedStaleness(w, c, es, n, now);
    KeySharedIff(n);
  }

  /** Exactly when a question may be given another question's answer. */
  lemma OwnAnswersIff<A>(w: World<A>, c: Config, n: Name)
    requires c.max > 0 && c.cacheTtlMs > 0 && c.negCacheTtlMs > 0
    ensures OwnAnswersOnly(w, c, n) <==> !Shared(n)
  {
    if Shared(n) {
      var n' := SharedMayMistake(w, c, n);
      var es := [Finish(n', NoRecord, 0)];
      assert forall e | e in es :: Askable(e.n);
    } else {
      forall es: seq<Event>, now: int
        | (forall e | e in es :: Askable(e.n)) && Asked(Run([], w, c, es), c, n, now).1.Some?
        ensures LastStored(es, Key(n)).Some? && LastStored(es, Key(n)).value.n == n
      {
        UnsharedNeverMistakes(w, c, n, es, now);
      }
    }
  }

  /** How long an answer is good for. A refusal or an error stores nothing. Anything else is answered, with
      what the record says of the local part under the name, until the time to live of its class has passed:
      the short one for a missing or malformed row and for a record that does not parse, the long one for a
      record that does, whether or not it has the local part. */
  lemma CachedForItsClass<A>(m: Cache<A>, w: World<A>, c: Config, n: Name, l: Outcome, now: int, later: int)
    requires Distinct(m) && c.max > 0 && c.cacheTtlMs > 0 && c.negCacheTtlMs > 0
    ensures var m' := Finished(m, w, c, n, l, now);
            match l
            case RateLimited => m' == m
            case Threw => m' == m
            case NoRecord => Asked(m', c, n, later).1 == if later < now + c.negCacheTtlMs then Some(None) else None
            case BadRow => Asked(m', c, n, later).1 == if later < now + c.negCacheTtlMs then Some(None) else None
            case Record(v) =>
              var answer := w.extract(v, n.local, n.namecoin);
              var life := if answer.None? && w.parseFails(v) then c.negCacheTtlMs else c.cacheTtlMs;
              Asked(m', c, n, later).1 == if later < now + life then Some(answer) else None
  {
    if Stored(l) {
      var limits := LruCache.Limits(c.max, c.cacheTtlMs);
      LruCache.WrittenIsRead(m, limits, [], Key(n), Answer(w, n, l), Override(w, c, n, l), now, {}, later);
    }
  }

  /** A failed or rate-limited lookup leaves no trace: every later cache, hence every later answer, is
      what it would have been without it. */
  lemma {:induction false} FailuresLeaveNoTrace<A>(m: Cache<A>, w: World<A>, c: Config, es: seq<Event>, n: Name, l: Outcome, now: int, more: seq<Event>)
    requires l.RateLimited? || l.Threw?
    ensures Run(m, w, c, es + [Finish(n, l, now)] + more) == Run(m, w, c, es + more)
    decreases |es|
  {
    var failed := es + [Finish(n, l, now)] + more;
    if es == [] {
      assert failed[1..] == more == es + more;
    } else {
      FailuresLeaveNoTrace(Step(m, w, c, es[0]), w, c, es[1..], n, l, now, more);
      assert failed[1..] == es[1..] + [Finish(n, l, now)] + more && (es + more)[1..] == es[1..] + more;
    }
  }
}
