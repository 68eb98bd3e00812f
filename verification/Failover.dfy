/**
 * `ElectrumXClient.nameShow` (src/electrumx.js): up to `retries + 1` attempts across the hosts the
 * circuit breaker hands out. The network is a parameter: `World.reply(k, i)` is what host `i` does
 * with attempt `k`, and `pickTime(k)`, `failTime(k)` are the breaker's two clock readings in it.
 *
 * Calls overlap on one breaker. What the other calls do to it while this one waits is a parameter too:
 * `during(k)` while attempt `k` is out, `pausing(k)` in the sleep after it.
 */
module Failover {
  import opened Wrappers
  import opened Circuit

  const NAMECOIN_NAME_MAX_BYTES := 255

  /** One query against one host: a row or null, a definitive error, or any other error. */
  datatype Reply<R, E> = Answer(row: Option<R>) | Definitive(error: E) | Broken(error: E)

  datatype World<!R, !E> = World(
    reply: (nat, nat) -> Reply<R, E>,
    pickTime: nat -> int,
    failTime: nat -> int,
    during: nat -> seq<Event>,
    pausing: nat -> seq<Event>)

  /** How `nameShow` ends. `Exhausted` carries the last error, or nothing when no attempt was made. */
  datatype Outcome<R, E> =
    | BadName
    | Returned(row: Option<R>)
    | Raised(error: E)
    | Exhausted(last: Option<E>)

  /** A call: the breaker it leaves, how it ends, the hosts it was handed, and everything that happened to
      the breaker in the meantime. */
  datatype Trace<R, E> = Trace(breaker: Breaker, outcome: Outcome<R, E>, outs: seq<Handout>, events: seq<Event>)

  /** The breaker when attempt `k` has been picked and its reply arrives, and what was picked. */
  function Picked<R, E>(b: Breaker, w: World<R, E>, k: nat): (r: (Breaker, Handout))
    requires b.Valid()
    ensures r.0.Valid() && |r.0.hosts| == |b.hosts| && r.1.index < |b.hosts|
  {
    var (b', out) := b.PickNext(w.pickTime(k));
    (Run(b', w.during(k)), out)
  }

  /** The breaker before the next attempt, when attempt `k` has broken. No sleep follows the last one. */
  function Next<R, E>(b: Breaker, w: World<R, E>, k: nat, maxAttempts: int): (b'': Breaker)
    requires b.Valid()
    ensures b''.Valid() && |b''.hosts| == |b.hosts|
  {
    var (b', out) := Picked(b, w, k);
    var failed := b'.RecordFailure(out.index, w.failTime(k));
    if k + 1 < maxAttempts then Run(failed, w.pausing(k)) else failed
  }

  /** What attempt `k` records. */
  function Record<R, E>(w: World<R, E>, k: nat, out: Handout): seq<Event> {
    match w.reply(k, out.index)
    case Answer(_) => [Succeeded(out.index)]
    case Definitive(_) => []
    case Broken(_) => [Failed(out.index, w.failTime(k))]
  }

  /** All that happens to the breaker from attempt `k` to the next. */
  function Block<R, E>(w: World<R, E>, k: nat, maxAttempts: int, out: Handout): seq<Event> {
    [Pick(w.pickTime(k))] + w.during(k) + Record(w, k, out)
    + if w.reply(k, out.index).Broken? && k + 1 < maxAttempts then w.pausing(k) else []
  }

  /** Attempts `k .. maxAttempts`, with `last` the error of the one before. */
  function Attempts<R, E>(b: Breaker, w: World<R, E>, k: nat, maxAttempts: int, last: Option<E>): (t: Trace<R, E>)
    requires b.Valid()
    ensures t.breaker.Valid() && |t.breaker.hosts| == |b.hosts|
    decreases maxAttempts - k
  {
    if k >= maxAttempts then Trace(b, Exhausted(last), [], [])
    else
      var (b', out) := Picked(b, w, k);
      match w.reply(k, out.index)
      case Answer(row) => Trace(b'.RecordSuccess(out.index), Returned(row), [out], Block(w, k, maxAttempts, out))
      case Definitive(e) => Trace(b', Raised(e), [out], Block(w, k, maxAttempts, out))
      case Broken(e) =>
        var rest := Attempts(Next(b, w, k, maxAttempts), w, k + 1, maxAttempts, Some(e));
        Trace(rest.breaker, rest.outcome, [out] + rest.outs, Block(w, k, maxAttempts, out) + rest.events)
  }

  class ElectrumXClient {
    const breaker: HostBreaker
    const retries: int

    constructor (breaker: HostBreaker, retries: int)
      ensures this.breaker == breaker && this.retries == retries
    {
      this.breaker := breaker;
      this.retries := retries;
    }

    /** Other calls at the breaker while this one waits. */
    method OthersAct(es: seq<Event>)
      requires breaker.Valid()
      modifies breaker, breaker.state
      ensures breaker.Valid() && breaker.View() == Run(old(breaker.View()), es)
    {
      for i := 0 to |es|
        invariant breaker.Valid() && Run(old(breaker.View()), es) == Run(breaker.View(), es[i..])
      {
        assert es[i..][0] == es[i] && es[i..][1..] == es[i + 1..];
        match es[i]
        case Pick(now) => var _ := breaker.PickNext(now);
        case Succeeded(index) => breaker.RecordSuccess(index);
        case Failed(index, now) => breaker.RecordFailure(index, now);
      }
    }

    method NameShow<R, E>(nameBytes: nat, w: World<R, E>) returns (outcome: Outcome<R, E>)
      requires breaker.Valid()
      modifies breaker, breaker.state
      ensures breaker.Valid()
      ensures nameBytes == 0 || nameBytes > 255 ==>
                outcome == BadName && breaker.View() == old(breaker.View())
      ensures 0 < nameBytes <= 255 ==>
                var t := Attempts(old(breaker.View()), w, 0, retries + 1, None);
                outcome == t.outcome && breaker.View() == t.breaker
    {
      if nameBytes == 0 || nameBytes > NAMECOIN_NAME_MAX_BYTES {
        return BadName;
      }
      var lastErr: Option<E> := None;
      var maxAttempts := retries + 1;
      var attempt: nat := 0;
      while attempt < maxAttempts
        invariant breaker.Valid()
        invariant var t := Attempts(old(breaker.View()), w, 0, maxAttempts, None);
                  var rest := Attempts(breaker.View(), w, attempt, maxAttempts, lastErr);
                  t.outcome == rest.outcome && t.breaker == rest.breaker
        decreases maxAttempts - attempt
      {
        var out := breaker.PickNext(w.pickTime(attempt));
        OthersAct(w.during(attempt));
        match w.reply(attempt, out.index)
        case Answer(row) =>
          breaker.RecordSuccess(out.index);
          return Returned(row);
        case Definitive(e) =>
          return Raised(e);
        case Broken(e) =>
          lastErr := Some(e);
          breaker.RecordFailure(out.index, w.failTime(attempt));
          if attempt < maxAttempts - 1 { OthersAct(w.pausing(attempt)); }
          attempt := attempt + 1;
      }
      return Exhausted(lastErr);
    }
  }

  // ---------- What a call tells the breaker ----------

  /** The attempts that were handed `outs`, one after the other. */
  function Blocks<R, E>(w: World<R, E>, k: nat, maxAttempts: int, outs: seq<Handout>): seq<Event>
    decreases |outs|
  {
    if outs == [] then [] else Block(w, k, maxAttempts, outs[0]) + Blocks(w, k + 1, maxAttempts, outs[1..])
  }

  lemma BlockRuns<R, E>(b: Breaker, w: World<R, E>, k: nat, maxAttempts: int)
    requires b.Valid()
    ensures var (b', out) := Picked(b, w, k);
            Run(b, Block(w, k, maxAttempts, out)) ==
              match w.reply(k, out.index)
              case Answer(_) => b'.RecordSuccess(out.index)
              case Definitive(_) => b'
              case Broken(_) => Next(b, w, k, maxAttempts)
  {
    var (b', out) := Picked(b, w, k);
    var pick, record := [Pick(w.pickTime(k))], Record(w, k, out);
    var pause := if w.reply(k, out.index).Broken? && k + 1 < maxAttempts then w.pausing(k) else [];
    Unroll(b, pick[0], []);
    RunConcat(b, pick, w.during(k));
    RunConcat(b, pick + w.during(k), record);
    RunConcat(b, pick + w.during(k) + record, pause);
    if record != [] { Unroll(b', record[0], []); }
  }

  lemma BlocksThen<R, E>(w: World<R, E>, k: nat, maxAttempts: int, out: Handout, outs: seq<Handout>)
    ensures Blocks(w, k, maxAttempts, [out] + outs) == Block(w, k, maxAttempts, out) + Blocks(w, k + 1, maxAttempts, outs)
  {
    assert ([out] + outs)[1..] == outs;
  }

  /** Each host was handed out by the breaker as the attempts before it, and the other calls, had left it,
      and each attempt but the last broke. */
  ghost predicate HandedInTurn<R, E>(b: Breaker, w: World<R, E>, k: nat, maxAttempts: int, outs: seq<Handout>)
    requires b.Valid()
    decreases |outs|
  {
    outs == [] ||
      (&& outs[0] == b.PickNext(w.pickTime(k)).1
       && (|outs| > 1 ==> w.reply(k, outs[0].index).Broken?)
       && HandedInTurn(Run(b, Block(w, k, maxAttempts, outs[0])), w, k + 1, maxAttempts, outs[1..]))
  }

  /** How a call ends, by its last attempt. */
  ghost predicate EndsAs<R, E>(w: World<R, E>, k: nat, maxAttempts: int, t: Trace<R, E>)
    requires t.outs != []
  {
    match w.reply(k + |t.outs| - 1, t.outs[|t.outs| - 1].index)
    case Answer(row) => t.outcome == Returned(row)
    case Definitive(e) => t.outcome == Raised(e)
    case Broken(e) => t.outcome == Exhausted(Some(e)) && |t.outs| == maxAttempts - k
  }

  /** What a trace tells of a call from attempt `k` on. */
  ghost predicate Recorded<R, E>(b: Breaker, w: World<R, E>, k: nat, maxAttempts: int, t: Trace<R, E>)
    requires b.Valid()
  {
    && t.breaker == Run(b, t.events)
    && t.events == Blocks(w, k, maxAttempts, t.outs)
    && (t.outs == [] <==> k >= maxAttempts)
    && (t.outs != [] ==> EndsAs(w, k, maxAttempts, t))
    && HandedInTurn(b, w, k, maxAttempts, t.outs)
  }

  /** The breaker is told of each attempt once, in order, and of nothing else by this call: what happens to
      it are the call's attempts, each a pick, whatever others do meanwhile, and the record that the reply
      of the host handed out demands. */
  lemma {:induction false} OneRecordPerAttempt<R, E>(
      b: Breaker, w: World<R, E>, k: nat, maxAttempts: int, last: Option<E>)
    requires b.Valid()
    ensures Recorded(b, w, k, maxAttempts, Attempts(b, w, k, maxAttempts, last))
    decreases maxAttempts - k
  {
    var t := Attempts(b, w, k, maxAttempts, last);
    if k < maxAttempts {
      var out := Picked(b, w, k).1;
      BlockRuns(b, w, k, maxAttempts);
      if w.reply(k, out.index).Broken? {
        var next, e := Next(b, w, k, maxAttempts), w.reply(k, out.index).error;
        var rest := Attempts(next, w, k + 1, maxAttempts, Some(e));
        OneRecordPerAttempt(next, w, k + 1, maxAttempts, Some(e));
        RecordedLater(b, next, w, k, maxAttempts, out, e, rest, t);
      } else {
        RecordedOnce(b, w, k, maxAttempts, out, t);
      }
    }
  }

  lemma RecordedOnce<R, E>(b: Breaker, w: World<R, E>, k: nat, maxAttempts: int, out: Handout, t: Trace<R, E>)
    requires b.Valid() && k < maxAttempts && out == b.PickNext(w.pickTime(k)).1
    requires t.outs == [out] && t.events == Block(w, k, maxAttempts, out) && t.breaker == Run(b, t.events)
    requires EndsAs(w, k, maxAttempts, t)
    ensures Recorded(b, w, k, maxAttempts, t)
  {
    BlocksThen(w, k, maxAttempts, out, []);
    assert [out] + [] == [out];
  }

  lemma RecordedLater<R, E>(b: Breaker, next: Breaker, w: World<R, E>, k: nat, maxAttempts: int,
                            out: Handout, e: E, rest: Trace<R, E>, t: Trace<R, E>)
    requires b.Valid() && k < maxAttempts && out == b.PickNext(w.pickTime(k)).1 && w.reply(k, out.index) == Broken(e)
    requires next.Valid() && next == Run(b, Block(w, k, maxAttempts, out))
    requires Recorded(next, w, k + 1, maxAttempts, rest)
    requires rest.outs == [] ==> rest.outcome == Exhausted(Some(e))
    requires t == Trace(rest.breaker, rest.outcome, [out] + rest.outs, Block(w, k, maxAttempts, out) + rest.events)
    ensures Recorded(b, w, k, maxAttempts, t)
  {
    BlocksThen(w, k, maxAttempts, out, rest.outs);
    RunConcat(b, Block(w, k, maxAttempts, out), rest.events);
    EndsLater(w, k, maxAttempts, out, e, rest, t);
    assert t.outs[1..] == rest.outs;
  }

  lemma EndsLater<R, E>(w: World<R, E>, k: nat, maxAttempts: int, out: Handout, e: E, rest: Trace<R, E>, t: Trace<R, E>)
    requires k < maxAttempts && w.reply(k, out.index) == Broken(e)
    requires rest.outs == [] ==> k + 1 >= maxAttempts && rest.outcome == Exhausted(Some(e))
    requires rest.outs != [] ==> EndsAs(w, k + 1, maxAttempts, rest)
    requires t.outs == [out] + rest.outs && t.outcome == rest.outcome
    ensures EndsAs(w, k, maxAttempts, t)
  {
    if rest.outs != [] {
      assert t.outs[|t.outs| - 1] == rest.outs[|rest.outs| - 1];
      assert k + |t.outs| - 1 == k + 1 + |rest.outs| - 1;
    }
  }

  predicate AllBroke<R, E>(w: World<R, E>, k: nat, outs: seq<Handout>)
    decreases |outs|
  {
    outs == [] || (w.reply(k, outs[0].index).Broken? && AllBroke(w, k + 1, outs[1..]))
  }

  /** The retries are exhausted exactly when all of them were made and every one of them broke, whatever
      the other calls do. */
  lemma {:induction false} ExhaustedIffAllBroke<R, E>(
      b: Breaker, w: World<R, E>, k: nat, maxAttempts: int, last: Option<E>)
    requires b.Valid()
    ensures var t := Attempts(b, w, k, maxAttempts, last);
            t.outcome.Exhausted? <==>
              && |t.outs| == (if k >= maxAttempts then 0 else maxAttempts - k)
              && AllBroke(w, k, t.outs)
    decreases maxAttempts - k
  {
    if k < maxAttempts && w.reply(k, Picked(b, w, k).1.index).Broken? {
      var e := w.reply(k, Picked(b, w, k).1.index).error;
      var next := Next(b, w, k, maxAttempts);
      ExhaustedIffAllBroke(next, w, k + 1, maxAttempts, Some(e));
      assert Attempts(b, w, k, maxAttempts, last).outs[1..] == Attempts(next, w, k + 1, maxAttempts, Some(e)).outs;
    }
  }

  // ---------- A call alone ----------

  ghost predicate NeverBreaks<R, E>(w: World<R, E>, h: nat) {
    forall k: nat :: !w.reply(k, h).Broken?
  }

  /** No other call is at the breaker while this one runs. */
  ghost predicate Alone<R, E>(w: World<R, E>) {
    forall k: nat :: w.during(k) == [] && w.pausing(k) == []
  }

  /** A broken attempt on another host brings the cursor closer to an available host and leaves it
      available at any time. */
  lemma BrokenApproaches<R, E>(b: Breaker, w: World<R, E>, k: nat, maxAttempts: int, h: nat)
    requires b.Valid() && h < |b.hosts| && Available(b.hosts[h], w.pickTime(k)) && Alone(w)
    ensures var next := Next(b, w, k, maxAttempts);
            Picked(b, w, k).1.index != h ==>
              Offset(next, h) < Offset(b, h) && forall t :: Available(next.hosts[h], t)
  {
    PickApproaches(b, w.pickTime(k), h);
    assert w.during(k) == [] && w.pausing(k) == [];
  }

  /** Failover succeeds for a call alone. If host `h` is available at the first of the attempts and never
      breaks, and there are enough attempts to reach it, the retries are not exhausted: the call ends with
      an answer or a definitive error, whatever the other hosts and the clock do. */
  lemma {:induction false} FailoverSucceeds<R, E>(
      b: Breaker, w: World<R, E>, k: nat, maxAttempts: int, last: Option<E>, h: nat)
    requires b.Valid() && h < |b.hosts| && maxAttempts - k > Offset(b, h) && Alone(w)
    requires Available(b.hosts[h], w.pickTime(k)) && NeverBreaks(w, h)
    ensures !Attempts(b, w, k, maxAttempts, last).outcome.Exhausted?
    decreases maxAttempts - k
  {
    if Attempts(b, w, k, maxAttempts, last).outcome.Exhausted? {
      var next, e := ApproachesAndGoesOn(b, w, k, maxAttempts, last, h);
      FailoverSucceeds(next, w, k + 1, maxAttempts, Some(e), h);
    }
  }

  lemma ApproachesAndGoesOn<R, E>(b: Breaker, w: World<R, E>, k: nat, maxAttempts: int, last: Option<E>, h: nat)
    returns (next: Breaker, e: E)
    requires b.Valid() && h < |b.hosts| && k < maxAttempts && Alone(w)
    requires Available(b.hosts[h], w.pickTime(k)) && NeverBreaks(w, h)
    requires Attempts(b, w, k, maxAttempts, last).outcome.Exhausted?
    ensures next.Valid() && |next.hosts| == |b.hosts| && Offset(next, h) < Offset(b, h)
    ensures Available(next.hosts[h], w.pickTime(k + 1))
    ensures Attempts(next, w, k + 1, maxAttempts, Some(e)).outcome.Exhausted?
  {
    BrokenApproaches(b, w, k, maxAttempts, h);
    assert !w.reply(k, h).Broken?;
    next, e := Next(b, w, k, maxAttempts), w.reply(k, Picked(b, w, k).1.index).error;
  }

  /** As `nameShow` uses it: `retries >= N - 1` is enough, wherever the cursor stands. */
  lemma EnoughRetries<R, E>(b: Breaker, w: World<R, E>, retries: int, h: nat)
    requires b.Valid() && h < |b.hosts| && retries >= |b.hosts| - 1 && Alone(w)
    requires Available(b.hosts[h], w.pickTime(0)) && NeverBreaks(w, h)
    ensures !Attempts(b, w, 0, retries + 1, None).outcome.Exhausted?
  {
    FailoverSucceeds(b, w, 0, retries + 1, None, h);
  }

  /** `N - 1` retries are needed: with one fewer, a healthy last host that would answer is never
      reached when every host before it breaks. */
  lemma {:induction false} FewerRetriesExhaust<R, E>(w: World<R, E>, n: nat, k: nat, b: Breaker, last: Option<E>)
    requires k < n && n == |b.hosts| && b.cursor == k && Alone(w)
    requires forall i | k <= i < n :: b.hosts[i].phase.Closed?
    requires forall i: nat | i < n - 1 :: w.reply(i, i).Broken?
    ensures Attempts(b, w, k, n - 1, last).outcome.Exhausted?
    decreases n - k
  {
    if k < n - 1 {
      assert FirstReady(ThawAll(b.hosts, w.pickTime(k)), b.cursor, 0) == 0;
      assert w.during(k) == [] && w.pausing(k) == [];
      FewerRetriesExhaust(w, n, k + 1, Next(b, w, k, n - 1), Some(w.reply(k, k).error));
    }
  }

  // ---------- Overlapping calls ----------

  /** The breaker before attempt `a`, if all from `k` on break. */
  function Before<R, E>(b: Breaker, w: World<R, E>, k: nat, maxAttempts: int, a: nat): (b': Breaker)
    requires b.Valid() && k <= a
    ensures b'.Valid() && |b'.hosts| == |b.hosts|
    decreases a - k
  {
    if a == k then b else Before(Next(b, w, k, maxAttempts), w, k + 1, maxAttempts, a)
  }

  /** The host that attempt `a` is then handed. */
  function Handed<R, E>(b: Breaker, w: World<R, E>, k: nat, maxAttempts: int, a: nat): (i: nat)
    requires b.Valid() && k <= a
    ensures i < |b.hosts|
  {
    Picked(Before(b, w, k, maxAttempts, a), w, a).1.index
  }

  lemma {:induction false} ExhaustedBreaks<R, E>(b: Breaker, w: World<R, E>, k: nat, maxAttempts: int, last: Option<E>, a: nat)
    requires b.Valid() && Attempts(b, w, k, maxAttempts, last).outcome.Exhausted? && k <= a < maxAttempts
    ensures w.reply(a, Handed(b, w, k, maxAttempts, a)).Broken?
    decreases a - k
  {
    var next, e := ExhaustedGoesOn(b, w, k, maxAttempts, last, a);
    if a > k { ExhaustedBreaks(next, w, k + 1, maxAttempts, Some(e), a); }
  }

  lemma ExhaustedGoesOn<R, E>(b: Breaker, w: World<R, E>, k: nat, maxAttempts: int, last: Option<E>, a: nat)
    returns (next: Breaker, e: E)
    requires b.Valid() && Attempts(b, w, k, maxAttempts, last).outcome.Exhausted? && k <= a < maxAttempts
    ensures w.reply(k, Handed(b, w, k, maxAttempts, k)).Broken?
    ensures next.Valid() && Attempts(next, w, k + 1, maxAttempts, Some(e)).outcome.Exhausted?
    ensures a > k ==> Handed(b, w, k, maxAttempts, a) == Handed(next, w, k + 1, maxAttempts, a)
  {
    next, e := Next(b, w, k, maxAttempts), w.reply(k, Picked(b, w, k).1.index).error;
  }

  /** Host `h` is available at attempt `a`, and no other host handed to the call before is. */
  ghost predicate NoneComesBack<R, E>(b: Breaker, w: World<R, E>, maxAttempts: int, h: nat, a: nat)
    requires b.Valid() && h < |b.hosts|
  {
    var hosts, now := Before(b, w, 0, maxAttempts, a).hosts, w.pickTime(a);
    && Available(hosts[h], now)
    && forall i: nat | i < a :: Handed(b, w, 0, maxAttempts, i) == h || !Available(hosts[Handed(b, w, 0, maxAttempts, i)], now)
  }

  lemma HandedAnew<R, E>(b: Breaker, w: World<R, E>, maxAttempts: int, h: nat, i: nat, a: nat)
    requires b.Valid() && h < |b.hosts| && i < a && NoneComesBack(b, w, maxAttempts, h, a)
    requires Handed(b, w, 0, maxAttempts, i) != h
    ensures Handed(b, w, 0, maxAttempts, i) != Handed(b, w, 0, maxAttempts, a)
  {
    PickIsAvailable(Before(b, w, 0, maxAttempts, a), w.pickTime(a), h);
  }

  ghost predicate AllDifferent(xs: seq<nat>) {
    forall i, j | 0 <= i < j < |xs| :: xs[i] != xs[j]
  }

  /** `n` different numbers below `n` leave none out. */
  lemma {:induction false} Pigeonhole(xs: seq<nat>, n: nat, below: set<nat>)
    requires AllDifferent(xs) && forall i | 0 <= i < |xs| :: xs[i] in below
    requires |below| <= n
    ensures |xs| <= n
    decreases |xs|
  {
    if xs != [] {
      assert xs[0] in below;
      Pigeonhole(xs[1..], n - 1, below - {xs[0]});
    }
  }

  function Upto(n: nat): (s: set<nat>)
    ensures |s| == n && forall x :: x in s <==> 0 <= x < n
  {
    if n == 0 then {} else Upto(n - 1) + {n - 1}
  }

  /** Failover among overlapping calls. Whatever the other calls do to the breaker, `N` attempts are enough
      to reach a host that is available at each of them and never breaks, unless a host that this call was
      handed before becomes available again. */
  lemma OverlappingCallSucceeds<R, E>(b: Breaker, w: World<R, E>, maxAttempts: int, h: nat)
    requires b.Valid() && h < |b.hosts| <= maxAttempts
    requires forall j: nat | j < |b.hosts| :: NoneComesBack(b, w, maxAttempts, h, j)
    requires NeverBreaks(w, h)
    ensures !Attempts(b, w, 0, maxAttempts, None).outcome.Exhausted?
  {
    if Attempts(b, w, 0, maxAttempts, None).outcome.Exhausted? {
      var n := |b.hosts|;
      var xs := seq(n, (j: nat) => Handed(b, w, 0, maxAttempts, j));
      forall j: nat | j < n ensures xs[j] in Upto(n) - {h} {
        ExhaustedBreaks(b, w, 0, maxAttempts, None, j);
        assert !w.reply(j, h).Broken?;
      }
      forall i, j | 0 <= i < j < n ensures xs[i] != xs[j] {
        assert xs[i] in Upto(n) - {h};
        HandedAnew(b, w, maxAttempts, h, i, j);
      }
      Pigeonhole(xs, n - 1, Upto(n) - {h});
    }
  }

  /** Two hosts and other calls that succeed at both. Host 0 breaks for this call and host 1 does not. While
      an attempt is out, three other calls are handed hosts 1, 0 and 1; while this call sleeps, they report
      success. */
  ghost predicate Unlucky<R, E>(w: World<R, E>, now: int) {
    forall k: nat ::
      && w.reply(k, 0).Broken? && !w.reply(k, 1).Broken?
      && w.during(k) == [Pick(now), Pick(now), Pick(now)]
      && w.pausing(k) == [Succeeded(0), Succeeded(1), Succeeded(1)]
  }

  const BOTH_HEALTHY := Breaker([HEALTHY, HEALTHY], 0)

  lemma PickFromHealthy(now: int, c: nat)
    requires c < 2
    ensures Breaker([HEALTHY, HEALTHY], c).PickNext(now) == (Breaker([HEALTHY, HEALTHY], 1 - c), Handout(c, false))
  {
    var hosts := [HEALTHY, HEALTHY];
    assert ThawAll(hosts, now) == hosts;
    assert FirstReady(hosts, c, 0) == 0;
  }

  lemma RunThree(b: Breaker, x: Event, y: Event, z: Event)
    requires b.Valid()
    ensures Run(b, [x, y, z]) == Step(Step(Step(b, x), y), z)
  {
    assert [x, y, z][1..] == [y, z] && [y, z][1..] == [z];
    assert Run(Step(Step(b, x), y), [z]) == Step(Step(Step(b, x), y), z);
    assert Run(Step(b, x), [y, z]) == Run(Step(Step(b, x), y), [z]);
  }

  /** Three other calls: they are handed hosts 1, 0 and 1, unforced, and succeed at them. */
  lemma OthersSucceed(failed: Breaker, now: int)
    requires failed.cursor == 0 && |failed.hosts| == 2 && failed.hosts[1] == HEALTHY
    ensures var b := Breaker([HEALTHY, HEALTHY], 1);
            && b.PickNext(now).1 == Handout(1, false)
            && BOTH_HEALTHY.PickNext(now).1 == Handout(0, false)
            && Run(b, [Pick(now), Pick(now), Pick(now)]) == BOTH_HEALTHY
    ensures Run(failed, [Succeeded(0), Succeeded(1), Succeeded(1)]) == BOTH_HEALTHY
  {
    PickFromHealthy(now, 0);
    PickFromHealthy(now, 1);
    RunThree(Breaker([HEALTHY, HEALTHY], 1), Pick(now), Pick(now), Pick(now));
    RunThree(failed, Succeeded(0), Succeeded(1), Succeeded(1));
    assert failed.RecordSuccess(0) == BOTH_HEALTHY;
    assert BOTH_HEALTHY.RecordSuccess(1) == BOTH_HEALTHY;
  }

  /** One such attempt: host 0 is handed out although host 1 is healthy, and the others put everything back
      as it was. */
  lemma UnluckyAttempt<R, E>(w: World<R, E>, now: int, k: nat, maxAttempts: int)
    requires Unlucky(w, now)
    ensures Picked(BOTH_HEALTHY, w, k) == (BOTH_HEALTHY, Handout(0, false))
    ensures k + 1 < maxAttempts ==> Next(BOTH_HEALTHY, w, k, maxAttempts) == BOTH_HEALTHY
  {
    var failed := BOTH_HEALTHY.RecordFailure(0, w.failTime(k));
    PickFromHealthy(w.pickTime(k), 0);
    OthersSucceed(failed, now);
    assert w.during(k) == [Pick(now), Pick(now), Pick(now)];
    assert w.pausing(k) == [Succeeded(0), Succeeded(1), Succeeded(1)];
  }

  lemma {:induction false} UnluckyExhausts<R, E>(w: World<R, E>, now: int, k: nat, maxAttempts: int, last: Option<E>)
    requires Unlucky(w, now) && k <= maxAttempts
    ensures var t := Attempts(BOTH_HEALTHY, w, k, maxAttempts, last);
            && t.outcome.Exhausted? && |t.outs| == maxAttempts - k
            && forall o | o in t.outs :: o == Handout(0, false)
    decreases maxAttempts - k
  {
    if k < maxAttempts {
      UnluckyAttempt(w, now, k, maxAttempts);
      assert w.reply(k, 0).Broken?;
      if k + 1 < maxAttempts { UnluckyExhausts(w, now, k + 1, maxAttempts, Some(w.reply(k, 0).error)); }
    }
  }

  /** The hypothesis on the other calls is needed, for any number of retries: with two healthy hosts, a call
      may be handed the one that breaks for it again and again, and never the one that would answer. */
  lemma OverlapMayExhaust<R, E>(w: World<R, E>, now: int, maxAttempts: nat)
    requires Unlucky(w, now)
    ensures var t := Attempts(Fresh(2), w, 0, maxAttempts, None);
            && t.outcome.Exhausted? && |t.outs| == maxAttempts
            && forall o | o in t.outs :: o == Handout(0, false)
  {
    UnluckyExhausts(w, now, 0, maxAttempts, None);
    assert Fresh(2).hosts == BOTH_HEALTHY.hosts;
  }

  // ---------- A lost probe ----------

  /** Nothing another call does while this one runs records a success or failure of `h` or a failure of `g`,
      and `g` never breaks. */
  ghost predicate Spares<R, E>(w: World<R, E>, h: nat, g: nat) {
    forall k: nat ::
      && NoRecordOf(w.during(k), h) && NoRecordOf(w.pausing(k), h)
      && NoFailureOf(w.during(k), g) && NoFailureOf(w.pausing(k), g)
      && !w.reply(k, g).Broken?
  }

  /** A definitive error at a recovering host: the query was answered, but its probe is never recorded. */
  lemma DefinitiveLosesProbe<R, E>(b: Breaker, w: World<R, E>, maxAttempts: int, h: nat, g: nat)
    requires b.Valid() && maxAttempts > 0 && h < |b.hosts| && g < |b.hosts| && Spares(w, h, g)
    requires !b.hosts[h].phase.Closed? && b.hosts[g].phase.Closed?
    requires Picked(b, w, 0).1 == Handout(h, false) && w.reply(0, h).Definitive?
    ensures var t := Attempts(b, w, 0, maxAttempts, None);
            t.outcome == Raised(w.reply(0, h).error) && Lost(t.breaker, h, g)
  {
    var picked := b.PickNext(w.pickTime(0)).0;
    assert NoRecordOf(w.during(0), h) && NoFailureOf(w.during(0), g);
    assert Lost(picked, h, g);
    LostStaysLost(picked, w.during(0), h, g);
  }

  /** One attempt with `h` lost: it goes to another host and leaves `h` lost. */
  lemma LostAttempt<R, E>(b: Breaker, w: World<R, E>, k: nat, maxAttempts: int, h: nat, g: nat)
    requires Lost(b, h, g) && Spares(w, h, g)
    ensures var out := Picked(b, w, k).1;
            var block := Block(w, k, maxAttempts, out);
            && out.index != h && NoRecordOf(block, h) && NoFailureOf(block, g)
            && Lost(Run(b, block), h, g)
  {
    var out := Picked(b, w, k).1;
    var block := Block(w, k, maxAttempts, out);
    LostNotPicked(b, w.pickTime(k), h, g);
    assert NoRecordOf(w.during(k), h) && NoRecordOf(w.pausing(k), h);
    assert NoFailureOf(w.during(k), g) && NoFailureOf(w.pausing(k), g);
    assert !w.reply(k, g).Broken?;
    LostStaysLost(b, block, h, g);
  }

  /** The first attempt of a call with `h` lost: the rest of the call, if it goes on, and what has happened. */
  lemma LostFirst<R, E>(b: Breaker, w: World<R, E>, k: nat, maxAttempts: int, last: Option<E>, h: nat, g: nat)
    returns (goesOn: bool, next: Breaker, e: Option<E>, block: seq<Event>)
    requires k < maxAttempts && Lost(b, h, g) && Spares(w, h, g)
    ensures Lost(next, h, g) && NoRecordOf(block, h) && NoFailureOf(block, g)
    ensures var t := Attempts(b, w, k, maxAttempts, last);
            if goesOn then
              var rest := Attempts(next, w, k + 1, maxAttempts, e);
              t.breaker == rest.breaker && t.events == block + rest.events
            else t.breaker == next && t.events == block
  {
    var out := Picked(b, w, k).1;
    LostAttempt(b, w, k, maxAttempts, h, g);
    BlockRuns(b, w, k, maxAttempts);
    block := Block(w, k, maxAttempts, out);
    next := Run(b, block);
    goesOn := w.reply(k, out.index).Broken?;
    e := if goesOn then Some(w.reply(k, out.index).error) else None;
  }

  lemma {:induction false} LostThroughAttempts<R, E>(
      b: Breaker, w: World<R, E>, k: nat, maxAttempts: int, last: Option<E>, h: nat, g: nat)
    requires Lost(b, h, g) && Spares(w, h, g)
    ensures var t := Attempts(b, w, k, maxAttempts, last);
            Lost(t.breaker, h, g) && NoRecordOf(t.events, h) && NoFailureOf(t.events, g)
    decreases maxAttempts - k
  {
    if k < maxAttempts {
      var goesOn, next, e, block := LostFirst(b, w, k, maxAttempts, last, h, g);
      if goesOn { LostThroughAttempts(next, w, k + 1, maxAttempts, e, h, g); }
    }
  }

  lemma LostThroughCall<R, E>(b: Breaker, w: World<R, E>, k: nat, maxAttempts: int, last: Option<E>, h: nat, g: nat)
    requires Lost(b, h, g) && Spares(w, h, g)
    ensures var t := Attempts(b, w, k, maxAttempts, last);
            Lost(t.breaker, h, g) && forall o | o in Handouts(b, t.events) :: o.index != h
  {
    LostThroughAttempts(b, w, k, maxAttempts, last, h, g);
    LostStaysLost(b, Attempts(b, w, k, maxAttempts, last).events, h, g);
  }

  /** Calls one after the other, each with its own world. */
  function Calls<R, E>(b: Breaker, ws: seq<World<R, E>>, maxAttempts: int): (b': Breaker)
    requires b.Valid()
    ensures b'.Valid() && |b'.hosts| == |b.hosts|
    decreases |ws|
  {
    if |ws| == 0 then b else Calls(Attempts(b, ws[0], 0, maxAttempts, None).breaker, ws[1..], maxAttempts)
  }

  /** Every host handed out to anyone while they run. */
  function CallHandouts<R, E>(b: Breaker, ws: seq<World<R, E>>, maxAttempts: int): seq<Handout>
    requires b.Valid()
    decreases |ws|
  {
    if |ws| == 0 then []
    else
      var t := Attempts(b, ws[0], 0, maxAttempts, None);
      Handouts(b, t.events) + CallHandouts(t.breaker, ws[1..], maxAttempts)
  }

  /** A lost probe stays lost: through any number of calls, as long as some other host stays healthy, a
      host whose probe met a definitive error is handed out to nobody. */
  lemma {:induction false} LostForever<R, E>(b: Breaker, ws: seq<World<R, E>>, maxAttempts: int, h: nat, g: nat)
    requires Lost(b, h, g) && forall i | 0 <= i < |ws| :: Spares(ws[i], h, g)
    ensures Lost(Calls(b, ws, maxAttempts), h, g)
    ensures forall o | o in CallHandouts(b, ws, maxAttempts) :: o.index != h
    decreases |ws|
  {
    if |ws| > 0 {
      LostThroughCall(b, ws[0], 0, maxAttempts, None, h, g);
      LostForever(Attempts(b, ws[0], 0, maxAttempts, None).breaker, ws[1..], maxAttempts, h, g);
    }
  }
}
