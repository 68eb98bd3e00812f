/**
 * The token bucket (src/ratelimit.js). Tokens and clock readings are real numbers.
 *
 * Refilling, testing and taking a token is one synchronous stretch, in `tryAcquire` and in each round
 * of `acquire` alike; whatever the concurrent acquirers do, the bucket sees a sequence of such polls.
 */
module RateLimit {

  datatype Rate = Rate(rps: real, burst: real)

  datatype Bucket = Bucket(tokens: real, lastRefill: real)

  ghost predicate Positive(r: Rate) {
    r.rps > 0.0 && r.burst > 0.0
  }

  ghost predicate Sound(b: Bucket, r: Rate) {
    0.0 <= b.tokens <= r.burst
  }

  function Full(r: Rate, now: real): Bucket {
    Bucket(r.burst, now)
  }

  /** Tokens gained in `d` milliseconds. */
  function Gain(r: Rate, d: real): real {
    (d / 1000.0) * r.rps
  }

  function Refilled(b: Bucket, r: Rate, now: real): Bucket {
    if now <= b.lastRefill then b
    else
      var t := b.tokens + Gain(r, now - b.lastRefill);
      Bucket(if t < r.burst then t else r.burst, now)
  }

  function Poll(b: Bucket, r: Rate, now: real): (Bucket, bool) {
    var f := Refilled(b, r, now);
    if f.tokens >= 1.0 then (f.(tokens := f.tokens - 1.0), true) else (f, false)
  }

  /** The bucket after polls at the given readings, and how many of them were granted. */
  function After(b: Bucket, r: Rate, ts: seq<real>): Bucket
    decreases |ts|
  {
    if ts == [] then b else After(Poll(b, r, ts[0]).0, r, ts[1..])
  }

  function Grants(b: Bucket, r: Rate, ts: seq<real>): nat
    decreases |ts|
  {
    if ts == [] then 0
    else (if Poll(b, r, ts[0]).1 then 1 else 0) + Grants(Poll(b, r, ts[0]).0, r, ts[1..])
  }

  // ---------- Waiting ----------

  function Ceil(x: real): int {
    -((-x).Floor)
  }

  /** How long to sleep with `tokens` left in the bucket and `remaining` until the deadline. */
  function Wait(tokens: real, r: Rate, remaining: real): real
    requires r.rps != 0.0
  {
    var forToken := Ceil((1.0 - tokens) / r.rps * 1000.0) as real;
    var w := if forToken < remaining then forToken else remaining;
    if w > 5.0 then w else 5.0
  }

  /** The world of one waiter. The clock is read more than once without a sleep in between: `next(i, t)` is
      the reading after one of `t`, the first for the deadline, the second for the first round's refill,
      and then one in each round to test the deadline. `wake` says when the `n`-th sleep of `w` from `t`
      ends, and `others` which polls other acquirers make during it. */
  datatype World = World(next: (nat, real) -> real, wake: (nat, real, real) -> real, others: nat -> seq<real>)

  ghost predicate SleepsLongEnough(e: World) {
    && (forall i: nat, t: real :: e.next(i, t) >= t)
    && forall n: nat, t: real, w: real :: e.wake(n, t, w) >= t + w
  }

  ghost predicate SleepsExactly(e: World) {
    && (forall i: nat, t: real :: e.next(i, t) == t)
    && forall n: nat, t: real, w: real :: e.wake(n, t, w) == t + w
  }

  ghost predicate Alone(e: World) {
    forall n: nat :: e.others(n) == []
  }

  datatype Waited = Waited(bucket: Bucket, granted: bool, end: real, sleeps: nat)

  /** The most rounds that can still begin with `d` milliseconds left. */
  function Rounds(d: real): nat {
    if d <= 0.0 then 0
    else
      var n := (d / 5.0).Floor;
      if n >= 0 then n + 1 else 0
  }

  lemma RoundsDrop(d: real, d': real)
    requires d > 0.0 && d' <= d - 5.0
    ensures Rounds(d') < Rounds(d)
  {
    assert d' / 5.0 <= d / 5.0 - 1.0;
  }

  /** The loop of `acquire`, from its `n`-th round, which refills at clock reading `now`. */
  ghost function Waiting(b: Bucket, r: Rate, deadline: real, e: World, n: nat, now: real): Waited
    requires Positive(r) && SleepsLongEnough(e)
    decreases Rounds(deadline - now)
  {
    var (b', ok) := Poll(b, r, now);
    var check := e.next(n + 2, now);
    assert check >= now;
    if ok then Waited(b', true, now, n)
    else if check >= deadline then Waited(b', false, check, n)
    else
      var w := Wait(b'.tokens, r, deadline - check);
      var now' := e.wake(n, check, w);
      assert now' >= check + w;
      RoundsDrop(deadline - now, deadline - now');
      Waiting(After(b', r, e.others(n)), r, deadline, e, n + 1, now')
  }

  /** A round that finds no token before the deadline: a sleep, the others' polls, the next round. */
  lemma WaitingSleeps(b: Bucket, r: Rate, deadline: real, e: World, n: nat, now: real)
    requires Positive(r) && SleepsLongEnough(e)
    requires !Poll(b, r, now).1 && e.next(n + 2, now) < deadline
    ensures var b', check := Poll(b, r, now).0, e.next(n + 2, now);
            var woken := e.wake(n, check, Wait(b'.tokens, r, deadline - check));
            && Rounds(deadline - woken) < Rounds(deadline - now)
            && Waiting(b, r, deadline, e, n, now) == Waiting(After(b', r, e.others(n)), r, deadline, e, n + 1, woken)
  {
    var b', check := Poll(b, r, now).0, e.next(n + 2, now);
    assert check >= now;
    var w := Wait(b'.tokens, r, deadline - check);
    assert e.wake(n, check, w) >= check + w;
    RoundsDrop(deadline - now, deadline - e.wake(n, check, w));
  }

  ghost function Acquired(b: Bucket, r: Rate, queueMs: real, e: World, now: real): Waited
    requires Positive(r) && SleepsLongEnough(e)
  {
    var (b', ok) := Poll(b, r, now);
    if ok then Waited(b', true, now, 0)
    else if queueMs <= 0.0 then Waited(b', false, now, 0)
    else
      var t := e.next(0, now);
      Waiting(b', r, t + queueMs, e, 0, e.next(1, t))
  }

  class TokenBucket {
    const rps: real
    const burst: real
    const queueMs: real
    var tokens: real
    var lastRefill: real

    ghost function View(): Bucket
      reads this
    {
      Bucket(tokens, lastRefill)
    }

    ghost function Speed(): Rate {
      Rate(rps, burst)
    }

    ghost predicate Valid()
      reads this
    {
      Positive(Speed()) && queueMs >= 0.0 && Sound(View(), Speed())
    }

    /** The source throws on any other numbers. */
    constructor (rps: real, burst: real, queueMs: real, now: real)
      requires rps > 0.0 && burst > 0.0 && queueMs >= 0.0
      ensures this.rps == rps && this.burst == burst && this.queueMs == queueMs
      ensures Valid() && View() == Full(Speed(), now)
    {
      this.rps := rps;
      this.burst := burst;
      this.queueMs := queueMs;
      this.tokens := burst;
      this.lastRefill := now;
    }

    method Refill(now: real)
      requires Valid()
      modifies this
      ensures Valid() && View() == Refilled(old(View()), Speed(), now)
    {
      PollSound(View(), Speed(), now);
      var elapsed := if now - lastRefill > 0.0 then now - lastRefill else 0.0;
      if elapsed <= 0.0 { return; }
      var add := (elapsed / 1000.0) * rps;
      if add > 0.0 {
        tokens := if burst < tokens + add then burst else tokens + add;
        lastRefill := now;
      }
    }

    method TryAcquire(now: real) returns (ok: bool)
      requires Valid()
      modifies this
      ensures Valid() && (View(), ok) == Poll(old(View()), Speed(), now)
    {
      PollSound(View(), Speed(), now);
      Refill(now);
      if tokens >= 1.0 {
        tokens := tokens - 1.0;
        return true;
      }
      return false;
    }

    /** Other acquirers polling while this one sleeps. */
    method OthersPoll(ts: seq<real>)
      requires Valid()
      modifies this
      ensures Valid() && View() == After(old(View()), Speed(), ts)
    {
      for i := 0 to |ts|
        invariant Valid() && After(old(View()), Speed(), ts) == After(View(), Speed(), ts[i..])
      {
        var _ := TryAcquire(ts[i]);
        assert ts[i..][1..] == ts[i + 1..];
      }
    }

    /** Until the next whole token, capped by the time remaining, and at least 5 ms. */
    method TimeToWait(remaining: real) returns (wait: real)
      requires Valid()
      ensures wait == Wait(tokens, Speed(), remaining) && wait >= 5.0
    {
      var tokensNeeded := 1.0 - tokens;
      var waitForToken := Ceil((tokensNeeded / rps) * 1000.0) as real;
      wait := if waitForToken < remaining then waitForToken else remaining;
      if wait <= 5.0 { wait := 5.0; }
    }

    method Acquire(e: World, start: real) returns (ok: bool, end: real)
      requires Valid() && SleepsLongEnough(e)
      modifies this
      ensures Valid()
      ensures var w := Acquired(old(View()), Speed(), queueMs, e, start);
              View() == w.bucket && ok == w.granted && end == w.end
    {
      var now := start;
      ok := TryAcquire(now);
      if ok { return true, now; }
      if queueMs <= 0.0 { return false, now; }
      now := e.next(0, now);
      var deadline := now + queueMs;
      now := e.next(1, now);
      var n: nat := 0;
      while true
        invariant Valid()
        invariant Acquired(old(View()), Speed(), queueMs, e, start) == Waiting(View(), Speed(), deadline, e, n, now)
        decreases Rounds(deadline - now)
      {
        var over;
        over, ok, now := Round(e, deadline, n, now);
        if over { return ok, now; }
        n := n + 1;
      }
    }

    /** The body of the loop of `Acquire`: whether the loop is over, and when. */
    method Round(e: World, deadline: real, n: nat, now: real) returns (over: bool, ok: bool, end: real)
      requires Valid() && SleepsLongEnough(e)
      modifies this
      ensures Valid()
      ensures over ==> Waiting(old(View()), Speed(), deadline, e, n, now) == Waited(View(), ok, end, n)
      ensures !over ==>
                && Waiting(old(View()), Speed(), deadline, e, n, now) == Waiting(View(), Speed(), deadline, e, n + 1, end)
                && Rounds(deadline - end) < Rounds(deadline - now)
    {
      ghost var was := View();
      ok := TryAcquire(now);
      if ok { return true, true, now; }
      var check := e.next(n + 2, now);
      if check >= deadline { return true, false, check; }
      WaitingSleeps(was, Speed(), deadline, e, n, now);
      var wait := TimeToWait(deadline - check);
      OthersPoll(e.others(n));
      return false, false, e.wake(n, check, wait);
    }
  }

  // ---------- The bound ----------

  lemma GainAdds(r: Rate, d: real, d': real)
    ensures Gain(r, d + d') == Gain(r, d) + Gain(r, d')
  {
    assert (d + d') / 1000.0 == d / 1000.0 + d' / 1000.0;
  }

  /** The gain is `rps` tokens a second, at any scale. */
  lemma GainMeaning(r: Rate, d: real)
    ensures Gain(r, 1000.0) == r.rps && Gain(r, d) * 1000.0 == d * r.rps
  {
    var x := d / 1000.0;
    assert x * 1000.0 == d;
    assert (x * 1000.0) * r.rps == (x * r.rps) * 1000.0;
  }

  lemma GainGrows(r: Rate, d: real, d': real)
    requires Positive(r) && d <= d'
    ensures Gain(r, d) <= Gain(r, d')
  {
    GainAdds(r, d, d' - d);
    assert (d' - d) / 1000.0 >= 0.0;
  }

  /** One poll keeps 0 <= tokens <= burst and never moves the refill time back. */
  lemma PollSound(b: Bucket, r: Rate, now: real)
    requires Positive(r) && Sound(b, r)
    ensures Sound(Refilled(b, r, now), r) && Sound(Poll(b, r, now).0, r)
    ensures Poll(b, r, now).0.lastRefill == if now > b.lastRefill then now else b.lastRefill
  {
    if now > b.lastRefill { GainGrows(r, 0.0, now - b.lastRefill); }
  }

  /** In every reachable state 0 <= tokens <= burst, whatever the clock does; the refill time is the
      largest reading so far. */
  lemma {:induction false} AlwaysSound(b: Bucket, r: Rate, ts: seq<real>)
    requires Positive(r) && Sound(b, r)
    ensures Sound(After(b, r, ts), r)
    ensures After(b, r, ts).lastRefill >= b.lastRefill
    ensures forall t | t in ts :: t <= After(b, r, ts).lastRefill
    ensures After(b, r, ts).lastRefill == b.lastRefill || After(b, r, ts).lastRefill in ts
    decreases |ts|
  {
    if ts != [] {
      PollSound(b, r, ts[0]);
      AlwaysSound(Poll(b, r, ts[0]).0, r, ts[1..]);
      assert forall t | t in ts :: t == ts[0] || t in ts[1..];
    }
  }

  /** Grants made plus tokens left never exceed the tokens at the start plus what the refill time gained. */
  lemma {:induction false} Potential(b: Bucket, r: Rate, ts: seq<real>)
    requires Positive(r) && Sound(b, r)
    ensures Grants(b, r, ts) as real + After(b, r, ts).tokens
         <= b.tokens + Gain(r, After(b, r, ts).lastRefill - b.lastRefill)
    decreases |ts|
  {
    if ts != [] {
      var b' := Poll(b, r, ts[0]).0;
      PollSound(b, r, ts[0]);
      Potential(b', r, ts[1..]);
      GainAdds(r, b'.lastRefill - b.lastRefill, After(b, r, ts).lastRefill - b'.lastRefill);
    }
  }

  /** What the cap cuts off a refill. */
  function Spill(b: Bucket, r: Rate, now: real): real {
    if now <= b.lastRefill then 0.0
    else
      var over := b.tokens + Gain(r, now - b.lastRefill) - r.burst;
      if over > 0.0 then over else 0.0
  }

  function Spilled(b: Bucket, r: Rate, ts: seq<real>): (x: real)
    ensures x >= 0.0
    decreases |ts|
  {
    if ts == [] then 0.0 else Spill(b, r, ts[0]) + Spilled(Poll(b, r, ts[0]).0, r, ts[1..])
  }

  /** Conservation, to the last token: grants made, tokens left and what the cap cut off are together the
      tokens at the start plus what the refill time gained. A grant costs one token, and a refusal none. */
  lemma {:induction false} Conservation(b: Bucket, r: Rate, ts: seq<real>)
    requires Positive(r) && Sound(b, r)
    ensures Grants(b, r, ts) as real + After(b, r, ts).tokens + Spilled(b, r, ts)
         == b.tokens + Gain(r, After(b, r, ts).lastRefill - b.lastRefill)
    decreases |ts|
  {
    if ts != [] {
      var b' := Poll(b, r, ts[0]).0;
      PollSound(b, r, ts[0]);
      Conservation(b', r, ts[1..]);
      GainAdds(r, b'.lastRefill - b.lastRefill, After(b, r, ts).lastRefill - b'.lastRefill);
    }
  }

  /** No needless refusal: a poll is refused only when the grants before it, and what the cap cut off, have
      used up all but less than one token. */
  lemma RefusedWhenUsedUp(b: Bucket, r: Rate, ts: seq<real>, now: real)
    requires Positive(r) && Sound(b, r)
    ensures var before := After(b, r, ts);
            var last := if now > before.lastRefill then now else before.lastRefill;
            Poll(before, r, now).1 <==>
              Grants(b, r, ts) as real + Spilled(b, r, ts) + Spill(before, r, now) + 1.0
                <= b.tokens + Gain(r, last - b.lastRefill)
  {
    var before := After(b, r, ts);
    AlwaysSound(b, r, ts);
    Conservation(b, r, ts);
    PollSound(before, r, now);
    if now > before.lastRefill {
      GainAdds(r, before.lastRefill - b.lastRefill, now - before.lastRefill);
    }
  }

  function Repeated(now: real, n: nat): seq<real> {
    if n == 0 then [] else [now] + Repeated(now, n - 1)
  }

  /** A burst: of `n` polls at one reading, as many are granted as there are whole tokens. */
  lemma {:induction false} BurstAtOnce(b: Bucket, r: Rate, now: real, n: nat)
    requires Positive(r) && Sound(b, r) && b.lastRefill == now
    ensures Grants(b, r, Repeated(now, n)) == if n < b.tokens.Floor then n else b.tokens.Floor
    decreases n
  {
    if n > 0 {
      var (b', ok) := Poll(b, r, now);
      assert Repeated(now, n)[1..] == Repeated(now, n - 1);
      assert ok ==> b'.tokens.Floor == b.tokens.Floor - 1;
      BurstAtOnce(b', r, now, n - 1);
    }
  }

  ghost predicate Monotone(ts: seq<real>) {
    forall i, j | 0 <= i <= j < |ts| :: ts[i] <= ts[j]
  }

  /** The rate bound: with a monotone clock, the grants of any window of polls, by any number of
      concurrent acquirers, are at most the burst plus the refill over the window. */
  lemma WindowBound(r: Rate, t0: real, ts: seq<real>, i: nat, j: nat)
    requires Positive(r) && Monotone(ts) && i <= j < |ts| && t0 <= ts[0]
    ensures Grants(After(Full(r, t0), r, ts[..i]), r, ts[i..j + 1]) as real <= r.burst + Gain(r, ts[j] - ts[i])
  {
    var b, w := After(Full(r, t0), r, ts[..i]), ts[i..j + 1];
    AlwaysSound(Full(r, t0), r, ts[..i]);
    var f := Refilled(b, r, ts[i]);
    PollSound(b, r, ts[i]);
    assert f.lastRefill == ts[i];
    assert Poll(f, r, w[0]) == Poll(b, r, w[0]);
    Potential(f, r, w);
    AlwaysSound(f, r, w);
    assert After(f, r, w).lastRefill <= ts[j];
    GainGrows(r, After(f, r, w).lastRefill - ts[i], ts[j] - ts[i]);
  }

  /** With a clock that may step back, the bound still holds from construction to the largest reading. */
  lemma BoundFromConstruction(r: Rate, t0: real, ts: seq<real>, max: real)
    requires Positive(r) && t0 <= max && forall t | t in ts :: t <= max
    ensures Grants(Full(r, t0), r, ts) as real <= r.burst + Gain(r, max - t0)
  {
    Potential(Full(r, t0), r, ts);
    AlwaysSound(Full(r, t0), r, ts);
    GainGrows(r, After(Full(r, t0), r, ts).lastRefill - t0, max - t0);
  }

  /** The source allows a burst below 1; such a bucket never grants anything. */
  lemma {:induction false} NoGrantBelowOneToken(b: Bucket, r: Rate, ts: seq<real>)
    requires Positive(r) && Sound(b, r) && r.burst < 1.0
    ensures Grants(b, r, ts) == 0
    decreases |ts|
  {
    if ts != [] {
      PollSound(b, r, ts[0]);
      NoGrantBelowOneToken(Poll(b, r, ts[0]).0, r, ts[1..]);
    }
  }

  // ---------- Acquire ends, and when it succeeds ----------

  /** If sleeping `w` advances the clock by at least `w`, the loop ends after at most one sleep per 5 ms
      of queue time, whatever the other acquirers take. */
  lemma {:induction false} FewSleeps(b: Bucket, r: Rate, deadline: real, e: World, n: nat, now: real)
    requires Positive(r) && SleepsLongEnough(e)
    ensures Waiting(b, r, deadline, e, n, now).sleeps <= n + Rounds(deadline - now)
    decreases Rounds(deadline - now)
  {
    var (b', ok) := Poll(b, r, now);
    var check := e.next(n + 2, now);
    if !ok && check < deadline {
      var w := Wait(b'.tokens, r, deadline - check);
      WaitingSleeps(b, r, deadline, e, n, now);
      FewSleeps(After(b', r, e.others(n)), r, deadline, e, n + 1, e.wake(n, check, w));
    }
  }

  /** With exact sleeps it ends less than 5 ms past the deadline. */
  lemma {:induction false} EndsOnTime(b: Bucket, r: Rate, deadline: real, e: World, n: nat, now: real)
    requires Positive(r) && SleepsLongEnough(e) && SleepsExactly(e) && now < deadline + 5.0
    ensures Waiting(b, r, deadline, e, n, now).end < deadline + 5.0
    decreases Rounds(deadline - now)
  {
    var (b', ok) := Poll(b, r, now);
    assert e.next(n + 2, now) == now;
    if !ok && now < deadline {
      var w := Wait(b'.tokens, r, deadline - now);
      assert e.wake(n, now, w) == now + w;
      RoundsDrop(deadline - now, deadline - (now + w));
      EndsOnTime(After(b', r, e.others(n)), r, deadline, e, n + 1, now + w);
    }
  }

  function TimeToToken(tokens: real, r: Rate): real
    requires r.rps != 0.0
  {
    (1.0 - tokens) / r.rps * 1000.0
  }

  lemma EnoughTime(r: Rate, tokens: real, d: real)
    requires Positive(r)
    ensures d >= TimeToToken(tokens, r) <==> tokens + Gain(r, d) >= 1.0
  {
    var x := (1.0 - tokens) / r.rps;
    assert x * r.rps == 1.0 - tokens;
    var y := d / 1000.0;
    assert d >= x * 1000.0 <==> y >= x;
    assert y >= x <==> y * r.rps >= x * r.rps by {
      if y >= x { assert (y - x) * r.rps >= 0.0; } else { assert (x - y) * r.rps > 0.0; }
    }
  }

  lemma CeilMeaning(x: real, n: int)
    ensures Ceil(x) <= n <==> x <= n as real
  {
  }

  /** A round of a lone waiter that finds no token before the deadline. */
  lemma LoneRound(b: Bucket, r: Rate, deadline: real, e: World, n: nat, now: real)
    requires Positive(r) && SleepsLongEnough(e) && Alone(e)
    requires !Poll(b, r, now).1 && e.next(n + 2, now) < deadline
    ensures var b', check := Poll(b, r, now).0, e.next(n + 2, now);
            Waiting(b, r, deadline, e, n, now)
              == Waiting(b', r, deadline, e, n + 1, e.wake(n, check, Wait(b'.tokens, r, deadline - check)))
  {
    WaitingSleeps(b, r, deadline, e, n, now);
    assert e.others(n) == [];
  }

  /** A lone bucket polled in vain has only gained: it holds what a single refill would have given. */
  lemma PollsAdd(b: Bucket, r: Rate, now: real, later: real)
    requires Positive(r) && Sound(b, r) && !Poll(b, r, now).1 && b.lastRefill <= now <= later
    ensures Refilled(Poll(b, r, now).0, r, later) == Refilled(b, r, later)
  {
    var f := Refilled(b, r, now);
    PollSound(b, r, now);
    GainAdds(r, now - b.lastRefill, later - now);
    GainGrows(r, 0.0, later - now);
    GainGrows(r, 0.0, now - b.lastRefill);
  }

  /** A bucket of at least one token polled at `later` grants exactly when the time to the next token, as
      it stood at `now`, has passed. */
  lemma GrantedLater(b: Bucket, r: Rate, now: real, later: real)
    requires Positive(r) && Sound(b, r) && r.burst >= 1.0 && b.lastRefill <= now <= later
    requires !Poll(b, r, now).1
    ensures Poll(b, r, later).1 <==> later - now >= TimeToToken(Refilled(b, r, now).tokens, r)
  {
    PollsAdd(b, r, now, later);
    PollSound(b, r, now);
    EnoughTime(r, Refilled(b, r, now).tokens, later - now);
  }

  /** A bucket polled in vain at `now` is due when it was. */
  lemma Due(b: Bucket, r: Rate, now: real, later: real)
    requires Positive(r) && Sound(b, r) && r.burst >= 1.0 && b.lastRefill <= now <= later
    requires !Poll(b, r, now).1
    ensures var b' := Poll(b, r, now).0;
            && Sound(b', r) && b'.lastRefill == now
            && Refilled(b', r, later) == Refilled(b, r, later)
            && (Poll(b', r, later).1 <==> later >= now + TimeToToken(b'.tokens, r))
  {
    PollSound(b, r, now);
    PollsAdd(b, r, now, later);
    GrantedLater(b, r, now, later);
  }

  /** What the time to the next token comes to at a later reading. */
  lemma DueMoves(b: Bucket, r: Rate, now: real, later: real)
    requires Positive(r) && Sound(b, r) && r.burst >= 1.0 && b.lastRefill == now <= later
    requires b.tokens < 1.0 && !Poll(b, r, later).1
    ensures later + TimeToToken(Refilled(b, r, later).tokens, r) == now + TimeToToken(b.tokens, r)
  {
    var gain, x := Gain(r, later - now), (1.0 - b.tokens) / r.rps;
    assert Refilled(b, r, later).tokens == b.tokens + gain;
    assert gain / r.rps == (later - now) / 1000.0;
    assert (1.0 - (b.tokens + gain)) / r.rps == x - gain / r.rps;
  }

  /** The one sleep of a lone waiter: when it begins and when it ends. */
  ghost function SleepEnds(b: Bucket, r: Rate, deadline: real, e: World, first: real): real
    requires Positive(r)
  {
    var check := e.next(2, first);
    e.wake(0, check, Wait(Refilled(b, r, first).tokens, r, deadline - check))
  }

  /** The loop of a lone waiter whose token is due at `due`: it is granted in the first round, or after
      the first sleep, or never. */
  lemma LoneLoop(b: Bucket, r: Rate, deadline: real, e: World, now: real, first: real)
    requires Positive(r) && Sound(b, r) && r.burst >= 1.0 && b.lastRefill == now <= first && b.tokens < 1.0
    requires SleepsLongEnough(e) && Alone(e)
    ensures var due := now + TimeToToken(b.tokens, r);
            Waiting(b, r, deadline, e, 0, first).granted <==>
              || first >= due
              || (e.next(2, first) < deadline && SleepEnds(b, r, deadline, e, first) >= due)
  {
    var due := now + TimeToToken(b.tokens, r);
    assert Poll(b, r, now) == (b, false);
    Due(b, r, now, first);
    var check := e.next(2, first);
    assert check >= first;
    if first < due && check < deadline {
      LoneRound(b, r, deadline, e, 0, first);
      var b' := Poll(b, r, first).0;
      var w := Wait(b'.tokens, r, deadline - check);
      var woken := e.wake(0, check, w);
      assert woken >= check + w;
      Due(b, r, first, woken);
      DueMoves(b, r, now, first);
      if woken < due {
        CeilMeaning(TimeToToken(b'.tokens, r), Ceil(TimeToToken(b'.tokens, r)));
        assert w >= deadline - check;
        assert e.next(3, woken) >= woken;
      }
    }
  }

  /** Exactly when a lone waiter is granted a token, however late the clock is read and the sleeps end. Its
      next token is due at a known time; it gets it if it is due at once, or when the first round refills,
      or when the first sleep ends - and there is a sleep only if the deadline has not passed by then. */
  lemma LoneWaiterExactly(b: Bucket, r: Rate, queueMs: real, e: World, now: real)
    requires Positive(r) && Sound(b, r) && r.burst >= 1.0 && b.lastRefill <= now
    requires SleepsLongEnough(e) && Alone(e)
    ensures var b' := Refilled(b, r, now);
            var due := now + TimeToToken(b'.tokens, r);
            var t := e.next(0, now);
            var first := e.next(1, t);
            Acquired(b, r, queueMs, e, now).granted <==>
              || now >= due
              || (queueMs > 0.0 && first >= due)
              || (queueMs > 0.0 && e.next(2, first) < t + queueMs
                  && SleepEnds(b', r, t + queueMs, e, first) >= due)
  {
    var (b', ok) := Poll(b, r, now);
    PollSound(b, r, now);
    EnoughTime(r, Refilled(b, r, now).tokens, 0.0);
    if !ok && queueMs > 0.0 {
      var t := e.next(0, now);
      assert now <= t <= e.next(1, t);
      LoneLoop(b', r, t + queueMs, e, now, e.next(1, t));
    }
  }

  /** A lone waiter gets a token whenever the time to the next one fits in the queue time, however late its
      sleep ends - unless the deadline passes between two clock readings of its first round. */
  lemma LoneWaiterSucceeds(b: Bucket, r: Rate, queueMs: real, e: World, now: real)
    requires Positive(r) && Sound(b, r) && r.burst >= 1.0 && b.lastRefill <= now
    requires SleepsLongEnough(e) && Alone(e)
    requires TimeToToken(Refilled(b, r, now).tokens, r) <= queueMs
    ensures Acquired(b, r, queueMs, e, now).granted
         || e.next(2, e.next(1, e.next(0, now))) >= e.next(0, now) + queueMs
  {
    LoneWaiterExactly(b, r, queueMs, e, now);
    var b', t := Refilled(b, r, now), e.next(0, now);
    var first, due := e.next(1, t), now + TimeToToken(b'.tokens, r);
    var check := e.next(2, first);
    assert now <= t <= first <= check;
    if now < due && first < due && check < t + queueMs {
      PollSound(b, r, now);
      Due(b', r, now, first);
      DueMoves(b', r, now, first);
      var tokens := Refilled(b', r, first).tokens;
      CeilMeaning(TimeToToken(tokens, r), Ceil(TimeToToken(tokens, r)));
      var w := Wait(tokens, r, t + queueMs - check);
      assert e.wake(0, check, w) >= check + w;
    }
  }

  /** How long a lone waiter is prepared to wait: the 5 ms floor of its sleep may outlast the queue time. */
  function Patience(queueMs: real): real {
    if queueMs <= 0.0 then 0.0 else if queueMs < 5.0 then 5.0 else queueMs
  }

  /** With exact sleeps and readings, a lone waiter gets a token exactly when the time to the next one is
      within its patience. */
  lemma LoneWaiterIff(b: Bucket, r: Rate, queueMs: real, e: World, now: real)
    requires Positive(r) && Sound(b, r) && r.burst >= 1.0 && b.lastRefill <= now
    requires SleepsLongEnough(e) && SleepsExactly(e) && Alone(e)
    ensures Acquired(b, r, queueMs, e, now).granted
       <==> TimeToToken(Refilled(b, r, now).tokens, r) <= Patience(queueMs)
  {
    LoneWaiterExactly(b, r, queueMs, e, now);
    var b' := Refilled(b, r, now);
    assert e.next(0, now) == now && e.next(1, now) == now && e.next(2, now) == now;
    assert Refilled(b', r, now) == b' by { PollSound(b, r, now); }
    var toToken := TimeToToken(b'.tokens, r);
    CeilMeaning(toToken, Ceil(toToken));
    assert now + queueMs - now == queueMs;
    var w := Wait(b'.tokens, r, queueMs);
    assert e.wake(0, now, w) == now + w;
  }
}
