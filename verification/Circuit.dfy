/**
 * The circuit breaker over a list of ElectrumX hosts (src/circuit.js).
 *
 * `Breaker` is the breaker as a value and `PickNext`, `RecordSuccess` and `RecordFailure` say what
 * the three operations do to it; `HostBreaker` updates the per-host records and the cursor in place
 * and is proved against them. The clock is a parameter and may go anywhere between two operations.
 */
module Circuit {
  import opened Wrappers

  const INITIAL_COOLDOWN_MS := 30000
  const MAX_COOLDOWN_MS := 300000

  datatype Phase = Closed | Open | HalfOpen

  datatype HostState = HostState(
    phase: Phase,
    openedAt: int,
    cooldownMs: int,
    failures: nat,
    halfOpenInFlight: bool)

  const HEALTHY := HostState(Closed, 0, INITIAL_COOLDOWN_MS, 0, false)

  /** What one pick hands out: a host, and whether it was forced because none was available. */
  datatype Handout = Handout(index: nat, allOpen: bool)

  /** A host may be tried: it is healthy, it has a free probe slot, or its cooldown is over. */
  predicate Available(h: HostState, now: int) {
    match h.phase
    case Closed => true
    case HalfOpen => !h.halfOpenInFlight
    case Open => now - h.openedAt >= h.cooldownMs
  }

  // ---------- The operations ----------

  function Thaw(h: HostState, now: int): HostState {
    if h.phase.Open? && now - h.openedAt >= h.cooldownMs
    then h.(phase := HalfOpen, halfOpenInFlight := false)
    else h
  }

  function ThawAll(hosts: seq<HostState>, now: int): seq<HostState> {
    seq(|hosts|, i requires 0 <= i < |hosts| => Thaw(hosts[i], now))
  }

  predicate Ready(h: HostState) {
    h.phase.Closed? || (h.phase.HalfOpen? && !h.halfOpenInFlight)
  }

  /** The place `k` steps round from `c`: (c + k) % n, written without the division. */
  function At(c: nat, k: nat, n: nat): (i: nat)
    requires c < n && k <= n
    ensures i < n
  {
    if c + k < n then c + k else c + k - n
  }

  lemma AtIsModulo(c: nat, k: nat, n: nat)
    requires c < n && k <= n
    ensures At(c, k, n) == (c + k) % n
  {
    var sum := c + k;
    if sum < n {
      assert sum % n == sum;
    } else {
      assert sum == n * 1 + (sum - n);
      assert sum / n == 1;
    }
  }

  method Advance(c: nat, k: nat, n: nat) returns (i: nat)
    requires c < n && k <= n
    ensures i == At(c, k, n)
  {
    AtIsModulo(c, k, n);
    i := (c + k) % n;
  }

  /** The number of places from the cursor to the first ready host, or the number of hosts. */
  function FirstReady(hosts: seq<HostState>, cursor: nat, step: nat): (k: nat)
    requires cursor < |hosts| && step <= |hosts|
    ensures step <= k <= |hosts|
    ensures forall j | step <= j < k :: !Ready(hosts[At(cursor, j, |hosts|)])
    ensures k < |hosts| ==> Ready(hosts[At(cursor, k, |hosts|)])
    decreases |hosts| - step
  {
    if step == |hosts| || Ready(hosts[At(cursor, step, |hosts|)]) then step
    else FirstReady(hosts, cursor, step + 1)
  }

  function TakeSlot(hosts: seq<HostState>, index: nat): seq<HostState>
    requires index < |hosts|
  {
    if hosts[index].phase.Closed? then hosts
    else hosts[index := hosts[index].(halfOpenInFlight := true)]
  }

  function Fail(h: HostState, now: int): HostState {
    HostState(
      Open, now,
      match h.phase
      case HalfOpen => Min(h.cooldownMs * 2, MAX_COOLDOWN_MS)
      case Closed => INITIAL_COOLDOWN_MS
      case Open => h.cooldownMs,
      h.failures + 1, false)
  }

  datatype Breaker = Breaker(hosts: seq<HostState>, cursor: nat) {

    ghost predicate Valid() {
      cursor < |hosts|
    }

    function PickNext(now: int): (Breaker, Handout)
      requires Valid()
    {
      var n := |hosts|;
      var thawed := ThawAll(hosts, now);
      var k := FirstReady(thawed, cursor, 0);
      var index := if k < n then At(cursor, k, n) else cursor;
      (Breaker(if k < n then TakeSlot(thawed, index) else thawed, At(index, 1, n)),
       Handout(index, k == n))
    }

    function RecordSuccess(index: int): Breaker {
      if 0 <= index < |hosts| then this.(hosts := hosts[index := HEALTHY]) else this
    }

    function RecordFailure(index: int, now: int): Breaker {
      if 0 <= index < |hosts| then this.(hosts := hosts[index := Fail(hosts[index], now)]) else this
    }
  }

  function Fresh(n: nat): Breaker {
    Breaker(seq(n, _ => HEALTHY), 0)
  }

  // ---------- The object ----------

  class HostBreaker {
    const state: array<HostState>
    var cursor: nat

    ghost predicate Valid()
      reads this
    {
      cursor < state.Length
    }

    ghost function View(): Breaker
      reads this, state
    {
      Breaker(state[..], cursor)
    }

    /** The source refuses an empty host list by throwing. */
    constructor (hostCount: nat)
      requires hostCount > 0
      ensures Valid() && fresh(state) && View() == Fresh(hostCount)
    {
      state := new HostState[hostCount](_ => HEALTHY);
      cursor := 0;
    }

    /** The first loop of `PickNext`: open hosts past their cooldown become half-open. */
    method ThawExpired(now: int)
      requires Valid()
      modifies state
      ensures Valid() && state[..] == ThawAll(old(state[..]), now)
    {
      for i := 0 to state.Length
        invariant forall j | 0 <= j < state.Length ::
            state[j] == if j < i then Thaw(old(state[j]), now) else old(state[j])
      {
        var s := state[i];
        if s.phase.Open? && now - s.openedAt >= s.cooldownMs {
          state[i] := s.(phase := HalfOpen, halfOpenInFlight := false);
        }
      }
    }

    method PickNext(now: int) returns (out: Handout)
      requires Valid()
      modifies this, state
      ensures Valid()
      ensures (View(), out) == old(View()).PickNext(now)
    {
      ThawExpired(now);
      var n := state.Length;
      ghost var thawed := state[..];
      for step := 0 to n
        invariant state[..] == thawed && cursor == old(cursor)
        invariant FirstReady(thawed, cursor, 0) == FirstReady(thawed, cursor, step)
      {
        var idx := Advance(cursor, step, n);
        var s := state[idx];
        assert s == thawed[idx];
        if s.phase.Closed? {
          cursor := Advance(idx, 1, n);
          return Handout(idx, false);
        }
        if s.phase.HalfOpen? && !s.halfOpenInFlight {
          state[idx] := s.(halfOpenInFlight := true);
          cursor := Advance(idx, 1, n);
          assert state[..] == TakeSlot(thawed, idx);
          return Handout(idx, false);
        }
      }
      var idx := Advance(cursor, 0, n);
      cursor := Advance(idx, 1, n);
      return Handout(idx, true);
    }

    method RecordSuccess(index: int)
      requires Valid()
      modifies state
      ensures Valid() && View() == old(View()).RecordSuccess(index)
    {
      if index < 0 || index >= state.Length { return; }
      state[index] := HostState(Closed, 0, INITIAL_COOLDOWN_MS, 0, false);
    }

    method RecordFailure(index: int, now: int)
      requires Valid()
      modifies state
      ensures Valid() && View() == old(View()).RecordFailure(index, now)
    {
      if index < 0 || index >= state.Length { return; }
      var s := state[index].(failures := state[index].failures + 1, openedAt := now, halfOpenInFlight := false);
      if s.phase.HalfOpen? {
        s := s.(cooldownMs := Min(s.cooldownMs * 2, MAX_COOLDOWN_MS));
      } else if s.phase.Closed? {
        s := s.(cooldownMs := INITIAL_COOLDOWN_MS);
      }
      state[index] := s.(phase := Open);
    }
  }

  // ---------- Runs ----------

  datatype Event = Pick(now: int) | Succeeded(index: int) | Failed(index: int, now: int)

  function Step(b: Breaker, e: Event): (b': Breaker)
    requires b.Valid()
    ensures b'.Valid() && |b'.hosts| == |b.hosts|
  {
    match e
    case Pick(now) => b.PickNext(now).0
    case Succeeded(i) => b.RecordSuccess(i)
    case Failed(i, now) => b.RecordFailure(i, now)
  }

  function Run(b: Breaker, es: seq<Event>): (b': Breaker)
    requires b.Valid()
    ensures b'.Valid() && |b'.hosts| == |b.hosts|
    decreases |es|
  {
    if es == [] then b else Run(Step(b, es[0]), es[1..])
  }

  /** What the picks of a run hand out, in order. */
  function Handouts(b: Breaker, es: seq<Event>): seq<Handout>
    requires b.Valid()
    decreases |es|
  {
    if es == [] then []
    else (if es[0].Pick? then [b.PickNext(es[0].now).1] else []) + Handouts(Step(b, es[0]), es[1..])
  }

  lemma Unroll(b: Breaker, e: Event, rest: seq<Event>)
    requires b.Valid()
    ensures Run(b, [e] + rest) == Run(Step(b, e), rest)
    ensures Handouts(b, [e] + rest)
         == (if e.Pick? then [b.PickNext(e.now).1] else []) + Handouts(Step(b, e), rest)
  {
    assert ([e] + rest)[1..] == rest;
  }

  lemma {:induction false} RunConcat(b: Breaker, es: seq<Event>, more: seq<Event>)
    requires b.Valid()
    ensures Run(b, es + more) == Run(Run(b, es), more)
    ensures Handouts(b, es + more) == Handouts(b, es) + Handouts(Run(b, es), more)
    decreases |es|
  {
    if es == [] {
      assert es + more == more;
    } else {
      assert (es + more)[1..] == es[1..] + more && (es + more)[0] == es[0];
      RunConcat(Step(b, es[0]), es[1..], more);
    }
  }

  function PickCount(es: seq<Event>): nat {
    if es == [] then 0 else (if es[0].Pick? then 1 else 0) + PickCount(es[1..])
  }

  // ---------- One pick ----------

  /** How many places host `h` is ahead of the cursor, going round. */
  function Offset(b: Breaker, h: nat): nat
    requires b.Valid() && h < |b.hosts|
  {
    if h >= b.cursor then h - b.cursor else h + |b.hosts| - b.cursor
  }

  /** A forced probe happens exactly when no host is available. */
  lemma AllOpenIffNoneAvailable(b: Breaker, now: int)
    requires b.Valid()
    ensures b.PickNext(now).1.allOpen <==> forall i | 0 <= i < |b.hosts| :: !Available(b.hosts[i], now)
  {
    var n, thawed := |b.hosts|, ThawAll(b.hosts, now);
    var k := FirstReady(thawed, b.cursor, 0);
    forall i | 0 <= i < n && Available(b.hosts[i], now) ensures k < n {
      assert At(b.cursor, Offset(b, i), n) == i && Ready(thawed[i]);
    }
    if k < n {
      assert Available(b.hosts[At(b.cursor, k, n)], now);
    }
  }

  /** An available host is the one picked, or the cursor comes strictly closer to it and it keeps
      its place: it is then available at any later time, whatever the clock does. */
  lemma PickApproaches(b: Breaker, now: int, h: nat)
    requires b.Valid() && h < |b.hosts| && Available(b.hosts[h], now)
    ensures var (b', out) := b.PickNext(now);
            && !out.allOpen
            && (out.index != h ==> Offset(b', h) < Offset(b, h) && forall t :: Available(b'.hosts[h], t))
  {
    var n, thawed := |b.hosts|, ThawAll(b.hosts, now);
    assert At(b.cursor, Offset(b, h), n) == h && Ready(thawed[h]);
    assert FirstReady(thawed, b.cursor, 0) <= Offset(b, h);
  }

  /** While some host is available, the host picked is. */
  lemma PickIsAvailable(b: Breaker, now: int, h: nat)
    requires b.Valid() && h < |b.hosts| && Available(b.hosts[h], now)
    ensures var out := b.PickNext(now).1;
            out.index < |b.hosts| && Available(b.hosts[out.index], now)
  {
    PickApproaches(b, now, h);
    AllOpenIffNoneAvailable(b, now);
  }

  /** What one pick does, host by host. It hands out the available host nearest to the cursor, going
      round, and takes its probe slot if it is recovering; with none available it hands out the cursor's
      host, by force, and touches no record. Other hosts past their cooldown get a free probe slot. The
      cursor moves to the place after the host handed out. */
  lemma PickMeaning(b: Breaker, now: int)
    requires b.Valid()
    ensures var (b', out) := b.PickNext(now);
            var n := |b.hosts|;
            && out.index < n && |b'.hosts| == n && b'.cursor == (if out.index + 1 < n then out.index + 1 else 0)
            && (out.allOpen ==> out.index == b.cursor && b'.hosts == b.hosts)
            && (!out.allOpen ==>
                  Available(b.hosts[out.index], now)
                  && forall i | 0 <= i < n && Available(b.hosts[i], now) :: Offset(b, out.index) <= Offset(b, i))
            && forall i | 0 <= i < n ::
                 var h := b.hosts[i];
                 b'.hosts[i] ==
                   if i == out.index && !out.allOpen && !h.phase.Closed? then h.(phase := HalfOpen, halfOpenInFlight := true)
                   else if h.phase.Open? && now - h.openedAt >= h.cooldownMs then h.(phase := HalfOpen, halfOpenInFlight := false)
                   else h
  {
    var (b', out) := b.PickNext(now);
    AllOpenIffNoneAvailable(b, now);
    if out.allOpen {
      assert b'.hosts == b.hosts;
    } else {
      forall i | 0 <= i < |b.hosts| && Available(b.hosts[i], now) ensures Offset(b, out.index) <= Offset(b, i) {
        NearestPicked(b, now, i);
      }
      PickIsAvailable(b, now, out.index);
    }
  }

  lemma NearestPicked(b: Breaker, now: int, i: nat)
    requires b.Valid() && i < |b.hosts| && Available(b.hosts[i], now)
    ensures var out := b.PickNext(now).1;
            !out.allOpen && Available(b.hosts[out.index], now) && Offset(b, out.index) <= Offset(b, i)
  {
    var n, thawed := |b.hosts|, ThawAll(b.hosts, now);
    assert At(b.cursor, Offset(b, i), n) == i && Ready(thawed[i]);
    assert FirstReady(thawed, b.cursor, 0) <= Offset(b, i);
  }

  /** A host whose failure is recorded rests for its cooldown and is available again from then on; the other
      hosts and the cursor are left alone, and so is everything if there is no such host. */
  lemma FailureRests(b: Breaker, index: int, now: int)
    requires b.Valid()
    ensures var b' := b.RecordFailure(index, now);
            if 0 <= index < |b.hosts| then
              && (forall t :: Available(b'.hosts[index], t) <==> t >= now + b'.hosts[index].cooldownMs)
              && b' == b.(hosts := b.hosts[index := b'.hosts[index]])
            else b' == b
  {
  }

  /** A host whose success is recorded is available at any time, as if new; nothing else changes. */
  lemma SuccessHeals(b: Breaker, index: int)
    requires b.Valid()
    ensures var b' := b.RecordSuccess(index);
            if 0 <= index < |b.hosts| then
              && (forall t :: Available(b'.hosts[index], t))
              && b' == b.(hosts := b.hosts[index := HEALTHY])
            else b' == b
  {
  }

  // ---------- Main results ----------

  /** The clock reading of a run's first pick, or 0. */
  function FirstPickTime(es: seq<Event>): int {
    if es == [] then 0 else if es[0].Pick? then es[0].now else FirstPickTime(es[1..])
  }

  /** Non-starvation. In any interleaving of picks and records, whatever the clock does, a host that is
      available at the first pick and for which no failure is recorded is handed out, unforced, by one
      of the next `Offset + 1 <= N` picks. */
  lemma {:induction false} NonStarvation(b: Breaker, es: seq<Event>, h: nat)
    requires b.Valid() && h < |b.hosts| && Available(b.hosts[h], FirstPickTime(es))
    requires forall e | e in es :: e.Failed? ==> e.index != h
    requires PickCount(es) > Offset(b, h)
    ensures Handout(h, false) in Handouts(b, es)
    decreases |es|
  {
    var e, b' := es[0], Step(b, es[0]);
    assert e in es;
    if e.Pick? {
      PickApproaches(b, e.now, h);
      if b.PickNext(e.now).1.index == h { return; }
    }
    assert forall e' | e' in es[1..] :: e' in es;
    NonStarvation(b', es[1..], h);
  }

  /** Any `N` picks are enough, from any cursor. */
  lemma NonStarvationWithinN(b: Breaker, es: seq<Event>, h: nat)
    requires b.Valid() && h < |b.hosts| && Available(b.hosts[h], FirstPickTime(es))
    requires forall e | e in es :: e.Failed? ==> e.index != h
    requires PickCount(es) >= |b.hosts|
    ensures Handout(h, false) in Handouts(b, es)
  {
    NonStarvation(b, es, h);
  }

  ghost predicate NoRecordOf(es: seq<Event>, h: nat) {
    forall e | e in es :: (e.Succeeded? ==> e.index != h) && (e.Failed? ==> e.index != h)
  }

  lemma {:induction false} ProbeHeld(b: Breaker, es: seq<Event>, h: nat)
    requires b.Valid() && h < |b.hosts| && NoRecordOf(es, h)
    requires b.hosts[h].phase.HalfOpen? && b.hosts[h].halfOpenInFlight
    ensures Handout(h, false) !in Handouts(b, es)
    decreases |es|
  {
    if es != [] {
      assert es[0] in es && forall e | e in es[1..] :: e in es;
      if es[0].Pick? {
        assert !Ready(ThawAll(b.hosts, es[0].now)[h]);
      }
      ProbeHeld(Step(b, es[0]), es[1..], h);
    }
  }

  lemma {:induction false} InFlightStays(b: Breaker, es: seq<Event>, h: nat)
    requires b.Valid() && h < |b.hosts| && NoRecordOf(es, h)
    requires b.hosts[h].phase.HalfOpen? && b.hosts[h].halfOpenInFlight
    ensures Run(b, es).hosts[h] == b.hosts[h]
    decreases |es|
  {
    if es != [] {
      assert es[0] in es && forall e | e in es[1..] :: e in es;
      InFlightStays(Step(b, es[0]), es[1..], h);
    }
  }

  /** One probe at a time: once a recovering host has been handed out unforced, it is not handed out
      unforced again before a success or a failure is recorded for it. */
  lemma SingleProbe(b: Breaker, now: int, es: seq<Event>, h: nat)
    requires b.Valid() && b.PickNext(now).1 == Handout(h, false)
    requires !b.hosts[h].phase.Closed? && NoRecordOf(es, h)
    ensures Handout(h, false) !in Handouts(b.PickNext(now).0, es)
  {
    ProbeHeld(b.PickNext(now).0, es, h);
  }

  ghost predicate NoFailureOf(es: seq<Event>, g: nat) {
    forall e | e in es :: e.Failed? ==> e.index != g
  }

  /** A host waits for the record of its probe while another is healthy. */
  ghost predicate Lost(b: Breaker, h: nat, g: nat) {
    && b.Valid() && h < |b.hosts| && g < |b.hosts|
    && b.hosts[h].phase.HalfOpen? && b.hosts[h].halfOpenInFlight && b.hosts[g].phase.Closed?
  }

  /** A probe whose record never comes costs the host its place: as long as some other host stays healthy
      it is not handed out again, forced or not, and stays as it is. */
  lemma {:induction false} LostStaysLost(b: Breaker, es: seq<Event>, h: nat, g: nat)
    requires Lost(b, h, g) && NoRecordOf(es, h) && NoFailureOf(es, g)
    ensures Lost(Run(b, es), h, g) && forall o | o in Handouts(b, es) :: o.index != h
    decreases |es|
  {
    if es != [] {
      assert es[0] in es && forall e | e in es[1..] :: e in es;
      if es[0].Pick? { LostNotPicked(b, es[0].now, h, g); }
      LostStaysLost(Step(b, es[0]), es[1..], h, g);
    }
  }

  lemma LostNotPicked(b: Breaker, now: int, h: nat, g: nat)
    requires Lost(b, h, g)
    ensures b.PickNext(now).1.index != h && Lost(b.PickNext(now).0, h, g)
  {
    PickIsAvailable(b, now, g);
  }

  /** While every host is healthy a round of `N` picks hands out each host once, in list order from
      the cursor. */
  lemma {:induction false} RoundRobin(b: Breaker, es: seq<Event>, j: nat)
    requires b.Valid() && forall i | 0 <= i < |b.hosts| :: b.hosts[i].phase.Closed?
    requires j < |es| && j < |b.hosts| && forall e | e in es :: e.Pick?
    ensures j < |Handouts(b, es)| && Handouts(b, es)[j] == Handout(At(b.cursor, j, |b.hosts|), false)
    decreases j
  {
    assert es[0] in es;
    assert FirstReady(ThawAll(b.hosts, es[0].now), b.cursor, 0) == 0;
    if j > 0 {
      assert forall e | e in es[1..] :: e in es;
      RoundRobin(Step(b, es[0]), es[1..], j - 1);
    }
  }

  ghost predicate NoneAvailable(b: Breaker, now: int) {
    forall i | 0 <= i < |b.hosts| :: !Available(b.hosts[i], now)
  }

  /** Forced probes go round too: with no host available at any of the picks, they hand out each host once
      in a round of `N`, in list order from the cursor, and leave every record as it was. */
  lemma {:induction false} ForcedRound(b: Breaker, es: seq<Event>, j: nat)
    requires b.Valid() && j < |es| && j < |b.hosts|
    requires forall e | e in es :: e.Pick? && NoneAvailable(b, e.now)
    ensures j < |Handouts(b, es)| && Handouts(b, es)[j] == Handout(At(b.cursor, j, |b.hosts|), true)
    ensures Run(b, es).hosts == b.hosts
    decreases |es|
  {
    assert es[0] in es && NoneAvailable(b, es[0].now);
    PickMeaning(b, es[0].now);
    AllOpenIffNoneAvailable(b, es[0].now);
    var b' := Step(b, es[0]);
    if |es| > 1 {
      forall e | e in es[1..] ensures e.Pick? && NoneAvailable(b', e.now) {
        assert e in es && NoneAvailable(b, e.now);
      }
      ForcedRound(b', es[1..], if j > 0 then j - 1 else 0);
    } else {
      assert es[1..] == [];
    }
  }

  // ---------- Exact backoff ----------

  function Pow2(p: nat): nat {
    if p == 0 then 1 else 2 * Pow2(p - 1)
  }

  /** What a run's records say about one host: probes failed and failures counted since the last
      success, and the time of the latest failure. */
  datatype Tally = Tally(failedProbes: nat, failures: nat, lastFailure: int)

  function Count(t: Tally, phase: Phase, e: Event, h: nat): Tally {
    match e
    case Pick(_) => t
    case Succeeded(i) => if i == h then Tally(0, 0, 0) else t
    case Failed(i, now) =>
      if i != h then t
      else Tally(t.failedProbes + if phase.HalfOpen? then 1 else 0, t.failures + 1, now)
  }

  function Tallied(t: Tally, b: Breaker, es: seq<Event>, h: nat): Tally
    requires b.Valid() && h < |b.hosts|
    decreases |es|
  {
    if es == [] then t
    else Tallied(Count(t, b.hosts[h].phase, es[0], h), Step(b, es[0]), es[1..], h)
  }

  ghost predicate Matches(s: HostState, t: Tally) {
    && s.cooldownMs == Min(30_000 * Pow2(t.failedProbes), 300_000)
    && s.failures == t.failures
    && (s.phase.Closed? <==> t.failures == 0)
    && (s.phase.Closed? ==> t.failedProbes == 0)
    && s.openedAt == t.lastFailure
    && (s.halfOpenInFlight ==> s.phase.HalfOpen?)
  }

  lemma {:induction false} TallyKept(t: Tally, b: Breaker, es: seq<Event>, h: nat)
    requires b.Valid() && h < |b.hosts| && Matches(b.hosts[h], t)
    ensures Matches(Run(b, es).hosts[h], Tallied(t, b, es, h))
    decreases |es|
  {
    if es != [] {
      var t' := Count(t, b.hosts[h].phase, es[0], h);
      assert Pow2(t.failedProbes + 1) == 2 * Pow2(t.failedProbes);
      TallyKept(t', Step(b, es[0]), es[1..], h);
    }
  }

  /** In every reachable state: the cooldown is 30 s doubled once per failed probe since the last
      success, capped at 5 min; a host is closed exactly when it has no failure since its last
      success; the open time is that of its latest failure; a flag in flight means half-open. */
  lemma ExactBackoff(n: nat, es: seq<Event>, h: nat)
    requires h < n
    ensures Matches(Run(Fresh(n), es).hosts[h], Tallied(Tally(0, 0, 0), Fresh(n), es, h))
  {
    assert Pow2(0) == 1;
    TallyKept(Tally(0, 0, 0), Fresh(n), es, h);
  }
}
