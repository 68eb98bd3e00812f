/**
 * The handler and the resolver together (src/index.js, src/resolver.js). A run interleaves the handler's
 * steps with the resolver's reads and writes of its own cache; every pubkey the handler is answered was
 * read from that cache or comes from a lookup that has ended.
 */
module EndToEnd {
  import opened Wrappers
  import opened Identifier
  import PolicyHandler
  import Resolver

  datatype World<!A> = World(resolver: Resolver.World<A>, pubkey: A -> string)

  datatype Step = Handle(step: PolicyHandler.Step) | Resolve(event: Resolver.Event)

  function HandlerSteps(ss: seq<Step>): seq<PolicyHandler.Step> {
    if ss == [] then [] else (if ss[0].Handle? then [ss[0].step] else []) + HandlerSteps(ss[1..])
  }

  function ResolverEvents(ss: seq<Step>): seq<Resolver.Event> {
    if ss == [] then [] else (if ss[0].Resolve? then [ss[0].event] else []) + ResolverEvents(ss[1..])
  }

  /** The question a metadata event asks. */
  function Question<A>(w: World<A>, e: PolicyHandler.Incoming): Option<Name> {
    if e.nip05.Namecoin? then ParseIdentifier(w.resolver.normal(e.nip05.identifier)) else None
  }

  /** The `i`-th step yields an answer to `n`: a hit in the cache as the run has left it, or a lookup. */
  ghost predicate Yields<A>(w: World<A>, rc: Resolver.Config, ss: seq<Step>, i: nat, n: Name, answer: A)
    requires i < |ss|
  {
    ss[i].Resolve? && ss[i].event.n == n &&
    match ss[i].event
    case Ask(_, now) =>
      Resolver.Asked(Resolver.Run([], w.resolver, rc, ResolverEvents(ss[..i])), rc, n, now).1 == Some(Some(answer))
    case Finish(_, l, _) => Resolver.Answer(w.resolver, n, l) == Some(answer)
  }

  /** The `j`-th step answers the handler with the pubkey that step `i` yields, at most `d` ms later. */
  ghost predicate Passes<A>(w: World<A>, rc: Resolver.Config, ss: seq<Step>, d: nat, i: nat, j: nat, n: Name, answer: A)
    requires i < j < |ss| && ss[j].Handle? && ss[j].step.Answer?
  {
    && Question(w, ss[j].step.event) == Some(n)
    && Yields(w, rc, ss, i, n, answer)
    && ss[j].step.pubkey == Some(w.pubkey(answer))
    && ss[j].step.now - ss[i].event.now <= d
  }

  ghost predicate Legal<A(!new)>(w: World<A>, c: PolicyHandler.Config, rc: Resolver.Config, ss: seq<Step>, d: nat) {
    && PolicyHandler.Legal(c, HandlerSteps(ss))
    && forall j | 0 <= j < |ss| && ss[j].Handle? && ss[j].step.Answer? && ss[j].step.pubkey.Some? ::
         exists i: nat, n: Name, answer: A :: i < j && Passes(w, rc, ss, d, i, j, n, answer)
  }

  lemma {:induction false} HandlerStepAt(ss: seq<Step>, i: nat) returns (j: nat)
    requires i < |HandlerSteps(ss)|
    ensures j < |ss| && ss[j] == Handle(HandlerSteps(ss)[i])
  {
    if ss[0].Handle? && i == 0 {
      j := 0;
    } else {
      var k := HandlerStepAt(ss[1..], if ss[0].Handle? then i - 1 else i);
      j := k + 1;
    }
  }

  lemma {:induction false} ResolverEventAt(ss: seq<Step>, e: Resolver.Event) returns (k: nat)
    requires e in ResolverEvents(ss)
    ensures k < |ss| && ss[k] == Resolve(e)
  {
    if ss[0] == Resolve(e) {
      k := 0;
    } else {
      var j := ResolverEventAt(ss[1..], e);
      k := j + 1;
    }
  }

  /** The `k`-th step is a lookup of the question `n`, or of one that shares its cache key, whose record
      names `pubkey`. */
  ghost predicate LooksUp<A>(w: World<A>, ss: seq<Step>, k: nat, n: Name, pubkey: string)
    requires k < |ss|
  {
    ss[k].Resolve? && ss[k].event.Finish? &&
    var n', l := ss[k].event.n, ss[k].event.l;
    && Resolver.Key(n') == Resolver.Key(n)
    && (Resolver.NoBar(n.namecoin) && Resolver.NoBar(n.local) ==> n' == n)
    && l.Record? && Resolver.Answer(w.resolver, n', l).Some?
    && w.pubkey(Resolver.Answer(w.resolver, n', l).value) == pubkey
  }

  /** Whatever the resolver yields goes back to a lookup less than a time to live before. */
  lemma YieldIsRecent<A>(w: World<A>, rc: Resolver.Config, ss: seq<Step>, i: nat, n: Name, answer: A) returns (k: nat)
    requires rc.cacheTtlMs > 0 && rc.negCacheTtlMs > 0
    requires i < |ss| && Yields(w, rc, ss, i, n, answer)
    ensures k <= i && LooksUp(w, ss, k, n, w.pubkey(answer))
    ensures ss[i].event.now - ss[k].event.now < rc.cacheTtlMs
  {
    match ss[i].event
    case Finish(_, l, _) =>
      k := i;
    case Ask(_, now) =>
      var past := ResolverEvents(ss[..i]);
      Resolver.BoundedStaleness(w.resolver, rc, past, n, now);
      k := ResolverEventAt(ss[..i], Resolver.LastStored(past, Resolver.Key(n)).value);
  }

  /** End to end. With the author gate on, an event of non-zero kind is accepted only if some lookup has
      found its pubkey in a Namecoin record less than twice the time to live before - once for the
      resolver's cache, once for the gate's - not counting the `d` ms it takes the handler to resume. The
      lookup was for the identifier of a metadata event of the same pubkey, or for one that shares its
      cache key. */
  lemma AcceptedAuthorsWereLookedUp<A(!new)>(
      w: World<A>, c: PolicyHandler.Config, rc: Resolver.Config, ss: seq<Step>, d: nat, e: PolicyHandler.Incoming, now: int)
    returns (k: nat, j: nat, n: Name)
    requires c.requireBit && c.ttlMs == rc.cacheTtlMs > 0 && rc.negCacheTtlMs > 0 && Legal(w, c, rc, ss, d)
    requires e.kind != 0
    requires PolicyHandler.Taken(PolicyHandler.Run(c, HandlerSteps(ss)), c, PolicyHandler.Arrive(PolicyHandler.New(e), now)).1
             == PolicyHandler.Accept
    ensures k < j < |ss| && LooksUp(w, ss, k, n, e.pubkey)
    ensures ss[j].Handle? && ss[j].step.Answer? && ss[j].step.event.kind == 0 && ss[j].step.event.pubkey == e.pubkey
    ensures Question(w, ss[j].step.event) == Some(n)
    ensures now - ss[k].event.now < 2 * c.ttlMs + d
  {
    var hs := HandlerSteps(ss);
    PolicyHandler.AcceptedAuthorsAreVerified(c, hs, e, now);
    var v :| 0 <= v < |hs| && PolicyHandler.AcceptedVerification(c, hs, v, e.pubkey) && now - hs[v].now < c.ttlMs;
    j := HandlerStepAt(ss, v);
    var i: nat, m: Name, answer: A :| i < j && Passes(w, rc, ss, d, i, j, m, answer);
    n := m;
    k := YieldIsRecent(w, rc, ss, i, n, answer);
  }
}
