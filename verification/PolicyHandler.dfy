/**
 * The write-policy handler (`makeHandler`, src/index.js). A metadata event with a Namecoin identifier
 * awaits the resolver; everything else is decided at once. A run is any interleaving of arrivals,
 * resolver answers and rules-file loads.
 */
module PolicyHandler {
  import opened Wrappers
  import opened OrderedMap
  import opened LruStore
  import LruCache
  import RulesParser
  import RulesValidator
  import RulesLoader

  const NIP9A_KIND := 34551

  datatype Nip05 = NoIdentifier | NotNamecoin | Namecoin(identifier: string)

  /** An event with a string id. The pubkey is in lower case, or empty when missing; `raw` is the event
      as the rules loader sees it. */
  datatype Incoming = Incoming(
    kind: int,
    pubkey: string,
    nip05: Nip05,
    sizeBytes: int,
    imeta: bool,
    raw: RulesParser.Event)

  datatype Request = NotAnObject | NotNew | NoEvent | New(event: Incoming)

  datatype Reason =
    | NonObject | MissingEvent | MissingPubkey | UnverifiedAuthor | NonBitBlocked | NoResolver
    | RateLimited | Unresolved | PubkeyMismatch | NoRules | Violates(v: RulesValidator.Violation) | ImetaBlocked

  datatype Decision = Accept | Reject(reason: Reason) | Await

  datatype Config = Config(
    requireBit: bool,
    allowNonBit: bool,
    softFail: bool,
    hasResolver: bool,
    hasLoader: bool,
    requireRules: bool,
    rejectImetaKind1: bool,
    max: nat,
    ttlMs: nat,
    rules: RulesLoader.Config)

  datatype State = State(verified: Store<string, bool>, loader: RulesLoader.Loader, awaiting: seq<Incoming>)

  const START := State([], RulesLoader.EMPTY, [])

  function RulesContext(e: Incoming): RulesValidator.Context {
    RulesValidator.Context(e.pubkey, e.kind, e.sizeBytes, None, None)
  }

  /** The author gate: the store after the look, and whether the author is known. */
  function AuthorGate(s: State, c: Config, e: Incoming, now: int): (Store<string, bool>, bool) {
    if c.requireBit
    then
      var (m, v) := GetFrom(s.verified, c.ttlMs, e.pubkey, now);
      (m, v.Some?)
    else (s.verified, true)
  }

  /** The rules gate and the imeta gate, for an event past the author gate. */
  function RulesGate(l: RulesLoader.Loader, c: Config, e: Incoming): Decision {
    var active := if c.hasLoader then l.active else None;
    if c.hasLoader && active.None? && c.requireRules then Reject(NoRules)
    else if active.Some? && RulesValidator.Verdict(active.value, RulesContext(e)).Some?
    then Reject(Violates(RulesValidator.Verdict(active.value, RulesContext(e)).value))
    else if c.rejectImetaKind1 && e.kind == 1 && e.imeta
            && !(active.Some? && RulesValidator.Lists(active.value, e.pubkey, RulesParser.Allow))
    then Reject(ImetaBlocked)
    else Accept
  }

  function Metadata(s: State, c: Config, e: Incoming): (State, Decision) {
    match e.nip05
    case NoIdentifier => (s, Accept)
    case NotNamecoin => (s, if c.allowNonBit then Accept else Reject(NonBitBlocked))
    case Namecoin(_) =>
      if !c.hasResolver then (s, if c.softFail then Accept else Reject(NoResolver))
      else (s.(awaiting := s.awaiting + [e]), Await)
  }

  /** A request arrives. */
  function Arrived(s: State, c: Config, req: Request, now: int): (State, Decision) {
    match req
    case NotAnObject => (s, Reject(NonObject))
    case NotNew => (s, Accept)
    case NoEvent => (s, Reject(MissingEvent))
    case New(e) =>
      if e.pubkey == "" then (s, Reject(MissingPubkey))
      else if e.kind == NIP9A_KIND && c.hasLoader then
        var s' := s.(loader := RulesLoader.Offered(s.loader, c.rules, e.raw));
        var (m, known) := AuthorGate(s', c, e, now);
        (s'.(verified := m), if known then Accept else Reject(UnverifiedAuthor))
      else if e.kind == 0 then Metadata(s, c, e)
      else
        var (m, known) := AuthorGate(s, c, e, now);
        (s.(verified := m), if known then RulesGate(s.loader, c, e) else Reject(UnverifiedAuthor))
  }

  function Gone(es: seq<Incoming>, e: Incoming): seq<Incoming> {
    if es == [] then [] else if es[0] == e then es[1..] else [es[0]] + Gone(es[1..], e)
  }

  /** The resolver answers an awaiting metadata event with a pubkey, or with nothing. */
  function Answered(s: State, c: Config, e: Incoming, pubkey: Option<string>, limited: bool, now: int): (State, Decision) {
    var s' := s.(awaiting := Gone(s.awaiting, e));
    if pubkey.None? then (s', Reject(if limited then RateLimited else Unresolved))
    else if pubkey.value != e.pubkey then (s', Reject(PubkeyMismatch))
    else (s'.(verified := SetIn(s.verified, c.max, c.ttlMs, e.pubkey, true, None, now)), Accept)
  }

  class Handler {
    const config: Config
    const verifiedAuthors: LruCache.LRUCache<string, bool>
    const nip9a: RulesLoader.Nip9aLoader
    var awaiting: seq<Incoming>

    ghost predicate Valid() {
      && verifiedAuthors.max == config.max && verifiedAuthors.ttlMs == config.ttlMs
      && nip9a.config == config.rules
    }

    ghost function View(): State
      reads this, verifiedAuthors, nip9a
    {
      State(verifiedAuthors.store, nip9a.View(), awaiting)
    }

    constructor (config: Config)
      requires config.max > 0
      ensures this.config == config && Valid() && View() == START
      ensures fresh(verifiedAuthors) && fresh(nip9a)
    {
      this.config := config;
      verifiedAuthors := new LruCache.LRUCache(config.max, config.ttlMs);
      nip9a := new RulesLoader.Nip9aLoader(config.rules);
      awaiting := [];
    }

    /** The rules gate and the imeta gate. */
    method CheckRules(e: Incoming) returns (d: Decision)
      requires Valid()
      ensures d == RulesGate(nip9a.View(), config, e)
    {
      var active := None;
      if config.hasLoader {
        active := nip9a.Active();
        if active.None? && config.requireRules { return Reject(NoRules); }
        if active.Some? {
          var violation := RulesValidator.Validate(active.value, RulesContext(e));
          if violation.Some? { return Reject(Violates(violation.value)); }
        }
      }
      if config.rejectImetaKind1 && e.kind == 1 && e.imeta {
        if active.None? || !RulesValidator.Lists(active.value, e.pubkey, RulesParser.Allow) {
          return Reject(ImetaBlocked);
        }
      }
      return Accept;
    }

    /** `handle`, up to its await. */
    method Handle(req: Request, now: int) returns (d: Decision)
      requires Valid()
      modifies this, verifiedAuthors, nip9a
      ensures Valid() && (View(), d) == Arrived(old(View()), config, req, now)
    {
      if req.NotAnObject? { return Reject(NonObject); }
      if req.NotNew? { return Accept; }
      if req.NoEvent? { return Reject(MissingEvent); }
      var e := req.event;
      if e.pubkey == "" { return Reject(MissingPubkey); }

      if e.kind == NIP9A_KIND && config.hasLoader {
        var _ := nip9a.Offer(e.raw);
        if !config.requireBit { return Accept; }
        var seen := verifiedAuthors.Get(e.pubkey, now);
        return if seen.Some? then Accept else Reject(UnverifiedAuthor);
      }

      if e.kind == 0 {
        match e.nip05
        case NoIdentifier => return Accept;
        case NotNamecoin =>
          return if config.allowNonBit then Accept else Reject(NonBitBlocked);
        case Namecoin(_) =>
          if !config.hasResolver {
            return if config.softFail then Accept else Reject(NoResolver);
          }
          awaiting := awaiting + [e];
          return Await;
      }

      if config.requireBit {
        var seen := verifiedAuthors.Get(e.pubkey, now);
        if seen.None? { return Reject(UnverifiedAuthor); }
      }
      d := CheckRules(e);
    }

    /** The rest of `handle` for an event that awaited the resolver. */
    method Resume(e: Incoming, pubkey: Option<string>, limited: bool, now: int) returns (d: Decision)
      requires Valid()
      modifies this, verifiedAuthors
      ensures Valid() && (View(), d) == Answered(old(View()), config, e, pubkey, limited, now)
    {
      awaiting := Gone(awaiting, e);
      if pubkey.None? {
        return Reject(if limited then RateLimited else Unresolved);
      }
      if pubkey.value != e.pubkey { return Reject(PubkeyMismatch); }
      verifiedAuthors.Set(e.pubkey, true, None, now);
      return Accept;
    }
  }

  // ---------- Decisions ----------

  /** Whether an author is known at `now`: always, unless the gate is on; then, while in the store and not
      expired. */
  ghost predicate Known(s: State, c: Config, pubkey: string, now: int) {
    c.requireBit ==>
      var held := Lookup(s.verified, pubkey);
      held.Some? && (c.ttlMs == 0 || held.value.expires.None? || now < held.value.expires.value)
  }

  /** The rules in force. */
  function InForce(s: State, c: Config): Option<RulesParser.Rules> {
    if c.hasLoader then s.loader.active else None
  }

  /** What is accepted at once: a request that is not "new"; a rules event of a known author; metadata without
      an identifier, with a foreign one where that is allowed, and with a Namecoin one if no resolver is
      there and the relay fails soft; and any other event of a known author that no gate stops - not for
      want of required rules, not by a violation of those in force, and not as a note with media from an
      author they do not allow by name. Nothing else is accepted before the resolver answers. */
  lemma AcceptedIff(s: State, c: Config, req: Request, now: int)
    ensures Arrived(s, c, req, now).1 == Accept <==>
      match req
      case NotAnObject => false
      case NotNew => true
      case NoEvent => false
      case New(e) =>
        e.pubkey != "" &&
        if e.kind == 34551 && c.hasLoader then Known(s, c, e.pubkey, now)
        else if e.kind == 0 then
          match e.nip05
          case NoIdentifier => true
          case NotNamecoin => c.allowNonBit
          case Namecoin(_) => !c.hasResolver && c.softFail
        else
          && Known(s, c, e.pubkey, now)
          && (c.hasLoader && c.requireRules ==> s.loader.active.Some?)
          && (InForce(s, c).Some? ==> RulesValidator.Verdict(InForce(s, c).value, RulesContext(e)).None?)
          && (c.rejectImetaKind1 && e.kind == 1 && e.imeta ==>
                InForce(s, c).Some? && AllowedByName(InForce(s, c).value, e.pubkey))
  {
    if req.New? { GateMeaning(s, c, req.event); }
  }

  ghost predicate AllowedByName(rules: RulesParser.Rules, pubkey: string) {
    exists i | 0 <= i < |rules.pubkeyRules| :: rules.pubkeyRules[i].pubkey == pubkey && rules.pubkeyRules[i].policy.Allow?
  }

  lemma GateMeaning(s: State, c: Config, e: Incoming)
    ensures RulesGate(s.loader, c, e) == Accept <==>
      && (c.hasLoader && c.requireRules ==> s.loader.active.Some?)
      && (InForce(s, c).Some? ==> RulesValidator.Verdict(InForce(s, c).value, RulesContext(e)).None?)
      && (c.rejectImetaKind1 && e.kind == 1 && e.imeta ==>
            InForce(s, c).Some? && AllowedByName(InForce(s, c).value, e.pubkey))
  {
    if InForce(s, c).Some? { RulesValidator.ListsMeaning(InForce(s, c).value, e.pubkey, RulesParser.Allow); }
  }

  /** What waits for the resolver: exactly metadata with a Namecoin identifier, where there is one. And what
      is refused says why: the first reason in the handler's order. */
  lemma RefusalMeaning(s: State, c: Config, req: Request, now: int)
    ensures var (s', d) := Arrived(s, c, req, now);
            && (d == Await <==>
                  req.New? && req.event.pubkey != "" && req.event.kind == 0 && req.event.nip05.Namecoin? && c.hasResolver)
            && s'.awaiting == s.awaiting + (if d == Await then [req.event] else [])
            && (d == Reject(UnverifiedAuthor) <==>
                  && req.New? && req.event.pubkey != "" && req.event.kind != 0
                  && !Known(s, c, req.event.pubkey, now))
            && (d == Reject(NoRules) ==> c.requireRules && s.loader.active.None?)
            && (forall v :: d == Reject(Violates(v)) ==>
                  InForce(s, c).Some? && RulesValidator.Verdict(InForce(s, c).value, RulesContext(req.event)) == Some(v))
  {
  }

  /** What the resolver's answer decides: the event is accepted exactly when it names the event's own pubkey,
      and exactly then the author is known from now on, for the time to live. */
  lemma AnswerMeaning(s: State, c: Config, e: Incoming, pubkey: Option<string>, limited: bool, now: int)
    requires Distinct(s.verified) && c.max > 0
    ensures var (s', d) := Answered(s, c, e, pubkey, limited, now);
            && d == (if pubkey == Some(e.pubkey) then Accept
                     else if pubkey.Some? then Reject(PubkeyMismatch)
                     else if limited then Reject(RateLimited) else Reject(Unresolved))
            && s'.loader == s.loader
            && (d == Accept ==> forall t :: now <= t && (c.ttlMs == 0 || t < now + c.ttlMs) ==> Known(s', c, e.pubkey, t))
            && (d != Accept ==> s'.verified == s.verified)
  {
    if pubkey == Some(e.pubkey) {
      var limits := LruCache.Limits(c.max, c.ttlMs);
      LruCache.WrittenStays(s.verified, limits, [], e.pubkey, true, None, now, {});
    }
  }

  // ---------- Runs ----------

  datatype Step =
    | Arrive(req: Request, now: int)
    | Answer(event: Incoming, pubkey: Option<string>, limited: bool, now: int)
    | LoadFile(raw: RulesParser.Event)

  /** The resolver answers only events that await it. */
  predicate Enabled(s: State, st: Step) {
    st.Answer? ==> st.event in s.awaiting
  }

  function Taken(s: State, c: Config, st: Step): (State, Decision) {
    match st
    case Arrive(req, now) => Arrived(s, c, req, now)
    case Answer(e, pubkey, limited, now) => Answered(s, c, e, pubkey, limited, now)
    case LoadFile(raw) =>
      (if c.hasLoader then s.(loader := RulesLoader.Offered(s.loader, c.rules, raw)) else s, Accept)
  }

  function Run(c: Config, ss: seq<Step>): State {
    if ss == [] then START else Taken(Run(c, ss[..|ss| - 1]), c, ss[|ss| - 1]).0
  }

  ghost predicate Legal(c: Config, ss: seq<Step>) {
    forall i | 0 <= i < |ss| :: Enabled(Run(c, ss[..i]), ss[i])
  }

  lemma LegalPrefix(c: Config, ss: seq<Step>, st: Step)
    requires Legal(c, ss + [st])
    ensures Legal(c, ss) && Enabled(Run(c, ss), st)
  {
    forall i | 0 <= i < |ss| ensures Enabled(Run(c, ss[..i]), ss[i]) {
      assert (ss + [st])[..i] == ss[..i] && (ss + [st])[i] == ss[i];
    }
    assert (ss + [st])[..|ss|] == ss && (ss + [st])[|ss|] == st;
  }

  // ---------- The author gate over runs ----------

  predicate Verifies(st: Step, pubkey: string) {
    st.Answer? && st.pubkey == Some(pubkey) && st.event.pubkey == pubkey
  }

  /** The latest step of a run that verified an author. */
  function LastVerified(ss: seq<Step>, pubkey: string): Option<Step> {
    if ss == [] then None
    else if Verifies(ss[|ss| - 1], pubkey) then Some(ss[|ss| - 1])
    else LastVerified(ss[..|ss| - 1], pubkey)
  }

  /** An author in the store was put there by its latest verification, and expires with it. */
  ghost predicate Vouched(s: State, c: Config, ss: seq<Step>, pubkey: string) {
    Distinct(s.verified) &&
    (Has(s.verified, pubkey) ==>
       var last := LastVerified(ss, pubkey);
       last.Some? && last.value.Answer?
       && Lookup(s.verified, pubkey).value.expires == Expiry(c.ttlMs, None, last.value.now))
  }

  /** Only metadata events with a Namecoin identifier wait. */
  ghost predicate OnlyMetadataWaits(s: State) {
    forall e | e in s.awaiting :: e.kind == 0 && e.nip05.Namecoin?
  }

  lemma StepVouched(s: State, c: Config, ss: seq<Step>, st: Step, pubkey: string)
    requires Vouched(s, c, ss, pubkey)
    ensures Vouched(Taken(s, c, st).0, c, ss + [st], pubkey)
  {
    assert (ss + [st])[..|ss|] == ss;
    match st
    case Arrive(req, now) =>
      if req.New? { GetHolds(s.verified, c.ttlMs, req.event.pubkey, now, pubkey); }
    case Answer(e, _, _, now) =>
      SetHolds(s.verified, c.max, c.ttlMs, e.pubkey, true, None, now, pubkey);
    case LoadFile(_) =>
  }

  lemma {:induction false} RunVouched(c: Config, ss: seq<Step>, pubkey: string)
    ensures Vouched(Run(c, ss), c, ss, pubkey)
  {
    if ss != [] {
      var init, st := ss[..|ss| - 1], ss[|ss| - 1];
      RunVouched(c, init, pubkey);
      StepVouched(Run(c, init), c, init, st, pubkey);
      assert init + [st] == ss;
    }
  }

  lemma {:induction false} GoneIsLess(es: seq<Incoming>, e: Incoming)
    ensures forall x | x in Gone(es, e) :: x in es
  {
    if es != [] { GoneIsLess(es[1..], e); }
  }

  lemma {:induction false} RunWaits(c: Config, ss: seq<Step>)
    ensures OnlyMetadataWaits(Run(c, ss))
  {
    if ss != [] {
      var s, st := Run(c, ss[..|ss| - 1]), ss[|ss| - 1];
      RunWaits(c, ss[..|ss| - 1]);
      if st.Answer? { GoneIsLess(s.awaiting, st.event); }
    }
  }

  /** The step that verified an author: an accepted metadata event of that author, whose Namecoin
      identifier resolved to the author's own pubkey. */
  ghost predicate AcceptedVerification(c: Config, ss: seq<Step>, i: nat, pubkey: string)
    requires i < |ss|
  {
    && Verifies(ss[i], pubkey)
    && ss[i].event in Run(c, ss[..i]).awaiting
    && ss[i].event.kind == 0 && ss[i].event.nip05.Namecoin?
    && Taken(Run(c, ss[..i]), c, ss[i]).1 == Accept
  }

  lemma {:induction false} LastVerifiedAt(c: Config, ss: seq<Step>, pubkey: string) returns (i: nat)
    requires Legal(c, ss) && LastVerified(ss, pubkey).Some?
    ensures i < |ss| && LastVerified(ss, pubkey) == Some(ss[i]) && AcceptedVerification(c, ss, i, pubkey)
  {
    var init, st := ss[..|ss| - 1], ss[|ss| - 1];
    assert init + [st] == ss;
    LegalPrefix(c, init, st);
    if Verifies(st, pubkey) {
      i := |init|;
      RunWaits(c, init);
    } else {
      i := LastVerifiedAt(c, init, pubkey);
      assert ss[..i] == init[..i] && ss[i] == init[i];
    }
  }

  /** The author gate. With the gate on and a positive time to live, every accepted new event of
      non-zero kind - rules events included - is preceded, less than the time to live before, by an
      accepted metadata event of the same pubkey whose identifier resolved to that pubkey. */
  lemma AcceptedAuthorsAreVerified(c: Config, ss: seq<Step>, e: Incoming, now: int)
    requires c.requireBit && c.ttlMs > 0 && Legal(c, ss)
    requires e.kind != 0 && Taken(Run(c, ss), c, Arrive(New(e), now)).1 == Accept
    ensures exists i | 0 <= i < |ss| ::
              AcceptedVerification(c, ss, i, e.pubkey) && now - ss[i].now < c.ttlMs
  {
    RunVouched(c, ss, e.pubkey);
    assert AuthorGate(Run(c, ss), c, e, now).1;
    var i := LastVerifiedAt(c, ss, e.pubkey);
  }

  /** What a step does to the store of verified authors. */
  function StoreOps(c: Config, st: Step): seq<LruCache.Op<string, bool>> {
    match st
    case Arrive(req, now) =>
      if req.New? && req.event.pubkey != "" && req.event.kind != 0 && c.requireBit
      then [LruCache.Get(req.event.pubkey, now)] else []
    case Answer(e, pubkey, _, now) =>
      if pubkey == Some(e.pubkey) then [LruCache.Set(e.pubkey, true, None, now)] else []
    case LoadFile(_) => []
  }

  function AllStoreOps(c: Config, ss: seq<Step>): seq<LruCache.Op<string, bool>> {
    if ss == [] then [] else AllStoreOps(c, ss[..|ss| - 1]) + StoreOps(c, ss[|ss| - 1])
  }

  lemma StepStore(s: State, c: Config, st: Step)
    ensures Taken(s, c, st).0.verified == LruCache.Run(s.verified, LruCache.Limits(c.max, c.ttlMs), StoreOps(c, st))
  {
    var limits, ops := LruCache.Limits(c.max, c.ttlMs), StoreOps(c, st);
    if ops != [] {
      assert ops[1..] == [];
      assert LruCache.Run(s.verified, limits, ops) == LruCache.Apply(s.verified, limits, ops[0]);
    }
  }

  lemma {:induction false} StoreRun(m: Store<string, bool>, limits: LruCache.Limits,
                                    a: seq<LruCache.Op<string, bool>>, b: seq<LruCache.Op<string, bool>>)
    ensures LruCache.Run(m, limits, a + b) == LruCache.Run(LruCache.Run(m, limits, a), limits, b)
    decreases |a|
  {
    if a == [] {
      assert a + b == b;
    } else {
      assert (a + b)[1..] == a[1..] + b && (a + b)[0] == a[0];
      StoreRun(LruCache.Apply(m, limits, a[0]), limits, a[1..], b);
    }
  }

  /** From a point of a run on, the store of verified authors is an LRU cache of which only the gate's looks
      and the verifications are operations. */
  lemma {:induction false} StoreIsCache(c: Config, ss: seq<Step>, more: seq<Step>)
    ensures Run(c, ss + more).verified
         == LruCache.Run(Run(c, ss).verified, LruCache.Limits(c.max, c.ttlMs), AllStoreOps(c, more))
  {
    if more == [] {
      assert ss + more == ss;
    } else {
      var init, st := more[..|more| - 1], more[|more| - 1];
      assert (ss + more)[..|ss + more| - 1] == ss + init;
      StoreIsCache(c, ss, init);
      StepStore(Run(c, ss + init), c, st);
      StoreRun(Run(c, ss).verified, LruCache.Limits(c.max, c.ttlMs), AllStoreOps(c, init), StoreOps(c, st));
    }
  }

  /** The step is of authors in `others`, or of `pubkey` before `until`, and verifies not `pubkey` but others. */
  predicate Busy(c: Config, st: Step, pubkey: string, others: set<string>, until: int) {
    match st
    case Arrive(req, now) =>
      req.New? ==> req.event.pubkey in others || (req.event.pubkey == pubkey && (c.ttlMs > 0 ==> now < until))
    case Answer(e, p, _, _) => p == Some(e.pubkey) ==> e.pubkey in others
    case LoadFile(_) => true
  }

  lemma {:induction false} BusyOps(c: Config, more: seq<Step>, pubkey: string, others: set<string>, now: int)
    requires forall i | 0 <= i < |more| :: Busy(c, more[i], pubkey, others, now + c.ttlMs)
    ensures forall op | op in AllStoreOps(c, more) ::
              LruCache.Elsewhere(op, c.ttlMs, pubkey, Slot(true, Expiry(c.ttlMs, None, now)), others)
  {
    if more != [] {
      var init := more[..|more| - 1];
      assert forall i | 0 <= i < |init| :: init[i] == more[i];
      BusyOps(c, init, pubkey, others, now);
    }
  }

  lemma StoreDistinct(c: Config, ss: seq<Step>)
    ensures Distinct(Run(c, ss).verified)
  {
    RunVouched(c, ss, "");
  }

  lemma FoundIsKnown(s: State, c: Config, pubkey: string, now: int)
    requires GetFrom(s.verified, c.ttlMs, pubkey, now).1.Some?
    ensures Known(s, c, pubkey, now)
  {
  }

  lemma VerifiedIsStored(s: State, c: Config, st: Step, pubkey: string)
    requires Verifies(st, pubkey)
    ensures Taken(s, c, st).0.verified == SetIn(s.verified, c.max, c.ttlMs, pubkey, true, None, st.now)
  {
  }

  lemma VerifiedIsFound(c: Config, ss: seq<Step>, st: Step, more: seq<Step>, others: set<string>, pubkey: string, now: int)
    requires Verifies(st, pubkey) && pubkey !in others && |others| < c.max
    requires forall i | 0 <= i < |more| :: Busy(c, more[i], pubkey, others, st.now + c.ttlMs)
    requires c.ttlMs > 0 ==> now < st.now + c.ttlMs
    ensures GetFrom(Run(c, ss + [st] + more).verified, c.ttlMs, pubkey, now).1.Some?
  {
    var verified := Run(c, ss).verified;
    assert (ss + [st])[..|ss|] == ss;
    StoreDistinct(c, ss);
    VerifiedIsStored(Run(c, ss), c, st, pubkey);
    StoreIsCache(c, ss + [st], more);
    BusyOps(c, more, pubkey, others, st.now);
    LruCache.WrittenIsRead(verified, LruCache.Limits(c.max, c.ttlMs), AllStoreOps(c, more), pubkey, true, None, st.now, others, now);
  }

  /** The author gate lets verified authors pass. Once an author has been verified, its events are not refused
      as unverified for the time to live, as long as fewer than `max` other authors come by, however often
      and in whatever order. */
  lemma VerifiedAuthorPasses(c: Config, ss: seq<Step>, st: Step, more: seq<Step>, others: set<string>, e: Incoming, now: int)
    requires Verifies(st, e.pubkey) && e.pubkey !in others && |others| < c.max
    requires forall i | 0 <= i < |more| :: Busy(c, more[i], e.pubkey, others, st.now + c.ttlMs)
    requires c.ttlMs > 0 ==> now < st.now + c.ttlMs
    ensures Taken(Run(c, ss + [st] + more), c, Arrive(New(e), now)).1 != Reject(UnverifiedAuthor)
  {
    var s := Run(c, ss + [st] + more);
    VerifiedIsFound(c, ss, st, more, others, e.pubkey, now);
    FoundIsKnown(s, c, e.pubkey, now);
    RefusalMeaning(s, c, New(e), now);
  }

  // ---------- The rules gate over runs ----------

  /** The rules events a run has offered to the loader, in order. */
  function Offers(c: Config, ss: seq<Step>): seq<RulesParser.Event> {
    if ss == [] then []
    else
      var st := ss[|ss| - 1];
      Offers(c, ss[..|ss| - 1]) +
      match st
      case Arrive(req, _) =>
        if req.New? && req.event.pubkey != "" && req.event.kind == NIP9A_KIND && c.hasLoader then [req.event.raw] else []
      case Answer(_, _, _, _) => []
      case LoadFile(raw) => if c.hasLoader then [raw] else []
  }

  lemma ArrivalOffers(s: State, c: Config, e: Incoming, now: int)
    ensures Arrived(s, c, New(e), now).0.loader ==
            if e.pubkey != "" && e.kind == NIP9A_KIND && c.hasLoader
            then RulesLoader.Offered(s.loader, c.rules, e.raw) else s.loader
  {
  }

  lemma {:induction false} LoaderFollowsOffers(c: Config, ss: seq<Step>)
    ensures Run(c, ss).loader == RulesLoader.Run(c.rules, Offers(c, ss))
  {
    if ss != [] {
      var init, st := ss[..|ss| - 1], ss[|ss| - 1];
      LoaderFollowsOffers(c, init);
      if st.Arrive? && st.req.New? { ArrivalOffers(Run(c, init), c, st.req.event, st.now); }
      if Offers(c, ss) != Offers(c, init) {
        assert Offers(c, ss)[..|Offers(c, init)|] == Offers(c, init);
      }
    }
  }

  /** The rules gate. Every accepted ordinary event meets a rules document at least as late as every
      acceptable one the relay has ever been offered - those whose own event the author gate refused
      included - unless none is in force. */
  lemma AcceptedUnderLatestRules(c: Config, ss: seq<Step>, e: Incoming, now: int)
    requires c.hasLoader && RulesLoader.IdsDetermine(Offers(c, ss))
    requires e.kind != 0 && e.kind != NIP9A_KIND && Taken(Run(c, ss), c, Arrive(New(e), now)).1 == Accept
    ensures var active := Run(c, ss).loader.active;
            && (active.None? ==> !c.requireRules)
            && (active.Some? ==>
                  && RulesValidator.Verdict(active.value, RulesContext(e)).None?
                  && forall r | r in RulesLoader.Everything(c.rules, Offers(c, ss)) :: r.createdAt <= active.value.createdAt)
  {
    LoaderFollowsOffers(c, ss);
    if Run(c, ss).loader.active.Some? {
      forall r | r in RulesLoader.Everything(c.rules, Offers(c, ss)) ensures r.createdAt <= Run(c, ss).loader.active.value.createdAt {
        RulesLoader.ActiveIsLatestEverOffered(c.rules, Offers(c, ss), r);
      }
    }
  }
}
