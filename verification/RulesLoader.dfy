/**
 * The NIP-9B rules loader (src/nip9a-loader.js): the latest acceptable document per (pubkey, d) pair
 * and the active one among them, under an anti-rollback floor.
 */
module RulesLoader {
  import opened Wrappers
  import opened OrderedMap
  import opened RulesParser
  import opened RulesPick
  import opened RulesValidator

  /** The configured community, when there is one. */
  datatype Pin = Pin(ownerHex: string, dTag: string, community: string)

  datatype Config = Config(pin: Option<Pin>, numbers: Numbers)

  datatype Loader = Loader(byKey: seq<Binding<string, Rules>>, active: Option<Rules>)

  const EMPTY := Loader([], None)

  function Key(r: Rules): string {
    r.pubkey + "\0" + r.dTag
  }

  function Values(m: seq<Binding<string, Rules>>): seq<Rules> {
    seq(|m|, i requires 0 <= i < |m| => m[i].value)
  }

  predicate Passes(pin: Option<Pin>, r: Rules) {
    pin.Some? ==>
      && Lower(r.pubkey) == pin.value.ownerHex
      && r.dTag == pin.value.dTag
      && (r.communityAddress.Some? ==> r.communityAddress.value == pin.value.community)
  }

  /** The document an event offers: nothing when it is malformed or stopped by the owner filter. */
  function Candidate(c: Config, e: Event): Option<Rules> {
    var parsed := Parsed(e, c.numbers);
    if parsed.Some? && Passes(c.pin, parsed.value) then parsed else None
  }

  predicate Superseded(m: seq<Binding<string, Rules>>, r: Rules) {
    var prior := Lookup(m, Key(r));
    prior.Some? && prior.value.createdAt >= r.createdAt && prior.value.id != r.id
  }

  function Offered(l: Loader, c: Config, e: Event): Loader {
    match Candidate(c, e)
    case None => l
    case Some(r) =>
      if Superseded(l.byKey, r) then l
      else
        var m := Put(l.byKey, Key(r), r);
        Loader(m, Pick(Values(m)))
  }

  class Nip9aLoader {
    const config: Config
    var rulesByKey: seq<Binding<string, Rules>>
    var activeRules: Option<Rules>

    ghost function View(): Loader
      reads this
    {
      Loader(rulesByKey, activeRules)
    }

    constructor (config: Config)
      ensures this.config == config && View() == EMPTY
    {
      this.config := config;
      rulesByKey := [];
      activeRules := None;
    }

    method Offer(e: Event) returns (accepted: bool)
      modifies this
      ensures View() == Offered(old(View()), config, e)
      ensures accepted <==> Accepts(old(View()), config, e)
    {
      if e.kind != NIP9A_KIND { return false; }
      var parsed := ParseRulesEvent(e, config.numbers);
      if parsed.None? { return false; }
      var r := parsed.value;
      if config.pin.Some? {
        var pin := config.pin.value;
        if Lower(r.pubkey) != pin.ownerHex { return false; }
        if r.dTag != pin.dTag { return false; }
        if r.communityAddress.Some? && r.communityAddress.value != pin.community { return false; }
      }
      var prior := Lookup(rulesByKey, Key(r));
      if prior.Some? && prior.value.createdAt >= r.createdAt && prior.value.id != r.id {
        return false;
      }
      rulesByKey := Put(rulesByKey, Key(r), r);
      activeRules := PickActiveRules(Values(rulesByKey));
      return true;
    }

    method Active() returns (r: Option<Rules>)
      ensures r == activeRules
    {
      r := activeRules;
    }
  }

  /** When the loader takes an event: it carries a document; under a pin the document is of the pinned owner
      and `d` tag and names no other community; and the document held for its pubkey and `d` tag, if any, is
      older or the same event. */
  ghost predicate Accepts(l: Loader, c: Config, e: Event) {
    var parsed := Parsed(e, c.numbers);
    parsed.Some? &&
    var r := parsed.value;
    var prior := Lookup(l.byKey, r.pubkey + "\0" + r.dTag);
    && (c.pin.None? ||
          (&& Lower(r.pubkey) == c.pin.value.ownerHex && r.dTag == c.pin.value.dTag
           && (r.communityAddress.None? || r.communityAddress == Some(c.pin.value.community))))
    && (prior.None? || prior.value.createdAt < r.createdAt || prior.value.id == r.id)
  }

  /** What an offer does: an event not taken changes nothing; the document of one taken replaces that of its
      pubkey and `d` tag and no other, and the active document is picked anew. */
  lemma OfferMeaning(l: Loader, c: Config, e: Event, k: string)
    ensures var l' := Offered(l, c, e);
            if Accepts(l, c, e) then
              var r := Parsed(e, c.numbers).value;
              && Lookup(l'.byKey, k) == (if k == r.pubkey + "\0" + r.dTag then Some(r) else Lookup(l.byKey, k))
              && l'.active == Pick(Values(l'.byKey))
            else l' == l
  {
    if Accepts(l, c, e) {
      var r := Parsed(e, c.numbers).value;
      LookupPut(l.byKey, Key(r), r, k);
    }
  }

  // ---------- Runs ----------

  function Run(c: Config, es: seq<Event>): Loader {
    if es == [] then EMPTY else Offered(Run(c, es[..|es| - 1]), c, es[|es| - 1])
  }

  /** Every document offered and let through by the filters, none dropped. */
  function Everything(c: Config, es: seq<Event>): seq<Rules> {
    if es == [] then []
    else
      var r := Candidate(c, es[|es| - 1]);
      Everything(c, es[..|es| - 1]) + if r.Some? then [r.value] else []
  }

  /** An id determines its event, as it does for signed events. */
  ghost predicate IdsDetermine(es: seq<Event>) {
    forall e, f | e in es && f in es :: e.id == f.id ==> e == f
  }

  /** What the loader holds, against what it was offered. */
  ghost predicate Kept(l: Loader, all: seq<Rules>) {
    && l.active == Pick(Values(l.byKey))
    && |l.byKey| <= |all|
    && (forall b | b in l.byKey :: b.value in all && b.key == Key(b.value))
    && (forall r | r in all :: Has(l.byKey, Key(r)) && Lookup(l.byKey, Key(r)).value.createdAt >= r.createdAt)
  }

  lemma {:induction false} LookupIsHeld(m: seq<Binding<string, Rules>>, k: string)
    requires Has(m, k)
    ensures Binding(k, Lookup(m, k).value) in m
  {
    if m[0].key != k { LookupIsHeld(m[1..], k); }
  }

  lemma {:induction false} PutHolds(m: seq<Binding<string, Rules>>, k: string, r: Rules)
    ensures forall b | b in Put(m, k, r) :: b == Binding(k, r) || b in m
    ensures |Put(m, k, r)| <= |m| + 1
  {
    if m != [] { PutHolds(m[1..], k, r); }
  }

  lemma {:induction false} EverythingFrom(c: Config, es: seq<Event>, r: Rules)
    requires r in Everything(c, es)
    ensures exists e | e in es :: Candidate(c, e) == Some(r)
  {
    var init, last := es[..|es| - 1], es[|es| - 1];
    if r in Everything(c, init) {
      EverythingFrom(c, init, r);
      var e :| e in init && Candidate(c, e) == Some(r);
      assert e in es;
    } else {
      assert last in es && Candidate(c, last) == Some(r);
    }
  }

  lemma {:induction false} RunKept(c: Config, es: seq<Event>)
    requires IdsDetermine(es)
    ensures Kept(Run(c, es), Everything(c, es))
  {
    if es != [] {
      var init, e := es[..|es| - 1], es[|es| - 1];
      RunKept(c, init);
      OfferKept(c, init, e);
      assert init + [e] == es;
    }
  }

  /** A held document with the offered one's id is the offered one. */
  lemma SameIdSameRules(c: Config, es: seq<Event>, e: Event, prior: Rules)
    requires IdsDetermine(es) && e in es && Candidate(c, e).Some?
    requires prior in Everything(c, es) && prior.id == Candidate(c, e).value.id
    ensures prior == Candidate(c, e).value
  {
    EverythingFrom(c, es, prior);
  }

  lemma OfferKept(c: Config, init: seq<Event>, e: Event)
    requires IdsDetermine(init + [e]) && Kept(Run(c, init), Everything(c, init))
    ensures Kept(Offered(Run(c, init), c, e), Everything(c, init + [e]))
  {
    var es, l, all := init + [e], Run(c, init), Everything(c, init);
    assert es[..|init|] == init;
    if Candidate(c, e).Some? {
      var r := Candidate(c, e).value;
      var all' := Everything(c, es);
      assert all' == all + [r];
      var prior := Lookup(l.byKey, Key(r));
      if prior.Some? {
        LookupIsHeld(l.byKey, Key(r));
        if prior.value.id == r.id { SameIdSameRules(c, es, e, prior.value); }
      }
      if !Superseded(l.byKey, r) {
        var m := Put(l.byKey, Key(r), r);
        PutHolds(l.byKey, Key(r), r);
        forall r' | r' in all' ensures Has(m, Key(r')) && Lookup(m, Key(r')).value.createdAt >= r'.createdAt {
          LookupPut(l.byKey, Key(r), r, Key(r'));
        }
      }
    }
  }

  /** Under a pin, strangers never get in: in every run each document held, and the active one, has the
      owner's pubkey and the pinned `d` tag, and no community address but the pinned one. */
  lemma {:induction false} OnlyTheOwner(c: Config, es: seq<Event>)
    requires c.pin.Some?
    ensures forall b | b in Run(c, es).byKey ::
              && Lower(b.value.pubkey) == c.pin.value.ownerHex && b.value.dTag == c.pin.value.dTag
              && (b.value.communityAddress.Some? ==> b.value.communityAddress == Some(c.pin.value.community))
    ensures var active := Run(c, es).active;
            active.Some? ==>
              && Lower(active.value.pubkey) == c.pin.value.ownerHex && active.value.dTag == c.pin.value.dTag
              && (active.value.communityAddress.Some? ==> active.value.communityAddress == Some(c.pin.value.community))
  {
    if es != [] {
      var init, e := es[..|es| - 1], es[|es| - 1];
      var l, l' := Run(c, init), Run(c, es);
      OnlyTheOwner(c, init);
      if l' != l {
        var r := Candidate(c, e).value;
        PutHolds(l.byKey, Key(r), r);
        PickMeaning(Values(l'.byKey));
        if l'.active.Some? {
          var i :| 0 <= i < |l'.byKey| && Values(l'.byKey)[i] == l'.active.value;
          assert l'.byKey[i] in l'.byKey;
        }
      }
    }
  }

  // ---------- Main results ----------

  /** The active document is at least as late as every document ever offered and let through. */
  lemma ActiveIsLatestEverOffered(c: Config, es: seq<Event>, r: Rules)
    requires IdsDetermine(es) && Run(c, es).active.Some? && r in Everything(c, es)
    ensures Run(c, es).active.value.createdAt >= r.createdAt
  {
    RunKept(c, es);
    var m := Run(c, es).byKey;
    LookupIsHeld(m, Key(r));
    var i :| 0 <= i < |m| && m[i] == Binding(Key(r), Lookup(m, Key(r)).value);
    assert Values(m)[i] in Values(m);
    PickMeaning(Values(m));
  }

  /** The active document was offered, and clears every ratchet still held. */
  lemma ActiveWasOffered(c: Config, es: seq<Event>)
    requires IdsDetermine(es) && Run(c, es).active.Some?
    ensures Run(c, es).active.value in Everything(c, es)
  {
    RunKept(c, es);
    var m := Run(c, es).byKey;
    PickMeaning(Values(m));
    var i :| 0 <= i < |m| && Values(m)[i] == Run(c, es).active.value;
    assert m[i] in m;
  }

  lemma {:induction false} EverythingGrows(c: Config, es: seq<Event>, more: seq<Event>, r: Rules)
    requires r in Everything(c, es)
    ensures r in Everything(c, es + more)
  {
    if more == [] {
      assert es + more == es;
    } else {
      EverythingGrows(c, es, more[..|more| - 1], r);
      assert (es + more)[..|es + more| - 1] == es + more[..|more| - 1];
    }
  }

  /** Anti-rollback: once a document has been active, no document created earlier is ever active
      again, whatever is offered in between and even across stretches with none active. */
  lemma AntiRollback(c: Config, es: seq<Event>, more: seq<Event>)
    requires IdsDetermine(es + more)
    requires Run(c, es).active.Some? && Run(c, es + more).active.Some?
    ensures Run(c, es + more).active.value.createdAt >= Run(c, es).active.value.createdAt
  {
    assert forall e | e in es :: e in es + more;
    ActiveWasOffered(c, es);
    EverythingGrows(c, es, more, Run(c, es).active.value);
    ActiveIsLatestEverOffered(c, es + more, Run(c, es).active.value);
  }

  /** The active document never makes the validator report stale rules. */
  lemma ActiveNeverStale(c: Config, es: seq<Event>, ctx: Context)
    requires IdsDetermine(es) && Run(c, es).active.Some?
    ensures Verdict(Run(c, es).active.value, ctx) != Some(StaleRules)
  {
    RunKept(c, es);
    PickMeaning(Values(Run(c, es).byKey));
  }

  // ---------- Pruning ----------

  /** Different documents have different timestamps. */
  ghost predicate StampsDistinct(all: seq<Rules>) {
    forall r, s | r in all && s in all :: r.createdAt == s.createdAt ==> r == s
  }

  lemma {:induction false} LatestExists(all: seq<Rules>) returns (top: Rules)
    requires all != []
    ensures top in all && forall r | r in all :: r.createdAt <= top.createdAt
  {
    if |all| == 1 {
      top := all[0];
    } else {
      var t := LatestExists(all[1..]);
      top := if t.createdAt >= all[0].createdAt then t else all[0];
      assert forall r | r in all :: r == all[0] || r in all[1..];
    }
  }

  lemma ValuesHold(m: seq<Binding<string, Rules>>, all: seq<Rules>)
    requires forall b | b in m :: b.value in all
    ensures forall r | r in Values(m) :: r in all
    ensures forall b | b in m :: b.value in Values(m)
  {
    forall r | r in Values(m) ensures r in all {
      var i :| 0 <= i < |m| && Values(m)[i] == r;
      assert m[i] in m;
    }
    forall b | b in m ensures b.value in Values(m) {
      var i :| 0 <= i < |m| && m[i] == b;
      assert Values(m)[i] == b.value;
    }
  }

  /** No ratchet that matters has been dropped: every ratchet ever offered is at or below the latest
      timestamp, or a document still held carries one above it. (With a latest timestamp below 0 nothing
      can be active.) */
  ghost predicate RatchetsKept(c: Config, es: seq<Event>, latest: int) {
    || latest < 0
    || (forall r | r in Everything(c, es) && r.minRulesCreatedAt.Some? :: r.minRulesCreatedAt.value <= latest)
    || (exists r | r in Values(Run(c, es).byKey) :: r.minRulesCreatedAt.Some? && r.minRulesCreatedAt.value > latest)
  }

  /** Two picks are as good as each other: both none, or of the same timestamp. */
  predicate AsLate(a: Option<Rules>, b: Option<Rules>) {
    if a.Some? && b.Some? then a.value.createdAt == b.value.createdAt else a.None? && b.None?
  }

  /** A pick is at the latest timestamp, or none if that is below the floor. */
  lemma PickAtLatest(cs: seq<Rules>, top: Rules)
    requires top in cs && forall r | r in cs :: r.createdAt <= top.createdAt
    ensures Pick(cs).Some? <==> top.createdAt >= Floor(cs)
    ensures Pick(cs).Some? ==> Pick(cs).value.createdAt == top.createdAt
  {
    LatestMeaning(cs, Floor(cs));
  }

  /** The loader holds a document at the latest timestamp of all. */
  lemma LatestIsHeld(c: Config, es: seq<Event>, top: Rules) returns (held: Rules)
    requires IdsDetermine(es)
    requires top in Everything(c, es) && forall r | r in Everything(c, es) :: r.createdAt <= top.createdAt
    ensures held in Values(Run(c, es).byKey) && held.createdAt == top.createdAt
    ensures forall r | r in Values(Run(c, es).byKey) :: r in Everything(c, es) && r.createdAt <= held.createdAt
  {
    var m := Run(c, es).byKey;
    RunKept(c, es);
    ValuesHold(m, Everything(c, es));
    LookupIsHeld(m, Key(top));
    held := Lookup(m, Key(top)).value;
    assert Binding(Key(top), held).value in Values(m);
  }

  /** Pruning is harmless, exactly when no ratchet that matters has been dropped. The loader keeps one
      document per key; a picker that keeps everything ever offered finds a document of the same
      timestamp, or none, if and only if the ratchets are kept. Timestamps may coincide. */
  lemma PrunedAgreesIff(c: Config, es: seq<Event>, top: Rules)
    requires IdsDetermine(es)
    requires top in Everything(c, es) && forall r | r in Everything(c, es) :: r.createdAt <= top.createdAt
    ensures AsLate(Run(c, es).active, Pick(Everything(c, es))) <==> RatchetsKept(c, es, top.createdAt)
  {
    var all, held := Everything(c, es), Values(Run(c, es).byKey);
    RunKept(c, es);
    var h := LatestIsHeld(c, es, top);
    PickAtLatest(all, top);
    PickAtLatest(held, h);
    FloorMeaning(all);
    FloorMeaning(held);
  }

  /** And the very same document, when only one is at the latest timestamp. */
  lemma PrunedEqualsNaiveIff(c: Config, es: seq<Event>, top: Rules)
    requires IdsDetermine(es)
    requires top in Everything(c, es) && forall r | r in Everything(c, es) && r != top :: r.createdAt < top.createdAt
    ensures Run(c, es).active == Pick(Everything(c, es)) <==> RatchetsKept(c, es, top.createdAt)
  {
    PrunedAgreesIff(c, es, top);
    RunKept(c, es);
    var h := LatestIsHeld(c, es, top);
    PickAtLatest(Everything(c, es), top);
    PickAtLatest(Values(Run(c, es).byKey), h);
    PickMeaning(Everything(c, es));
    PickMeaning(Values(Run(c, es).byKey));
  }

  /** When each ratchet is at or below its own document's timestamp, offers in any order and with any
      repeats leave active a document as late as a picker that keeps everything would pick - the same one
      when timestamps are distinct. */
  lemma PrunedEqualsNaive(c: Config, es: seq<Event>)
    requires IdsDetermine(es)
    requires forall r | r in Everything(c, es) && r.minRulesCreatedAt.Some? :: r.minRulesCreatedAt.value <= r.createdAt
    ensures AsLate(Run(c, es).active, Pick(Everything(c, es)))
    ensures StampsDistinct(Everything(c, es)) ==> Run(c, es).active == Pick(Everything(c, es))
  {
    RunKept(c, es);
    if Everything(c, es) == [] {
      assert Values(Run(c, es).byKey) == [];
    } else {
      var top := LatestExists(Everything(c, es));
      PrunedAgreesIff(c, es, top);
      if StampsDistinct(Everything(c, es)) { PrunedEqualsNaiveIff(c, es, top); }
    }
  }

  /** A ratchet above its own timestamp does not survive its document: after `older`, which
      forbids everything before its ratchet, a newer document of the same key becomes active below it. */
  lemma RatchetLostWithItsDocument(c: Config, older: Event, newer: Event)
    requires older.id != newer.id && Candidate(c, older).Some? && Candidate(c, newer).Some?
    requires var a, b := Candidate(c, older).value, Candidate(c, newer).value;
             && Key(a) == Key(b) && 0 <= a.createdAt < b.createdAt
             && a.minRulesCreatedAt.Some? && a.minRulesCreatedAt.value > b.createdAt
             && b.minRulesCreatedAt == None
    ensures Run(c, [older]).active == None
    ensures Run(c, [older, newer]).active == Candidate(c, newer)
    ensures Pick(Everything(c, [older, newer])) == None
  {
    var a, b := Candidate(c, older).value, Candidate(c, newer).value;
    var all, ba, bb := Everything(c, [older, newer]), Binding(Key(a), a), Binding(Key(b), b);
    TwoOffers(c, older, newer);
    assert Values([ba]) == [a] && Values([bb]) == [b];
    assert [ba][1..] == [] && Put([ba], Key(b), b) == [bb];
    PickOfLatest([a], a);
    PickOfLatest([b], b);
    FloorMeaning([a]);
    FloorMeaning([b]);
    FloorMeaning(all);
    LatestMeaning(all, Floor(all));
  }

  lemma TwoOffers(c: Config, x: Event, y: Event)
    requires Candidate(c, x).Some? && Candidate(c, y).Some?
    ensures Run(c, [x]) == Offered(EMPTY, c, x)
    ensures Run(c, [x, y]) == Offered(Run(c, [x]), c, y)
    ensures Everything(c, [x, y]) == [Candidate(c, x).value, Candidate(c, y).value]
  {
    assert [x][..0] == [] && [x, y][..1] == [x];
    assert Everything(c, [x]) == [] + [Candidate(c, x).value];
  }
}
