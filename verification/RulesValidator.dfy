/**
 * The NIP-9B validator (src/nip9a-validator.js): the first violation of an event, in a fixed order.
 */
module RulesValidator {
  import opened Wrappers
  import opened RulesParser

  datatype Violation =
    | StaleRules | AuthorDenied | KindNotAllowed | KindSizeExceeded
    | MaxSizeExceeded | QuotaExceeded | WotGateFailed

  /** The quota source and the web-of-trust resolver are optional callbacks. */
  datatype Context = Context(
    author: string,
    kind: int,
    sizeBytes: int,
    postsToday: Option<int -> Option<int>>,
    wot: Option<(string, string, int) -> bool>)

  // ---------- The gates, each on its own ----------

  predicate Lists(rules: Rules, author: string, p: Policy) {
    exists r | r in rules.pubkeyRules :: r.pubkey == author && r.policy == p
  }

  predicate Stale(rules: Rules) {
    rules.minRulesCreatedAt.Some? && rules.createdAt < rules.minRulesCreatedAt.value
  }

  /** The index of the first rule for the kind, or the number of rules. */
  function FirstFor(ks: seq<KindRule>, kind: int): (i: nat)
    ensures i <= |ks| && forall j | 0 <= j < i :: ks[j].kind != kind
    ensures i < |ks| ==> ks[i].kind == kind
  {
    if ks == [] || ks[0].kind == kind then 0 else 1 + FirstFor(ks[1..], kind)
  }

  predicate KindAllowed(rules: Rules, ctx: Context) {
    exists k | k in rules.kindRules :: k.kind == ctx.kind
  }

  function RuleFor(rules: Rules, ctx: Context): KindRule
    requires KindAllowed(rules, ctx)
  {
    rules.kindRules[FirstFor(rules.kindRules, ctx.kind)]
  }

  predicate Within(size: int, cap: Option<int>) {
    cap.Some? ==> size <= cap.value
  }

  predicate UnderQuota(k: KindRule, ctx: Context) {
    k.maxPerAuthorPerDay.Some? && ctx.postsToday.Some? && ctx.postsToday.value(ctx.kind).Some? ==>
      ctx.postsToday.value(ctx.kind).value < k.maxPerAuthorPerDay.value
  }

  predicate Trusted(rules: Rules, ctx: Context) {
    Lists(rules, ctx.author, Allow) || rules.wotGates == [] || ctx.wot.None?
    || exists g | g in rules.wotGates :: ctx.wot.value(ctx.author, g.root, g.depth)
  }

  // ---------- The code ----------

  method PolicyFor(rules: Rules, pubkey: string) returns (p: Option<Policy>)
    ensures p == Some(Deny) <==> Lists(rules, pubkey, Deny)
    ensures p == Some(Allow) <==> Lists(rules, pubkey, Allow) && !Lists(rules, pubkey, Deny)
  {
    p := None;
    for i := 0 to |rules.pubkeyRules|
      invariant p.Some? ==> p.value.Allow?
      invariant forall j | 0 <= j < i :: rules.pubkeyRules[j].pubkey == pubkey ==> rules.pubkeyRules[j].policy.Allow?
      invariant forall j | 0 <= j < i :: p.None? ==> rules.pubkeyRules[j].pubkey != pubkey
      invariant p.Some? ==> Lists(rules, pubkey, Allow)
    {
      var rule := rules.pubkeyRules[i];
      assert rule in rules.pubkeyRules;
      if rule.pubkey != pubkey { continue; }
      if rule.policy.Deny? { return Some(Deny); }
      p := Some(Allow);
    }
  }

  method RuleForKind(rules: Rules, kind: int) returns (k: Option<KindRule>)
    ensures k == if FirstFor(rules.kindRules, kind) < |rules.kindRules|
                 then Some(rules.kindRules[FirstFor(rules.kindRules, kind)]) else None
  {
    for i := 0 to |rules.kindRules|
      invariant forall j | 0 <= j < i :: rules.kindRules[j].kind != kind
    {
      if rules.kindRules[i].kind == kind { return Some(rules.kindRules[i]); }
    }
    return None;
  }

  /** No violation exactly when every gate is passed; otherwise the first gate that fails, in order. */
  method Validate(rules: Rules, ctx: Context) returns (v: Option<Violation>)
    ensures v == Verdict(rules, ctx)
  {
    if rules.minRulesCreatedAt.Some? && rules.createdAt < rules.minRulesCreatedAt.value {
      return Some(StaleRules);
    }
    var policy := PolicyFor(rules, ctx.author);
    if policy == Some(Deny) { return Some(AuthorDenied); }
    var k := RuleForKind(rules, ctx.kind);
    if k.None? { return Some(KindNotAllowed); }
    var kindRule := k.value;
    assert rules.kindRules[FirstFor(rules.kindRules, ctx.kind)] in rules.kindRules;
    if kindRule.maxBytes.Some? && ctx.sizeBytes > kindRule.maxBytes.value { return Some(KindSizeExceeded); }
    if rules.maxEventSize.Some? && ctx.sizeBytes > rules.maxEventSize.value { return Some(MaxSizeExceeded); }
    if kindRule.maxPerAuthorPerDay.Some? && ctx.postsToday.Some? {
      var count := ctx.postsToday.value(ctx.kind);
      if count.Some? && count.value >= kindRule.maxPerAuthorPerDay.value { return Some(QuotaExceeded); }
    }
    if policy != Some(Allow) && |rules.wotGates| > 0 && ctx.wot.Some? {
      var anyPass := false;
      for i := 0 to |rules.wotGates|
        invariant !anyPass
        invariant forall j | 0 <= j < i :: !ctx.wot.value(ctx.author, rules.wotGates[j].root, rules.wotGates[j].depth)
      {
        if ctx.wot.value(ctx.author, rules.wotGates[i].root, rules.wotGates[i].depth) {
          anyPass := true;
          break;
        }
      }
      if !anyPass { return Some(WotGateFailed); }
    }
    return None;
  }

  /** The first gate that fails, in the source's order. */
  function Verdict(rules: Rules, ctx: Context): Option<Violation> {
    if Stale(rules) then Some(StaleRules)
    else if Lists(rules, ctx.author, Deny) then Some(AuthorDenied)
    else if !KindAllowed(rules, ctx) then Some(KindNotAllowed)
    else if !Within(ctx.sizeBytes, RuleFor(rules, ctx).maxBytes) then Some(KindSizeExceeded)
    else if !Within(ctx.sizeBytes, rules.maxEventSize) then Some(MaxSizeExceeded)
    else if !UnderQuota(RuleFor(rules, ctx), ctx) then Some(QuotaExceeded)
    else if !Trusted(rules, ctx) then Some(WotGateFailed)
    else None
  }

  // ---------- What a verdict depends on ----------

  /** Rules that list an author alike judge the author's events alike. */
  lemma ListedAlike(rules: Rules, ps: seq<PubkeyRule>, ctx: Context)
    requires forall p: Policy :: Lists(rules.(pubkeyRules := ps), ctx.author, p) <==> Lists(rules, ctx.author, p)
    ensures Verdict(rules.(pubkeyRules := ps), ctx) == Verdict(rules, ctx)
  {
  }

  /** The order of the `p` tags does not matter. */
  lemma DenyWinsInAnyOrder(rules: Rules, ps: seq<PubkeyRule>, ctx: Context)
    requires multiset(ps) == multiset(rules.pubkeyRules)
    ensures Verdict(rules.(pubkeyRules := ps), ctx) == Verdict(rules, ctx)
    ensures Lists(rules, ctx.author, Deny) ==> Verdict(rules.(pubkeyRules := ps), ctx).Some?
  {
    forall r ensures r in ps <==> r in rules.pubkeyRules {
      assert r in multiset(ps) <==> r in multiset(rules.pubkeyRules);
    }
    ListedAlike(rules, ps, ctx);
  }

  /** One more `p` tag, anywhere among the others. */
  function WithTag(rules: Rules, i: nat, tag: PubkeyRule): Rules
    requires i <= |rules.pubkeyRules|
  {
    rules.(pubkeyRules := rules.pubkeyRules[..i] + [tag] + rules.pubkeyRules[i..])
  }

  lemma WithTagLists(rules: Rules, i: nat, tag: PubkeyRule, author: string, p: Policy)
    requires i <= |rules.pubkeyRules|
    ensures Lists(WithTag(rules, i, tag), author, p)
       <==> Lists(rules, author, p) || (tag.pubkey == author && tag.policy == p)
  {
    var ps, was := WithTag(rules, i, tag).pubkeyRules, rules.pubkeyRules;
    assert was == was[..i] + was[i..];
    assert forall r :: r in ps <==> r in was || r == tag;
  }

  /** What one more `p` tag changes. A tag for another author changes nothing. A deny turns every verdict
      into a denial, unless the rules are stale anyway. An allow lifts a failed web-of-trust gate and
      nothing else: it neither undoes a deny nor opens another kind, size or quota. */
  lemma TagChangesVerdict(rules: Rules, i: nat, tag: PubkeyRule, ctx: Context)
    requires i <= |rules.pubkeyRules|
    ensures var was := Verdict(rules, ctx);
            Verdict(WithTag(rules, i, tag), ctx) ==
              if tag.pubkey != ctx.author || was == Some(StaleRules) then was
              else if tag.policy.Deny? then Some(AuthorDenied)
              else if was == Some(WotGateFailed) then None
              else was
  {
    WithTagLists(rules, i, tag, ctx.author, Deny);
    WithTagLists(rules, i, tag, ctx.author, Allow);
    if tag.pubkey != ctx.author {
      forall p: Policy ensures Lists(WithTag(rules, i, tag), ctx.author, p) <==> Lists(rules, ctx.author, p) {
        WithTagLists(rules, i, tag, ctx.author, p);
      }
      ListedAlike(rules, WithTag(rules, i, tag).pubkeyRules, ctx);
    }
  }

  /** A smaller event of the same author and kind meets no new gate: if accepted it stays so, and a verdict
      that is not about size stays the same. */
  lemma SmallerIsNoWorse(rules: Rules, ctx: Context, size: int)
    requires size <= ctx.sizeBytes
    ensures var was, now := Verdict(rules, ctx), Verdict(rules, ctx.(sizeBytes := size));
            && (was.None? ==> now.None?)
            && (was != Some(KindSizeExceeded) && was != Some(MaxSizeExceeded) ==> now == was)
  {
    var smaller := ctx.(sizeBytes := size);
    assert KindAllowed(rules, smaller) <==> KindAllowed(rules, ctx);
    assert Trusted(rules, smaller) <==> Trusted(rules, ctx);
  }

  // ---------- The gates over the document's fields ----------

  predicate FirstRule(rules: Rules, kind: int, i: int) {
    0 <= i < |rules.kindRules| && rules.kindRules[i].kind == kind
    && forall j | 0 <= j < i :: rules.kindRules[j].kind != kind
  }

  ghost predicate Fails(rules: Rules, ctx: Context, v: Violation) {
    match v
    case StaleRules => exists m :: rules.minRulesCreatedAt == Some(m) && rules.createdAt < m
    case AuthorDenied => exists i | 0 <= i < |rules.pubkeyRules| ::
        rules.pubkeyRules[i].pubkey == ctx.author && rules.pubkeyRules[i].policy.Deny?
    case KindNotAllowed => forall i | 0 <= i < |rules.kindRules| :: rules.kindRules[i].kind != ctx.kind
    case KindSizeExceeded => exists i | FirstRule(rules, ctx.kind, i) ::
        rules.kindRules[i].maxBytes.Some? && ctx.sizeBytes > rules.kindRules[i].maxBytes.value
    case MaxSizeExceeded => exists m :: rules.maxEventSize == Some(m) && ctx.sizeBytes > m
    case QuotaExceeded => exists i | FirstRule(rules, ctx.kind, i) ::
        && rules.kindRules[i].maxPerAuthorPerDay.Some? && ctx.postsToday.Some? && ctx.postsToday.value(ctx.kind).Some?
        && ctx.postsToday.value(ctx.kind).value >= rules.kindRules[i].maxPerAuthorPerDay.value
    case WotGateFailed =>
      && |rules.wotGates| > 0 && ctx.wot.Some?
      && (forall i | 0 <= i < |rules.pubkeyRules| ::
            !(rules.pubkeyRules[i].pubkey == ctx.author && rules.pubkeyRules[i].policy.Allow?))
      && forall i | 0 <= i < |rules.wotGates| :: !ctx.wot.value(ctx.author, rules.wotGates[i].root, rules.wotGates[i].depth)
  }

  /** The order of the gates. */
  function Rank(v: Violation): nat {
    match v
    case StaleRules => 1
    case AuthorDenied => 2
    case KindNotAllowed => 3
    case KindSizeExceeded => 4
    case MaxSizeExceeded => 5
    case QuotaExceeded => 6
    case WotGateFailed => 7
  }

  lemma ListsMeaning(rules: Rules, author: string, p: Policy)
    ensures Lists(rules, author, p) <==>
      exists i | 0 <= i < |rules.pubkeyRules| :: rules.pubkeyRules[i].pubkey == author && rules.pubkeyRules[i].policy == p
  {
    if Lists(rules, author, p) {
      var r :| r in rules.pubkeyRules && r.pubkey == author && r.policy == p;
      var i :| 0 <= i < |rules.pubkeyRules| && rules.pubkeyRules[i] == r;
    }
  }

  lemma KindMeaning(rules: Rules, ctx: Context)
    ensures KindAllowed(rules, ctx) <==> !Fails(rules, ctx, KindNotAllowed)
    ensures KindAllowed(rules, ctx) ==>
              forall i :: FirstRule(rules, ctx.kind, i) <==> i == FirstFor(rules.kindRules, ctx.kind)
    ensures KindAllowed(rules, ctx) ==> FirstFor(rules.kindRules, ctx.kind) < |rules.kindRules|
  {
    if KindAllowed(rules, ctx) {
      var k :| k in rules.kindRules && k.kind == ctx.kind;
      var i :| 0 <= i < |rules.kindRules| && rules.kindRules[i] == k;
      assert FirstFor(rules.kindRules, ctx.kind) <= i;
    }
    if i :| 0 <= i < |rules.kindRules| && rules.kindRules[i].kind == ctx.kind {
      assert rules.kindRules[i] in rules.kindRules;
    }
  }

  lemma TrustMeaning(rules: Rules, ctx: Context)
    ensures Trusted(rules, ctx) <==> !Fails(rules, ctx, WotGateFailed)
  {
    ListsMeaning(rules, ctx.author, Allow);
    if ctx.wot.Some? {
      if g :| g in rules.wotGates && ctx.wot.value(ctx.author, g.root, g.depth) {
        var i :| 0 <= i < |rules.wotGates| && rules.wotGates[i] == g;
      }
      if i :| 0 <= i < |rules.wotGates| && ctx.wot.value(ctx.author, rules.wotGates[i].root, rules.wotGates[i].depth) {
        assert rules.wotGates[i] in rules.wotGates;
      }
    }
  }

  /** The verdict is the violation of the first gate that fails, over the document's own fields; there is
      none exactly when no gate fails. */
  lemma VerdictMeaning(rules: Rules, ctx: Context)
    ensures var v := Verdict(rules, ctx);
            && (v.Some? ==> Fails(rules, ctx, v.value) && forall u | Rank(u) < Rank(v.value) :: !Fails(rules, ctx, u))
            && (v.None? ==> forall u: Violation :: !Fails(rules, ctx, u))
  {
    ListsMeaning(rules, ctx.author, Deny);
    KindMeaning(rules, ctx);
    TrustMeaning(rules, ctx);
    assert Stale(rules) <==> Fails(rules, ctx, StaleRules);
    assert Within(ctx.sizeBytes, rules.maxEventSize) <==> !Fails(rules, ctx, MaxSizeExceeded);
    if KindAllowed(rules, ctx) {
      assert FirstRule(rules, ctx.kind, FirstFor(rules.kindRules, ctx.kind));
      assert Within(ctx.sizeBytes, RuleFor(rules, ctx).maxBytes) <==> !Fails(rules, ctx, KindSizeExceeded);
      assert UnderQuota(RuleFor(rules, ctx), ctx) <==> !Fails(rules, ctx, QuotaExceeded);
    }
  }
}
