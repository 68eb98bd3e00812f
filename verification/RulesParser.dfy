/**
 * The NIP-9B rules parser and the pick of the active document (src/nip9a-parser.js).
 *
 * `parseRulesEvent` is one pass over the tags with a switch on the tag name; here it refines a
 * reference that says, field by field, which tags the field comes from. JavaScript's number parsing
 * is a parameter.
 */
module RulesParser {
  import opened Wrappers

  const NIP9A_KIND := 34551
  const COMMUNITY_PREFIX := "34550:"

  type Tag = seq<string>

  /** A raw event; `tags` is `None` when it is not an array. */
  datatype Event = Event(id: string, pubkey: string, createdAt: int, kind: int, tags: Option<seq<Tag>>)

  datatype KindRule = KindRule(kind: int, maxBytes: Option<int>, maxPerAuthorPerDay: Option<int>)
  datatype Policy = Allow | Deny
  datatype PubkeyRule = PubkeyRule(pubkey: string, policy: Policy, role: Option<string>)
  datatype WotGate = WotGate(root: string, depth: int)

  datatype Rules = Rules(
    id: string,
    pubkey: string,
    createdAt: int,
    dTag: string,
    communityAddress: Option<string>,
    kindRules: seq<KindRule>,
    pubkeyRules: seq<PubkeyRule>,
    wotGates: seq<WotGate>,
    maxEventSize: Option<int>,
    minRulesCreatedAt: Option<int>)

  /** `Number.parseInt(s, 10)` and `Number(s)` on a non-empty string, `None` where not finite. */
  datatype Numbers = Numbers(parseInt: string -> Option<int>, number: string -> Option<int>)

  // ---------- What one tag says ----------

  /** `rest[i]`, or nothing when it is missing or empty. */
  function Arg(t: Tag, i: nat): Option<string> {
    if i + 1 < |t| && t[i + 1] != "" then Some(t[i + 1]) else None
  }

  function Named(t: Tag): string {
    if t == [] then "" else t[0]
  }

  function IntArg(t: Tag, i: nat, parse: string -> Option<int>): Option<int> {
    if Arg(t, i).Some? then parse(Arg(t, i).value) else None
  }

  function LowerChar(c: char): char {
    if 'A' <= c <= 'Z' then c - 'A' + 'a' else c
  }

  function Lower(s: string): string {
    seq(|s|, i requires 0 <= i < |s| => LowerChar(s[i]))
  }

  function DTag(t: Tag): Option<string> {
    if Named(t) == "d" then Arg(t, 0) else None
  }

  function Community(t: Tag): Option<string> {
    if Named(t) == "a" && Arg(t, 0).Some? && COMMUNITY_PREFIX <= Arg(t, 0).value then Arg(t, 0) else None
  }

  function MaxEventSize(t: Tag, n: Numbers): Option<int> {
    if Named(t) == "max_event_size" && IntArg(t, 0, n.parseInt).Some? && IntArg(t, 0, n.parseInt).value > 0
    then IntArg(t, 0, n.parseInt) else None
  }

  function Ratchet(t: Tag, n: Numbers): Option<int> {
    if Named(t) == "min_rules_created_at" && IntArg(t, 0, n.number).Some? && IntArg(t, 0, n.number).value >= 0
    then IntArg(t, 0, n.number) else None
  }

  function KindTag(t: Tag, n: Numbers): Option<KindRule> {
    if Named(t) == "k" && IntArg(t, 0, n.parseInt).Some?
    then Some(KindRule(IntArg(t, 0, n.parseInt).value, IntArg(t, 1, n.parseInt), IntArg(t, 2, n.parseInt)))
    else None
  }

  function PubkeyTag(t: Tag): Option<PubkeyRule> {
    if Named(t) == "p" && |t| > 2 && |t[1]| == 64 && (t[2] == "allow" || t[2] == "deny")
    then Some(PubkeyRule(Lower(t[1]), if t[2] == "deny" then Deny else Allow, Arg(t, 2)))
    else None
  }

  function WotTag(t: Tag, n: Numbers): Option<WotGate> {
    if Named(t) == "wot" && |t| > 1 && |t[1]| == 64 && IntArg(t, 1, n.parseInt).Some? && IntArg(t, 1, n.parseInt).value > 0
    then Some(WotGate(Lower(t[1]), IntArg(t, 1, n.parseInt).value))
    else None
  }

  function KindTags(n: Numbers): Tag -> Option<KindRule> {
    t => KindTag(t, n)
  }

  function WotTags(n: Numbers): Tag -> Option<WotGate> {
    t => WotTag(t, n)
  }

  function SizeTags(n: Numbers): Tag -> Option<int> {
    t => MaxEventSize(t, n)
  }

  function RatchetTags(n: Numbers): Tag -> Option<int> {
    t => Ratchet(t, n)
  }

  // ---------- The reference ----------

  /** What the last tag that says something says. */
  function LastSaid<T>(tags: seq<Tag>, says: Tag -> Option<T>): Option<T> {
    if tags == [] then None
    else
      var last := says(tags[|tags| - 1]);
      if last.Some? then last else LastSaid(tags[..|tags| - 1], says)
  }

  /** Everything the tags say, in tag order. */
  function AllSaid<T>(tags: seq<Tag>, says: Tag -> Option<T>): seq<T> {
    if tags == [] then []
    else
      var last := says(tags[|tags| - 1]);
      AllSaid(tags[..|tags| - 1], says) + if last.Some? then [last.value] else []
  }

  /** The document an event carries: nothing unless it is a rules event with a `d` tag. */
  function Parsed(e: Event, n: Numbers): Option<Rules> {
    if e.kind != NIP9A_KIND || e.tags.None? || LastSaid(e.tags.value, DTag).None? then None
    else
      var f := Said(e.tags.value, n);
      Some(Rules(e.id, e.pubkey, e.createdAt, f.dTag.value, f.communityAddress,
                 f.kindRules, f.pubkeyRules, f.wotGates, f.maxEventSize, f.minRulesCreatedAt))
  }

  // ---------- The single pass ----------

  /** The variables of the pass. */
  datatype Fields = Fields(
    dTag: Option<string>,
    communityAddress: Option<string>,
    kindRules: seq<KindRule>,
    pubkeyRules: seq<PubkeyRule>,
    wotGates: seq<WotGate>,
    maxEventSize: Option<int>,
    minRulesCreatedAt: Option<int>)

  /** What the tags say, field by field. */
  function Said(tags: seq<Tag>, n: Numbers): Fields {
    Fields(LastSaid(tags, DTag), LastSaid(tags, Community), AllSaid(tags, KindTags(n)), AllSaid(tags, PubkeyTag),
           AllSaid(tags, WotTags(n)), LastSaid(tags, SizeTags(n)), LastSaid(tags, RatchetTags(n)))
  }

  function Or<T>(now: Option<T>, was: Option<T>): Option<T> {
    if now.Some? then now else was
  }

  function With<T>(was: seq<T>, now: Option<T>): seq<T> {
    if now.Some? then was + [now.value] else was
  }

  function Absorbed(f: Fields, t: Tag, n: Numbers): Fields {
    Fields(Or(DTag(t), f.dTag), Or(Community(t), f.communityAddress), With(f.kindRules, KindTag(t, n)),
           With(f.pubkeyRules, PubkeyTag(t)), With(f.wotGates, WotTag(t, n)),
           Or(MaxEventSize(t, n), f.maxEventSize), Or(Ratchet(t, n), f.minRulesCreatedAt))
  }

  lemma OneMoreSaid<T>(tags: seq<Tag>, t: Tag, says: Tag -> Option<T>)
    ensures LastSaid(tags + [t], says) == Or(says(t), LastSaid(tags, says))
    ensures AllSaid(tags + [t], says) == With(AllSaid(tags, says), says(t))
  {
    assert (tags + [t])[..|tags|] == tags;
  }

  lemma SaidOneMore(tags: seq<Tag>, t: Tag, n: Numbers)
    ensures Said(tags + [t], n) == Absorbed(Said(tags, n), t, n)
  {
    OneMoreSaid(tags, t, DTag);
    OneMoreSaid(tags, t, Community);
    OneMoreSaid(tags, t, KindTags(n));
    OneMoreSaid(tags, t, PubkeyTag);
    OneMoreSaid(tags, t, WotTags(n));
    OneMoreSaid(tags, t, SizeTags(n));
    OneMoreSaid(tags, t, RatchetTags(n));
  }

  method ParseRulesEvent(e: Event, n: Numbers) returns (r: Option<Rules>)
    ensures r == Parsed(e, n)
  {
    if e.kind != NIP9A_KIND || e.tags.None? { return None; }
    var tags := e.tags.value;
    var f := Fields(None, None, [], [], [], None, None);
    for i := 0 to |tags|
      invariant f == Said(tags[..i], n)
    {
      assert tags[..i + 1] == tags[..i] + [tags[i]];
      SaidOneMore(tags[..i], tags[i], n);
      f := Absorb(f, tags[i], n);
    }
    assert tags[..|tags|] == tags;
    if f.dTag.None? { return None; }
    return Some(Rules(e.id, e.pubkey, e.createdAt, f.dTag.value, f.communityAddress,
                      f.kindRules, f.pubkeyRules, f.wotGates, f.maxEventSize, f.minRulesCreatedAt));
  }

  /** The body of the loop: the switch on the tag's name. */
  method Absorb(was: Fields, tag: Tag, n: Numbers) returns (f: Fields)
    ensures f == Absorbed(was, tag, n)
  {
    f := was;
    TagSays(tag, n);
    NamesDiffer(Named(tag));
    if tag == [] { return; }
    if tag[0] == "d" {
      if Arg(tag, 0).Some? { f := f.(dTag := Arg(tag, 0)); }
    } else if tag[0] == "a" {
      if Arg(tag, 0).Some? && COMMUNITY_PREFIX <= Arg(tag, 0).value { f := f.(communityAddress := Arg(tag, 0)); }
    } else if tag[0] == "k" {
      var kind := IntArg(tag, 0, n.parseInt);
      if kind.Some? {
        f := f.(kindRules := f.kindRules + [KindRule(kind.value, IntArg(tag, 1, n.parseInt), IntArg(tag, 2, n.parseInt))]);
      }
    } else if tag[0] == "p" {
      if |tag| > 2 && |tag[1]| == 64 && (tag[2] == "allow" || tag[2] == "deny") {
        var rule := PubkeyRule(Lower(tag[1]), if tag[2] == "deny" then Deny else Allow, Arg(tag, 2));
        f := f.(pubkeyRules := f.pubkeyRules + [rule]);
      }
    } else if tag[0] == "wot" {
      if |tag| > 1 && |tag[1]| == 64 {
        var depth := IntArg(tag, 1, n.parseInt);
        if depth.Some? && depth.value > 0 { f := f.(wotGates := f.wotGates + [WotGate(Lower(tag[1]), depth.value)]); }
      }
    } else if tag[0] == "max_event_size" {
      var v := IntArg(tag, 0, n.parseInt);
      if v.Some? && v.value > 0 { f := f.(maxEventSize := v); }
    } else if tag[0] == "min_rules_created_at" {
      var v := IntArg(tag, 0, n.number);
      if v.Some? && v.value >= 0 { f := f.(minRulesCreatedAt := v); }
    }
  }

  // ---------- What tags mean ----------

  predicate SaysD(t: Tag) {
    |t| > 1 && t[0] == "d" && t[1] != ""
  }

  lemma {:induction false} LastSaidSome<T>(tags: seq<Tag>, says: Tag -> Option<T>)
    ensures LastSaid(tags, says).Some? <==> exists i | 0 <= i < |tags| :: says(tags[i]).Some?
  {
    if tags != [] {
      var init := tags[..|tags| - 1];
      LastSaidSome(init, says);
      assert forall i | 0 <= i < |init| :: init[i] == tags[i];
    }
  }

  /** An event carries a document exactly when it is of kind 34551 and some `d` tag names one. The document
      is the event's id, author and time, and what its tags say. */
  lemma CarriesIff(e: Event, n: Numbers)
    ensures Parsed(e, n).Some? <==>
      e.kind == 34551 && e.tags.Some? && exists i | 0 <= i < |e.tags.value| :: SaysD(e.tags.value[i])
    ensures Parsed(e, n).Some? ==>
      var r, f := Parsed(e, n).value, Said(e.tags.value, n);
      && r.id == e.id && r.pubkey == e.pubkey && r.createdAt == e.createdAt
      && f == Fields(Some(r.dTag), r.communityAddress, r.kindRules, r.pubkeyRules, r.wotGates, r.maxEventSize, r.minRulesCreatedAt)
  {
    if e.tags.Some? {
      var tags := e.tags.value;
      LastSaidSome(tags, DTag);
      assert forall i | 0 <= i < |tags| :: DTag(tags[i]).Some? <==> SaysD(tags[i]);
    }
  }

  /** The `i`-th field of a tag as a number, if it is there, not empty, and reads as one. */
  function Field(t: Tag, i: nat, parse: string -> Option<int>): Option<int> {
    if i < |t| && t[i] != "" then parse(t[i]) else None
  }

  /** What tags say, tag by tag. No tags say nothing. The last `d`, `a`, `max_event_size` and
      `min_rules_created_at` tag that is well formed counts; well-formed `k`, `p` and `wot` tags add up, in
      order; all else is ignored. */
  lemma TagChangesFields(tags: seq<Tag>, t: Tag, n: Numbers)
    ensures Said([], n) == Fields(None, None, [], [], [], None, None)
    ensures var was := Said(tags, n);
            Said(tags + [t], n) ==
              if |t| < 2 || t[1] == "" then was
              else if t[0] == "d" then was.(dTag := Some(t[1]))
              else if t[0] == "a" && "34550:" <= t[1] then was.(communityAddress := Some(t[1]))
              else if t[0] == "k" && Field(t, 1, n.parseInt).Some? then
                was.(kindRules := was.kindRules +
                  [KindRule(Field(t, 1, n.parseInt).value, Field(t, 2, n.parseInt), Field(t, 3, n.parseInt))])
              else if t[0] == "p" && |t| > 2 && |t[1]| == 64 && (t[2] == "allow" || t[2] == "deny") then
                was.(pubkeyRules := was.pubkeyRules +
                  [PubkeyRule(Lower(t[1]), if t[2] == "deny" then Deny else Allow, if |t| > 3 && t[3] != "" then Some(t[3]) else None)])
              else if t[0] == "wot" && |t[1]| == 64 && Field(t, 2, n.parseInt).Some? && Field(t, 2, n.parseInt).value > 0 then
                was.(wotGates := was.wotGates + [WotGate(Lower(t[1]), Field(t, 2, n.parseInt).value)])
              else if t[0] == "max_event_size" && Field(t, 1, n.parseInt).Some? && Field(t, 1, n.parseInt).value > 0 then
                was.(maxEventSize := Field(t, 1, n.parseInt))
              else if t[0] == "min_rules_created_at" && Field(t, 1, n.number).Some? && Field(t, 1, n.number).value >= 0 then
                was.(minRulesCreatedAt := Field(t, 1, n.number))
              else was
  {
    SaidOneMore(tags, t, n);
    TagSays(t, n);
    NamesDiffer(Named(t));
  }

  /** A tag speaks of at most one field, the one of its name. */
  lemma TagSays(t: Tag, n: Numbers)
    ensures |t| < 2 || t[1] == "" ==>
              && DTag(t).None? && Community(t).None? && KindTag(t, n).None? && PubkeyTag(t).None?
              && WotTag(t, n).None? && MaxEventSize(t, n).None? && Ratchet(t, n).None?
    ensures Named(t) != "d" ==> DTag(t).None?
    ensures Named(t) != "a" ==> Community(t).None?
    ensures Named(t) != "k" ==> KindTag(t, n).None?
    ensures Named(t) != "p" ==> PubkeyTag(t).None?
    ensures Named(t) != "wot" ==> WotTag(t, n).None?
    ensures Named(t) != "max_event_size" ==> MaxEventSize(t, n).None?
    ensures Named(t) != "min_rules_created_at" ==> Ratchet(t, n).None?
    ensures forall i: nat, parse :: IntArg(t, i, parse) == Field(t, i + 1, parse)
  {
  }

  lemma NamesDiffer(name: string)
    ensures name == "d" ==> name != "a" && name != "k" && name != "p"
    ensures name == "a" ==> name != "k" && name != "p"
    ensures name == "k" ==> name != "p"
  {
    assert name == "d" ==> name[0] == 'd';
    assert name == "a" ==> name[0] == 'a';
    assert name == "k" ==> name[0] == 'k';
    assert name == "p" ==> name[0] == 'p';
  }

  /** Lower-casing an ASCII letter adds 32 to its code and leaves every other character alone. */
  lemma LowerMeaning(s: string)
    ensures |Lower(s)| == |s|
    ensures forall i | 0 <= i < |s| ::
              Lower(s)[i] as int == s[i] as int + if 65 <= s[i] as int <= 90 then 32 else 0
  {
  }
}
