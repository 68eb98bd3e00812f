/**
 * `selectNameRowFromHistory` (src/electrumx.js): from a name's transaction history to its current row.
 * The transaction fetcher is a parameter: a failed fetch is `None`, a transaction is the list of its
 * output scripts (`None` for an output without one).
 */
module NameSelection {
  import opened Wrappers
  import opened NameScript

  const NAME_EXPIRE_DEPTH := 36000
  const MAX_HISTORY_WALK := 32

  /** One item of the history as the server sent it; a missing or mistyped field is `None`. */
  datatype RawEntry = Junk | Raw(txHash: Option<string>, height: Option<int>)

  datatype Entry = Entry(txHash: string, height: int)

  type Tx = seq<Option<Bytes>>
  type Fetcher = string -> Option<Tx>

  /** The question: the name's bytes, the chain tip if known, and the confirmations demanded. */
  datatype Query = Query(name: Bytes, tip: Option<int>, minConfirmations: Option<int>)

  datatype Selection =
    | NoRow
    | Expired
    | Row(row: NameRow, txHash: string, height: int, expiresIn: Option<int>)

  function MinConf(q: Query): nat {
    match q.minConfirmations
    case None => 1
    case Some(m) => if m > 0 then m else 0
  }

  /** Confirmed, and with enough confirmations where the tip is known. */
  function Eligible(q: Query, h: RawEntry): Option<Entry> {
    if h.Junk? || h.txHash.None? || h.height.None? || h.height.value <= 0 then None
    else if q.tip.Some? && MinConf(q) > 0 && q.tip.value - h.height.value + 1 < MinConf(q) then None
    else Some(Entry(h.txHash.value, h.height.value))
  }

  function Filtered(q: Query, history: seq<RawEntry>): seq<Entry> {
    if history == [] then []
    else
      var e := Eligible(q, history[|history| - 1]);
      Filtered(q, history[..|history| - 1]) + if e.Some? then [e.value] else []
  }

  // ---------- The library's stable sort, newest first ----------

  function Insert(sorted: seq<Entry>, e: Entry): seq<Entry> {
    if sorted == [] then [e]
    else
      var init, last := sorted[..|sorted| - 1], sorted[|sorted| - 1];
      if last.height >= e.height then sorted + [e] else Insert(init, e) + [last]
  }

  function Newest(entries: seq<Entry>): seq<Entry> {
    if entries == [] then [] else Insert(Newest(entries[..|entries| - 1]), entries[|entries| - 1])
  }

  // ---------- The walk ----------

  /** The first output that parses as a name script for the expected name. */
  function NameIn(tx: Tx, name: Bytes): Option<NameRow> {
    if tx == [] then None
    else
      var parsed := if tx[0].Some? then ParseNameScript(tx[0].value) else None;
      if parsed.Some? && parsed.value.name == name then parsed else NameIn(tx[1..], name)
  }

  /** An output that is a script for the name. */
  predicate Names(out: Option<Bytes>, name: Bytes) {
    out.Some? && ParseNameScript(out.value).Some? && ParseNameScript(out.value).value.name == name
  }

  /** The row of the first output for the name, or nothing when there is none at any place. */
  ghost predicate IsNameRow(tx: Tx, name: Bytes, row: Option<NameRow>) {
    match row
    case None => forall i | 0 <= i < |tx| :: !Names(tx[i], name)
    case Some(_) => exists i | 0 <= i < |tx| ::
        Names(tx[i], name) && row == ParseNameScript(tx[i].value) && forall j | 0 <= j < i :: !Names(tx[j], name)
  }

  lemma {:induction false} NameInMeaning(tx: Tx, name: Bytes)
    ensures IsNameRow(tx, name, NameIn(tx, name))
  {
    if tx != [] && !Names(tx[0], name) {
      var rest := tx[1..];
      NameInMeaning(rest, name);
      assert forall i | 0 < i < |tx| :: tx[i] == rest[i - 1];
      if NameIn(rest, name).Some? {
        var i :| 0 <= i < |rest| && Names(rest[i], name) && NameIn(rest, name) == ParseNameScript(rest[i].value)
                 && forall j | 0 <= j < i :: !Names(rest[j], name);
        assert tx[i + 1] == rest[i];
      }
    }
  }

  /** The entry's transaction can be fetched and has an output for the name, at any place. */
  ghost predicate Matches(q: Query, fetch: Fetcher, e: Entry) {
    var tx := fetch(e.txHash);
    tx.Some? && exists i | 0 <= i < |tx.value| :: Names(tx.value[i], q.name)
  }

  function Match(q: Query, fetch: Fetcher, e: Entry): Option<NameRow> {
    var tx := fetch(e.txHash);
    if tx.None? then None else NameIn(tx.value, q.name)
  }

  lemma MatchMeaning(q: Query, fetch: Fetcher, e: Entry)
    ensures Match(q, fetch, e).Some? <==> Matches(q, fetch, e)
    ensures Match(q, fetch, e).Some? ==> IsNameRow(fetch(e.txHash).value, q.name, Match(q, fetch, e))
  {
    if fetch(e.txHash).Some? { NameInMeaning(fetch(e.txHash).value, q.name); }
  }

  /** The index of the first match, or the number of entries. */
  function FirstMatch(q: Query, fetch: Fetcher, es: seq<Entry>): (i: nat)
    ensures i <= |es| && forall j | 0 <= j < i :: Match(q, fetch, es[j]).None?
    ensures i < |es| ==> Match(q, fetch, es[i]).Some?
  {
    if es == [] || Match(q, fetch, es[0]).Some? then 0 else 1 + FirstMatch(q, fetch, es[1..])
  }

  function Walked(es: seq<Entry>): seq<Entry> {
    if |es| > MAX_HISTORY_WALK then es[..MAX_HISTORY_WALK] else es
  }

  predicate PastExpiry(q: Query, height: int) {
    q.tip.Some? && q.tip.value - height >= NAME_EXPIRE_DEPTH
  }

  function Select(q: Query, history: seq<RawEntry>, fetch: Fetcher): Selection {
    var walk := Walked(Newest(Filtered(q, history)));
    var i := FirstMatch(q, fetch, walk);
    if i == |walk| then NoRow
    else if PastExpiry(q, walk[i].height) then Expired
    else
      Row(Match(q, fetch, walk[i]).value, walk[i].txHash, walk[i].height,
          if q.tip.Some? then Some(NAME_EXPIRE_DEPTH - (q.tip.value - walk[i].height)) else None)
  }

  // ---------- The code ----------

  method ParseNameFromTx(tx: Tx, expected: Bytes) returns (row: Option<NameRow>)
    ensures row == NameIn(tx, expected) && IsNameRow(tx, expected, row)
  {
    NameInMeaning(tx, expected);
    for i := 0 to |tx|
      invariant NameIn(tx, expected) == NameIn(tx[i..], expected)
    {
      assert tx[i..][1..] == tx[i + 1..];
      if tx[i].None? { continue; }
      var parsed := ParseNameScript(tx[i].value);
      if parsed.None? { continue; }
      if parsed.value.name == expected { return parsed; }
    }
    return None;
  }

  /** The filter loop. */
  method FilterHistory(q: Query, history: seq<RawEntry>) returns (filtered: seq<Entry>)
    ensures filtered == Filtered(q, history)
  {
    var minConf := if q.minConfirmations.None? then 1
                   else if q.minConfirmations.value > 0 then q.minConfirmations.value else 0;
    filtered := [];
    for i := 0 to |history|
      invariant filtered == Filtered(q, history[..i])
    {
      assert history[..i + 1][..i] == history[..i];
      var h := history[i];
      if h.Junk? || h.txHash.None? { continue; }
      var ht := if h.height.Some? then h.height.value else 0;
      if ht <= 0 { continue; }
      if q.tip.Some? && minConf > 0 {
        var conf := (q.tip.value - ht) + 1;
        if conf < minConf { continue; }
      }
      filtered := filtered + [Entry(h.txHash.value, ht)];
    }
    assert history[..|history|] == history;
  }

  lemma FirstMatchIs(q: Query, fetch: Fetcher, es: seq<Entry>, i: nat)
    requires i <= |es| && forall j | 0 <= j < i :: Match(q, fetch, es[j]).None?
    requires i < |es| ==> Match(q, fetch, es[i]).Some?
    ensures FirstMatch(q, fetch, es) == i
  {
  }

  /** The walk: the index of the first match, and the hashes fetched on the way, in order. */
  method Walk(q: Query, walk: seq<Entry>, fetch: Fetcher)
    returns (i: nat, row: Option<NameRow>, fetched: seq<string>)
    ensures i == FirstMatch(q, fetch, walk) && row == (if i < |walk| then Match(q, fetch, walk[i]) else None)
    ensures |fetched| == (if i < |walk| then i + 1 else i)
    ensures forall j | 0 <= j < |fetched| :: fetched[j] == walk[j].txHash
  {
    i, row, fetched := 0, None, [];
    while i < |walk|
      invariant i <= |walk| && |fetched| == i && row == None
      invariant forall j | 0 <= j < i :: fetched[j] == walk[j].txHash
      invariant forall j | 0 <= j < i :: Match(q, fetch, walk[j]).None?
    {
      var tx := fetch(walk[i].txHash);
      fetched := fetched + [walk[i].txHash];
      if tx.Some? {
        row := ParseNameFromTx(tx.value, q.name);
        assert row == Match(q, fetch, walk[i]);
        if row.Some? { break; }
      }
      i := i + 1;
    }
    FirstMatchIs(q, fetch, walk, i);
  }

  /** Also returns the hashes it fetched, in order. */
  method SelectNameRowFromHistory(q: Query, history: seq<RawEntry>, fetch: Fetcher)
    returns (result: Selection, fetched: seq<string>)
    ensures result == Select(q, history, fetch)
    ensures |fetched| <= 32 && |fetched| <= |Newest(Filtered(q, history))|
    ensures forall j | 0 <= j < |fetched| :: fetched[j] == Newest(Filtered(q, history))[j].txHash
  {
    fetched := [];
    if |history| == 0 { return NoRow, fetched; }
    var filtered := FilterHistory(q, history);
    if |filtered| == 0 { return NoRow, fetched; }
    var sorted := Newest(filtered);
    NewestLength(filtered);
    var walk := if |sorted| > MAX_HISTORY_WALK then sorted[..MAX_HISTORY_WALK] else sorted;
    assert walk == Walked(sorted);
    var i, row;
    i, row, fetched := Walk(q, walk, fetch);
    if row.None? { return NoRow, fetched; }
    var entry := walk[i];
    if q.tip.Some? && q.tip.value - entry.height >= NAME_EXPIRE_DEPTH { return Expired, fetched; }
    return Row(row.value, entry.txHash, entry.height,
               if q.tip.Some? then Some(NAME_EXPIRE_DEPTH - (q.tip.value - entry.height)) else None), fetched;
  }

  // ---------- What the sort does ----------

  ghost predicate Descending(es: seq<Entry>) {
    forall i, j | 0 <= i < j < |es| :: es[i].height >= es[j].height
  }

  function AtHeight(es: seq<Entry>, h: int): seq<Entry> {
    if es == [] then []
    else AtHeight(es[..|es| - 1], h) + if es[|es| - 1].height == h then [es[|es| - 1]] else []
  }

  /** How many of the first `k` entries are at least as high as `h`. */
  function CountIn(es: seq<Entry>, k: nat, h: int): nat
    requires k <= |es|
  {
    if k == 0 then 0 else CountIn(es, k - 1, h) + if es[k - 1].height >= h then 1 else 0
  }

  function CountAtLeast(es: seq<Entry>, h: int): nat {
    CountIn(es, |es|, h)
  }

  lemma {:induction false} CountInPrefix(es: seq<Entry>, more: seq<Entry>, k: nat, h: int)
    requires k <= |es|
    ensures CountIn(es + more, k, h) == CountIn(es, k, h)
  {
    if k > 0 { CountInPrefix(es, more, k - 1, h); }
  }

  lemma CountOneMore(init: seq<Entry>, last: Entry, h: int)
    ensures CountAtLeast(init + [last], h) == CountAtLeast(init, h) + if last.height >= h then 1 else 0
  {
    CountInPrefix(init, [last], |init|, h);
  }

  lemma {:induction false} InsertLength(s: seq<Entry>, e: Entry)
    ensures |Insert(s, e)| == |s| + 1
  {
    if s != [] { InsertLength(s[..|s| - 1], e); }
  }

  lemma {:induction false} NewestLength(es: seq<Entry>)
    ensures |Newest(es)| == |es|
  {
    if es != [] {
      NewestLength(es[..|es| - 1]);
      InsertLength(Newest(es[..|es| - 1]), es[|es| - 1]);
    }
  }

  lemma {:induction false} InsertBounded(s: seq<Entry>, e: Entry, h: int)
    requires e.height >= h && forall i | 0 <= i < |s| :: s[i].height >= h
    ensures forall i | 0 <= i < |Insert(s, e)| :: Insert(s, e)[i].height >= h
  {
    if s != [] { InsertBounded(s[..|s| - 1], e, h); }
  }

  lemma {:induction false} InsertSorts(s: seq<Entry>, e: Entry)
    requires Descending(s)
    ensures Descending(Insert(s, e))
  {
    if s != [] && s[|s| - 1].height < e.height {
      InsertSorts(s[..|s| - 1], e);
      InsertBounded(s[..|s| - 1], e, s[|s| - 1].height);
    }
  }

  lemma {:induction false} InsertPermutes(s: seq<Entry>, e: Entry)
    ensures multiset(Insert(s, e)) == multiset(s) + multiset{e}
  {
    if s != [] {
      InsertPermutes(s[..|s| - 1], e);
      assert s == s[..|s| - 1] + [s[|s| - 1]];
    }
  }

  lemma {:induction false} NewestSorts(es: seq<Entry>)
    ensures Descending(Newest(es))
  {
    if es != [] {
      NewestSorts(es[..|es| - 1]);
      InsertSorts(Newest(es[..|es| - 1]), es[|es| - 1]);
    }
  }

  lemma InsertKept(sorted: seq<Entry>, init: seq<Entry>, last: Entry)
    requires multiset(sorted) == multiset(init)
    ensures multiset(Insert(sorted, last)) == multiset(init + [last])
  {
    InsertPermutes(sorted, last);
  }

  lemma {:induction false} NewestKeepsAll(es: seq<Entry>)
    ensures multiset(Newest(es)) == multiset(es)
  {
    if es != [] {
      var init, last := es[..|es| - 1], es[|es| - 1];
      var sorted := Newest(init);
      NewestKeepsAll(init);
      InsertKept(sorted, init, last);
      assert init + [last] == es;
    }
  }

  /** The sort is a permutation of its input, newest first. */
  lemma NewestPermutes(es: seq<Entry>)
    ensures Descending(Newest(es)) && multiset(Newest(es)) == multiset(es)
  {
    NewestSorts(es);
    NewestKeepsAll(es);
  }

  /** Every entry has a place in the sorted list, and every place holds one of the entries. */
  lemma Placed(es: seq<Entry>, e: Entry)
    ensures e in es <==> e in Newest(es)
  {
    NewestPermutes(es);
    assert e in es <==> e in multiset(es);
    assert e in Newest(es) <==> e in multiset(Newest(es));
  }

  lemma {:induction false} InsertStable(s: seq<Entry>, e: Entry, h: int)
    requires Descending(s)
    ensures AtHeight(Insert(s, e), h) == AtHeight(s, h) + if e.height == h then [e] else []
  {
    if s != [] {
      var init, last := s[..|s| - 1], s[|s| - 1];
      if last.height < e.height {
        InsertStable(init, e, h);
        assert Insert(s, e)[..|Insert(s, e)| - 1] == Insert(init, e);
        assert AtHeight(init, h) + [] == AtHeight(init, h);
      } else {
        assert Insert(s, e)[..|s|] == s;
      }
    }
  }

  lemma {:induction false} InsertCounts(s: seq<Entry>, e: Entry, h: int)
    ensures CountAtLeast(Insert(s, e), h) == CountAtLeast(s, h) + if e.height >= h then 1 else 0
  {
    if s == [] || s[|s| - 1].height >= e.height {
      CountOneMore(s, e, h);
      assert [] + [e] == [e];
    } else {
      var init, last := s[..|s| - 1], s[|s| - 1];
      assert init + [last] == s;
      InsertCounts(init, e, h);
      CountOneMore(init, last, h);
      CountOneMore(Insert(init, e), last, h);
    }
  }

  /** The sort is stable: entries of equal height keep their history order. */
  lemma {:induction false} NewestStable(es: seq<Entry>, h: int)
    ensures AtHeight(Newest(es), h) == AtHeight(es, h)
  {
    if es != [] {
      NewestStable(es[..|es| - 1], h);
      NewestSorts(es[..|es| - 1]);
      InsertStable(Newest(es[..|es| - 1]), es[|es| - 1], h);
    }
  }

  lemma {:induction false} NewestCounts(es: seq<Entry>, h: int)
    ensures CountAtLeast(Newest(es), h) == CountAtLeast(es, h)
  {
    if es != [] {
      var init, last := es[..|es| - 1], es[|es| - 1];
      assert init + [last] == es;
      NewestCounts(init, h);
      InsertCounts(Newest(init), last, h);
      CountOneMore(init, last, h);
    }
  }

  lemma {:induction false} CountGrows(es: seq<Entry>, k: nat, h: int, h': int)
    requires h' <= h && k <= |es|
    ensures CountIn(es, k, h') >= CountIn(es, k, h)
  {
    if k > 0 { CountGrows(es, k - 1, h, h'); }
  }

  // ---------- Where the sort puts an entry ----------

  /** How many of the first `k` entries are of height `h`. */
  function Earlier(es: seq<Entry>, k: nat, h: int): nat
    requires k <= |es|
  {
    if k == 0 then 0 else Earlier(es, k - 1, h) + if es[k - 1].height == h then 1 else 0
  }

  /** How many entries come before the `k`-th one, newest first: the higher ones, and those of its height
      that the history lists earlier. */
  function Ahead(es: seq<Entry>, k: nat): nat
    requires k < |es|
  {
    CountAtLeast(es, es[k].height + 1) + Earlier(es, k, es[k].height)
  }

  lemma {:induction false} EarlierInPrefix(es: seq<Entry>, more: seq<Entry>, k: nat, h: int)
    requires k <= |es|
    ensures Earlier(es + more, k, h) == Earlier(es, k, h)
  {
    if k > 0 { EarlierInPrefix(es, more, k - 1, h); }
  }

  lemma {:induction false} CountAtMost(es: seq<Entry>, k: nat, h: int)
    requires k <= |es|
    ensures CountIn(es, k, h) <= k
  {
    if k > 0 { CountAtMost(es, k - 1, h); }
  }

  lemma {:induction false} CountSplits(es: seq<Entry>, k: nat, h: int)
    requires k <= |es|
    ensures CountIn(es, k, h) == CountIn(es, k, h + 1) + Earlier(es, k, h)
  {
    if k > 0 { CountSplits(es, k - 1, h); }
  }

  lemma {:induction false} HighIn(s: seq<Entry>, k: nat, h: int, i: nat)
    requires Descending(s) && i < k <= |s|
    ensures s[i].height >= h <==> i < CountIn(s, k, h)
  {
    CountAtMost(s, k - 1, h);
    if i < k - 1 {
      HighIn(s, k - 1, h, i);
    } else if i > 0 {
      HighIn(s, k - 1, h, i - 1);
    }
  }

  /** In a sorted list the entries as high as `h` are the first ones. */
  lemma HighFirst(s: seq<Entry>, h: int, i: nat)
    requires Descending(s) && i < |s|
    ensures s[i].height >= h <==> i < CountAtLeast(s, h)
  {
    HighIn(s, |s|, h, i);
  }

  /** An insertion goes behind everything as high. */
  lemma {:induction false} InsertBehind(s: seq<Entry>, e: Entry, p: nat)
    requires p <= |s|
    requires forall i | 0 <= i < |s| :: s[i].height >= e.height <==> i < p
    ensures Insert(s, e) == s[..p] + [e] + s[p..]
  {
    if p == |s| {
      assert s[..p] == s && s[p..] == [];
    } else {
      var init, last := s[..|s| - 1], s[|s| - 1];
      InsertBehind(init, e, p);
      Rejoin(init, last, p, e);
      assert init + [last] == s;
    }
  }

  lemma InsertAt(s: seq<Entry>, e: Entry)
    requires Descending(s)
    ensures var p := CountAtLeast(s, e.height);
            p <= |s| && Insert(s, e) == s[..p] + [e] + s[p..]
  {
    CountAtMost(s, |s|, e.height);
    forall i | 0 <= i < |s| ensures s[i].height >= e.height <==> i < CountAtLeast(s, e.height) {
      HighFirst(s, e.height, i);
    }
    InsertBehind(s, e, CountAtLeast(s, e.height));
  }

  lemma Rejoin(init: seq<Entry>, last: Entry, p: nat, e: Entry)
    requires p <= |init|
    ensures init[..p] + [e] + init[p..] + [last] == (init + [last])[..p] + [e] + (init + [last])[p..]
  {
  }

  /** One entry more in the history: the others move back by one if they are lower, and it goes behind
      everything as high. */
  lemma AheadGrows(init: seq<Entry>, last: Entry, k: nat)
    requires k <= |init|
    ensures Ahead(init + [last], k)
         == if k == |init| then CountAtLeast(init, last.height)
            else Ahead(init, k) + if last.height > init[k].height then 1 else 0
  {
    var h := if k == |init| then last.height else init[k].height;
    CountOneMore(init, last, h + 1);
    EarlierInPrefix(init, [last], k, h);
    if k == |init| { CountSplits(init, k, h); }
  }

  lemma SortStep(init: seq<Entry>, last: Entry)
    ensures Newest(init + [last]) == Insert(Newest(init), last)
    ensures var s, p := Newest(init), CountAtLeast(init, last.height);
            && p <= |s| == |init| && Insert(s, last) == s[..p] + [last] + s[p..]
            && forall i | 0 <= i < |s| :: s[i].height >= last.height <==> i < p
  {
    assert (init + [last])[..|init|] == init;
    NewestLength(init);
    NewestSorts(init);
    NewestCounts(init, last.height);
    InsertAt(Newest(init), last);
    forall i | 0 <= i < |Newest(init)|
      ensures Newest(init)[i].height >= last.height <==> i < CountAtLeast(init, last.height)
    {
      HighFirst(Newest(init), last.height, i);
    }
  }

  lemma WhoIsAt(init: seq<Entry>, last: Entry, i: nat)
    requires i <= |init|
    ensures var s, p := Newest(init), CountAtLeast(init, last.height);
            && p <= |s| == |init| && |Newest(init + [last])| == |init| + 1
            && Newest(init + [last])[i] == (if i < p then s[i] else if i == p then last else s[i - 1])
            && (i < p ==> s[i].height >= last.height) && (i > p ==> s[i - 1].height < last.height)
  {
    SortStep(init, last);
  }

  /** The `k`-th entry goes to the place that its number of entries ahead says. */
  lemma {:induction false} PlaceOfEntry(es: seq<Entry>, k: nat)
    requires k < |es|
    ensures Ahead(es, k) < |Newest(es)| && Newest(es)[Ahead(es, k)] == es[k]
  {
    var init, last := es[..|es| - 1], es[|es| - 1];
    assert init + [last] == es;
    AheadGrows(init, last, k);
    if k == |init| {
      CountAtMost(init, |init|, last.height);
      WhoIsAt(init, last, CountAtLeast(init, last.height));
    } else {
      PlaceOfEntry(init, k);
      NewestLength(init);
      WhoIsAt(init, last, Ahead(init, k));
      WhoIsAt(init, last, Ahead(init, k) + 1);
    }
  }

  /** And every place is that of some entry. */
  lemma {:induction false} EntryOfPlace(es: seq<Entry>, i: nat) returns (k: nat)
    requires i < |Newest(es)|
    ensures k < |es| && Ahead(es, k) == i && Newest(es)[i] == es[k]
  {
    NewestLength(es);
    var init, last := es[..|es| - 1], es[|es| - 1];
    var p := CountAtLeast(init, last.height);
    assert init + [last] == es;
    WhoIsAt(init, last, i);
    if i == p {
      k := |init|;
    } else {
      k := EntryOfPlace(init, if i < p then i else i - 1);
    }
    AheadGrows(init, last, k);
  }

  // ---------- Main results ----------

  /** A matching eligible entry of the history, at any depth. */
  ghost predicate Candidate(q: Query, history: seq<RawEntry>, fetch: Fetcher, e: Entry) {
    e in Filtered(q, history) && Matches(q, fetch, e)
  }

  /** The entry the walk settles on is a candidate, and no candidate of the whole history is higher. */
  lemma ChosenIsHighest(q: Query, history: seq<RawEntry>, fetch: Fetcher)
    ensures var walk := Walked(Newest(Filtered(q, history)));
            var i := FirstMatch(q, fetch, walk);
            i < |walk| ==>
              Candidate(q, history, fetch, walk[i])
              && forall e | Candidate(q, history, fetch, e) :: e.height <= walk[i].height
  {
    var es := Filtered(q, history);
    var sorted, walk := Newest(es), Walked(Newest(es));
    var i := FirstMatch(q, fetch, walk);
    NewestPermutes(es);
    if i < |walk| {
      Placed(es, walk[i]);
      MatchMeaning(q, fetch, walk[i]);
      forall e | Candidate(q, history, fetch, e) ensures e.height <= walk[i].height {
        Placed(es, e);
        MatchMeaning(q, fetch, e);
        var j :| 0 <= j < |sorted| && sorted[j] == e;
        FirstIsHighest(q, fetch, sorted, j);
      }
    }
  }

  lemma FirstIsHighest(q: Query, fetch: Fetcher, sorted: seq<Entry>, j: nat)
    requires Descending(sorted) && j < |sorted| && Match(q, fetch, sorted[j]).Some?
    ensures var walk := Walked(sorted);
            var i := FirstMatch(q, fetch, walk);
            i < |walk| ==> sorted[j].height <= walk[i].height
  {
    var walk := Walked(sorted);
    var i := FirstMatch(q, fetch, walk);
    assert forall k | 0 <= k < |walk| :: walk[k] == sorted[k];
    if i < |walk| {
      assert i <= j;
      assert walk[i] == sorted[i];
    }
  }

  lemma RowChosen(q: Query, history: seq<RawEntry>, fetch: Fetcher) returns (i: nat)
    requires Select(q, history, fetch).Row?
    ensures var walk, r := Walked(Newest(Filtered(q, history))), Select(q, history, fetch);
            && i == FirstMatch(q, fetch, walk) && i < |walk|
            && walk[i] == Entry(r.txHash, r.height) && Match(q, fetch, walk[i]) == Some(r.row)
            && r.expiresIn == (if q.tip.Some? then Some(36000 - (q.tip.value - r.height)) else None)
            && (q.tip.Some? ==> q.tip.value - r.height < 36000)
  {
    i := FirstMatch(q, fetch, Walked(Newest(Filtered(q, history))));
  }

  /** Newest eligible match: a returned row is that of an unexpired candidate, and no candidate among all
      eligible entries of the whole history is higher. */
  lemma RowIsNewestMatch(q: Query, history: seq<RawEntry>, fetch: Fetcher)
    requires Select(q, history, fetch).Row?
    ensures var r := Select(q, history, fetch);
            var e := Entry(r.txHash, r.height);
            && Candidate(q, history, fetch, e) && IsNameRow(fetch(r.txHash).value, q.name, Some(r.row))
            && r.expiresIn == (if q.tip.Some? then Some(36000 - (q.tip.value - r.height)) else None)
            && (q.tip.Some? ==> q.tip.value - r.height < 36000)
            && forall e' | Candidate(q, history, fetch, e') :: e'.height <= r.height
  {
    var i := RowChosen(q, history, fetch);
    ChosenIsHighest(q, history, fetch);
    MatchMeaning(q, fetch, Walked(Newest(Filtered(q, history)))[i]);
  }

  /** "Expired" means that there is a candidate and every candidate is past its expiry. */
  lemma ExpiredMeansAllExpired(q: Query, history: seq<RawEntry>, fetch: Fetcher)
    requires Select(q, history, fetch).Expired?
    ensures exists e :: Candidate(q, history, fetch, e)
    ensures q.tip.Some? && forall e | Candidate(q, history, fetch, e) :: q.tip.value - e.height >= 36000
  {
    ChosenIsHighest(q, history, fetch);
  }

  /** The walk stops at the match with the fewest entries ahead, if they are fewer than 32. */
  lemma WalkFindsFirst(q: Query, fetch: Fetcher, es: seq<Entry>)
    ensures var walk := Walked(Newest(es));
            var i := FirstMatch(q, fetch, walk);
            && (i < |walk| ==> exists k | 0 <= k < |es| && Matches(q, fetch, es[k]) :: Ahead(es, k) == i && es[k] == walk[i])
            && forall k | 0 <= k < |es| && Matches(q, fetch, es[k]) ::
                 Ahead(es, k) >= if i < |walk| then i else MAX_HISTORY_WALK
  {
    var sorted, walk := Newest(es), Walked(Newest(es));
    var i := FirstMatch(q, fetch, walk);
    assert forall j | 0 <= j < |walk| :: walk[j] == sorted[j];
    if i < |walk| {
      var k := EntryOfPlace(es, i);
      MatchMeaning(q, fetch, es[k]);
    }
    forall k | 0 <= k < |es| && Matches(q, fetch, es[k])
      ensures Ahead(es, k) >= if i < |walk| then i else MAX_HISTORY_WALK
    {
      PlaceOfEntry(es, k);
      MatchMeaning(q, fetch, es[k]);
      if Ahead(es, k) < |walk| { assert walk[Ahead(es, k)] == es[k]; }
    }
  }

  /** Exactly when a name is hidden: the answer is "no row" if and only if every match among the eligible
      entries, if there is any, has 32 or more of them ahead of it - higher, or as high and listed
      earlier. Junk can censor a name, and this is how much it takes. */
  lemma HiddenIff(q: Query, history: seq<RawEntry>, fetch: Fetcher)
    ensures var es := Filtered(q, history);
            Select(q, history, fetch).NoRow? <==>
              forall k | 0 <= k < |es| && Matches(q, fetch, es[k]) :: Ahead(es, k) >= 32
  {
    WalkFindsFirst(q, fetch, Filtered(q, history));
  }

  /** Newer junk cannot hide a name until there is a walk's worth of it: with a candidate that at most
      32 eligible entries (itself among them) are as high as, the answer is never "no row". */
  lemma NotHiddenByFewNewer(q: Query, history: seq<RawEntry>, fetch: Fetcher, e: Entry)
    requires Candidate(q, history, fetch, e)
    requires CountAtLeast(Filtered(q, history), e.height) <= 32
    ensures !Select(q, history, fetch).NoRow?
  {
    var es := Filtered(q, history);
    var k :| 0 <= k < |es| && es[k] == e;
    AheadCounted(es, k);
    HiddenIff(q, history, fetch);
  }

  lemma AheadCounted(es: seq<Entry>, k: nat)
    requires k < |es|
    ensures Ahead(es, k) < CountAtLeast(es, es[k].height) <= |es|
  {
    var a, h := Ahead(es, k), es[k].height;
    PlaceOfEntry(es, k);
    NewestSorts(es);
    HighFirst(Newest(es), h, a);
    NewestCounts(es, h);
    CountAtMost(es, |es|, h);
  }

  /** But a walk's worth of newer entries that are no candidates does hide it. */
  lemma HiddenByManyNewer(q: Query, history: seq<RawEntry>, fetch: Fetcher, h: int)
    requires forall e | Candidate(q, history, fetch, e) :: e.height < h
    requires CountAtLeast(Filtered(q, history), h) >= 32
    ensures Select(q, history, fetch).NoRow?
  {
    var es := Filtered(q, history);
    forall k | 0 <= k < |es| && Matches(q, fetch, es[k]) ensures Ahead(es, k) >= 32 {
      assert Candidate(q, history, fetch, es[k]);
      ManyAhead(es, k, h);
    }
    HiddenIff(q, history, fetch);
  }

  lemma ManyAhead(es: seq<Entry>, k: nat, h: int)
    requires k < |es| && es[k].height < h
    ensures Ahead(es, k) >= CountAtLeast(es, h)
  {
    CountGrows(es, |es|, h, es[k].height + 1);
  }

  /** With at most 32 eligible entries, "no row" means exactly that nothing eligible matches. */
  lemma NoRowIff(q: Query, history: seq<RawEntry>, fetch: Fetcher)
    requires |Filtered(q, history)| <= 32
    ensures Select(q, history, fetch).NoRow? <==> forall e :: !Candidate(q, history, fetch, e)
  {
    var es := Filtered(q, history);
    HiddenIff(q, history, fetch);
    forall k | 0 <= k < |es| ensures Ahead(es, k) < 32 { AheadCounted(es, k); }
    if k :| 0 <= k < |es| && Matches(q, fetch, es[k]) { assert Candidate(q, history, fetch, es[k]); }
  }

  lemma {:induction false} FilteredConcat(q: Query, a: seq<RawEntry>, b: seq<RawEntry>)
    ensures Filtered(q, a + b) == Filtered(q, a) + Filtered(q, b)
  {
    if b == [] {
      assert a + b == a;
    } else {
      FilteredConcat(q, a, b[..|b| - 1]);
      assert (a + b)[..|a + b| - 1] == a + b[..|b| - 1];
    }
  }

  /** Unconfirmed, under-confirmed or malformed items change nothing, wherever they are inserted. */
  lemma IneligibleChangesNothing(q: Query, a: seq<RawEntry>, junk: seq<RawEntry>, b: seq<RawEntry>, fetch: Fetcher)
    requires forall h | h in junk :: Eligible(q, h).None?
    ensures Select(q, a + junk + b, fetch) == Select(q, a + b, fetch)
  {
    FilteredConcat(q, a + junk, b);
    FilteredConcat(q, a, junk);
    FilteredConcat(q, a, b);
    AllDropped(q, junk);
    OnlyEligibleCount(q, a + junk + b, a + b, fetch);
  }

  lemma OnlyEligibleCount(q: Query, history: seq<RawEntry>, other: seq<RawEntry>, fetch: Fetcher)
    requires Filtered(q, history) == Filtered(q, other)
    ensures Select(q, history, fetch) == Select(q, other, fetch)
  {
  }

  lemma {:induction false} AllDropped(q: Query, junk: seq<RawEntry>)
    requires forall h | h in junk :: Eligible(q, h).None?
    ensures Filtered(q, junk) == []
  {
    if junk != [] {
      assert junk[|junk| - 1] in junk && forall h | h in junk[..|junk| - 1] :: h in junk;
      AllDropped(q, junk[..|junk| - 1]);
    }
  }

  lemma {:induction false} FilteredMember(q: Query, history: seq<RawEntry>, e: Entry)
    ensures e in Filtered(q, history) <==> exists h | h in history :: Eligible(q, h) == Some(e)
  {
    if history != [] {
      var init, last := history[..|history| - 1], history[|history| - 1];
      FilteredMember(q, init, e);
      assert forall h :: h in history <==> h in init || h == last;
    }
  }

  /** Which entries are eligible: the confirmed ones with a hash, and with the confirmations demanded - one
      unless told otherwise, and none if told so - where the tip is known. */
  lemma FilteredExactly(q: Query, history: seq<RawEntry>, e: Entry)
    ensures var demanded := if q.minConfirmations.None? then 1 else q.minConfirmations.value;
            e in Filtered(q, history) <==>
              && Raw(Some(e.txHash), Some(e.height)) in history && e.height > 0
              && (q.tip.Some? && demanded > 0 ==> q.tip.value - e.height + 1 >= demanded)
  {
    FilteredMember(q, history, e);
  }

  /** Asking for more confirmations never selects a higher entry, and never revives an expired name. */
  lemma MoreConfirmationsNeverHigher(q: Query, more: int, history: seq<RawEntry>, fetch: Fetcher)
    requires MinConf(q) <= more
    requires Select(q.(minConfirmations := Some(more)), history, fetch).Row?
    ensures var strict := Select(q.(minConfirmations := Some(more)), history, fetch);
            var loose := Select(q, history, fetch);
            (loose.Row? ==> strict.height <= loose.height) && !loose.Expired?
  {
    var q' := q.(minConfirmations := Some(more));
    var strict := Select(q', history, fetch);
    var e := Entry(strict.txHash, strict.height);
    RowIsNewestMatch(q', history, fetch);
    FilteredMember(q', history, e);
    FilteredMember(q, history, e);
    assert Candidate(q, history, fetch, e);
    if Select(q, history, fetch).Row? { RowIsNewestMatch(q, history, fetch); }
    if Select(q, history, fetch).Expired? { ExpiredMeansAllExpired(q, history, fetch); }
  }

  /** With a known tip the blocks left are between 1 and 36000 less the confirmations demanded. */
  lemma ExpiresInRange(q: Query, history: seq<RawEntry>, fetch: Fetcher)
    requires q.tip.Some? && MinConf(q) >= 1 && Select(q, history, fetch).Row?
    ensures var r := Select(q, history, fetch);
            r.expiresIn.Some? && 1 <= r.expiresIn.value <= NAME_EXPIRE_DEPTH - (MinConf(q) - 1)
  {
    var r := Select(q, history, fetch);
    RowIsNewestMatch(q, history, fetch);
    FilteredMember(q, history, Entry(r.txHash, r.height));
  }
}
