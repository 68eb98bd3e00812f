/**
 * Picking the active rules document out of a list of candidates (src/nip9a-parser.js).
 */
module RulesPick {
  import opened Wrappers
  import opened RulesParser

  /** The highest ratchet of the candidates, or 0. */
  function Floor(cs: seq<Rules>): int {
    if cs == [] then 0
    else
      var rest, r := Floor(cs[..|cs| - 1]), cs[|cs| - 1].minRulesCreatedAt;
      if r.Some? && r.value > rest then r.value else rest
  }

  /** The first of the latest candidates that are not below `floor`. */
  function Latest(cs: seq<Rules>, floor: int): Option<Rules> {
    if cs == [] then None
    else
      var best, r := Latest(cs[..|cs| - 1], floor), cs[|cs| - 1];
      if r.createdAt >= floor && (best.None? || r.createdAt > best.value.createdAt) then Some(r) else best
  }

  function Pick(cs: seq<Rules>): Option<Rules> {
    Latest(cs, Floor(cs))
  }

  method PickActiveRules(candidates: seq<Rules>) returns (best: Option<Rules>)
    ensures best == Pick(candidates)
  {
    if |candidates| == 0 { return None; }
    var floor := 0;
    for i := 0 to |candidates|
      invariant floor == Floor(candidates[..i])
    {
      assert candidates[..i + 1][..i] == candidates[..i];
      var r := candidates[i].minRulesCreatedAt;
      if r.Some? && r.value > floor { floor := r.value; }
    }
    best := None;
    for i := 0 to |candidates|
      invariant best == Latest(candidates[..i], floor)
    {
      assert candidates[..i + 1][..i] == candidates[..i];
      var r := candidates[i];
      if r.createdAt < floor { continue; }
      if best.None? || r.createdAt > best.value.createdAt { best := Some(r); }
    }
    assert candidates[..|candidates|] == candidates;
  }

  // ---------- What the floor and the pick mean ----------

  /** The floor is the least number, 0 or more, that is no lower than any ratchet. */
  lemma {:induction false} FloorMeaning(cs: seq<Rules>)
    ensures Floor(cs) >= 0
    ensures forall r | r in cs && r.minRulesCreatedAt.Some? :: r.minRulesCreatedAt.value <= Floor(cs)
    ensures Floor(cs) > 0 ==> exists r | r in cs :: r.minRulesCreatedAt == Some(Floor(cs))
  {
    if cs != [] {
      var init, last := cs[..|cs| - 1], cs[|cs| - 1];
      FloorMeaning(init);
      assert forall r :: r in cs <==> r in init || r == last;
      if Floor(cs) == Floor(init) > 0 {
        var r :| r in init && r.minRulesCreatedAt == Some(Floor(init));
        assert r in cs;
      } else if Floor(cs) > 0 {
        assert last in cs;
      }
    }
  }

  lemma {:induction false} LatestMeaning(cs: seq<Rules>, floor: int)
    ensures var best := Latest(cs, floor);
            && (best.None? <==> forall r | r in cs :: r.createdAt < floor)
            && (best.Some? ==> best.value in cs && best.value.createdAt >= floor
                               && forall r | r in cs :: r.createdAt <= best.value.createdAt)
  {
    if cs != [] {
      var init, last := cs[..|cs| - 1], cs[|cs| - 1];
      LatestMeaning(init, floor);
      assert forall r :: r in cs <==> r in init || r == last;
    }
  }

  /** The active document is as late as any candidate and clears every ratchet, its own among them;
      there is none exactly when some ratchet is above every timestamp (or no timestamp reaches 0). */
  lemma PickMeaning(cs: seq<Rules>)
    ensures var best := Pick(cs);
            && (best.None? <==> forall r | r in cs :: r.createdAt < Floor(cs))
            && (best.Some? ==>
                  && best.value in cs
                  && (forall r | r in cs :: r.createdAt <= best.value.createdAt)
                  && (forall r | r in cs && r.minRulesCreatedAt.Some? :: r.minRulesCreatedAt.value <= best.value.createdAt))
  {
    FloorMeaning(cs);
    LatestMeaning(cs, Floor(cs));
  }

  /** With one document later than all others, the pick is that document, or none if it is below the floor. */
  lemma PickOfLatest(cs: seq<Rules>, top: Rules)
    requires top in cs && forall r | r in cs && r != top :: r.createdAt < top.createdAt
    ensures Pick(cs) == if top.createdAt >= Floor(cs) then Some(top) else None
  {
    LatestMeaning(cs, Floor(cs));
  }

  /** Among candidates of the latest timestamp the first is picked. */
  lemma {:induction false} FirstOfLatest(cs: seq<Rules>, floor: int) returns (i: nat)
    requires Latest(cs, floor).Some?
    ensures i < |cs| && cs[i] == Latest(cs, floor).value
    ensures forall j | 0 <= j < i :: cs[j].createdAt < cs[i].createdAt
  {
    var init, last := cs[..|cs| - 1], cs[|cs| - 1];
    LatestMeaning(init, floor);
    if Latest(cs, floor) == Latest(init, floor) {
      i := FirstOfLatest(init, floor);
    } else {
      i := |init|;
      assert forall j | 0 <= j < i :: cs[j] in init;
    }
  }

  lemma PickIsFirst(cs: seq<Rules>) returns (i: nat)
    requires Pick(cs).Some?
    ensures i < |cs| && Pick(cs) == Some(cs[i])
    ensures forall j | 0 <= j < |cs| :: if j < i then cs[j].createdAt < cs[i].createdAt else cs[j].createdAt <= cs[i].createdAt
  {
    i := FirstOfLatest(cs, Floor(cs));
    PickMeaning(cs);
  }
}
