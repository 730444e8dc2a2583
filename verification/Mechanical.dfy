/** The mechanical layer: which returns of a term come too late for the reader, and what the
    reading costs. */
module Mechanical {
  import opened Wrappers

  /** One place where a tracked term stands, by its offset in words. */
  datatype Hit = Hit(at: int, term: string, section: string)

  /** How stale the term had gone when it came back; an introduction has no return. */
  datatype Occurrence = Occurrence(section: string, at: int, since: Option<int>, intervening: nat, stale: bool)

  datatype Thresholds = Thresholds(
    spokenPace: nat,
    readingPace: nat,
    freshnessDistance: int,
    freshnessTerms: int,
    staleReturnCost: nat)

  datatype TermTrace = TermTrace(term: string, occurrences: seq<Occurrence>)

  /** Hits come in reading order. */
  predicate InReadingOrder(hits: seq<Hit>) {
    forall i, j :: 0 <= i < j < |hits| ==> hits[i].at <= hits[j].at
  }

  // --- what a trace is ----------------------------------------------------------------------

  /** Where each term is first used. */
  function FirstUses(hits: seq<Hit>): map<string, int> {
    if hits == [] then map[]
    else
      var before, last := FirstUses(hits[..|hits| - 1]), hits[|hits| - 1];
      if last.term in before then before else before[last.term := last.at]
  }

  /** The other terms that are introduced strictly between two places. */
  function Intruders(first: map<string, int>, term: string, from: int, to: int): set<string> {
    set other | other in first && other != term && from < first[other] < to
  }

  function Returning(first: map<string, int>, hit: Hit, prior: int, limits: Thresholds): Occurrence {
    var distance, intervening := hit.at - prior, |Intruders(first, hit.term, prior, hit.at)|;
    Occurrence(hit.section, hit.at, Some(distance), intervening,
               distance > limits.freshnessDistance || intervening >= limits.freshnessTerms)
  }

  /** The occurrences of one term among the hits. */
  function TraceOf(hits: seq<Hit>, term: string, first: map<string, int>, limits: Thresholds): seq<Occurrence> {
    if hits == [] then []
    else
      var before, last := TraceOf(hits[..|hits| - 1], term, first, limits), hits[|hits| - 1];
      if last.term != term then before
      else if before == [] then [Occurrence(last.section, last.at, None, 0, false)]
      else before + [Returning(first, last, before[|before| - 1].at, limits)]
  }

  // --- the loop --------------------------------------------------------------------------------

  method CollectFirstUses(hits: seq<Hit>) returns (first: map<string, int>)
    ensures first == FirstUses(hits)
  {
    first := map[];
    for i := 0 to |hits|
      invariant first == FirstUses(hits[..i])
    {
      assert hits[..i + 1][..i] == hits[..i];
      if hits[i].term !in first {
        first := first[hits[i].term := hits[i].at];
      }
    }
    assert hits[..|hits|] == hits;
  }

  /** What the loop knows after some of the hits: every trace so far, and where each term stood last. */
  ghost predicate Traced(byTerm: map<string, seq<Occurrence>>, previous: map<string, int>, hits: seq<Hit>,
                         first: map<string, int>, limits: Thresholds)
  {
    && previous.Keys == byTerm.Keys
    && (forall term :: term !in byTerm ==> TraceOf(hits, term, first, limits) == [])
    && (forall term :: term in byTerm ==>
          && byTerm[term] != [] && byTerm[term] == TraceOf(hits, term, first, limits)
          && previous[term] == byTerm[term][|byTerm[term]| - 1].at)
  }

  function NextOccurrence(hit: Hit, before: seq<Occurrence>, first: map<string, int>, limits: Thresholds): Occurrence {
    if before == [] then Occurrence(hit.section, hit.at, None, 0, false)
    else Returning(first, hit, before[|before| - 1].at, limits)
  }

  lemma TracedNext(byTerm: map<string, seq<Occurrence>>, previous: map<string, int>, hits: seq<Hit>,
                   first: map<string, int>, limits: Thresholds, hit: Hit)
    requires Traced(byTerm, previous, hits, first, limits)
    ensures var before := if hit.term in byTerm then byTerm[hit.term] else [];
            var after := before + [NextOccurrence(hit, before, first, limits)];
            && before == TraceOf(hits, hit.term, first, limits)
            && Traced(byTerm[hit.term := after], previous[hit.term := hit.at], hits + [hit], first, limits)
  {
    hide TraceOf, Intruders, NextOccurrence;
    TraceNext(hits, hit, first, limits);
    NextStands(hit, if hit.term in byTerm then byTerm[hit.term] else [], first, limits);
  }

  lemma NextStands(hit: Hit, before: seq<Occurrence>, first: map<string, int>, limits: Thresholds)
    ensures NextOccurrence(hit, before, first, limits).at == hit.at
  {
    hide Intruders;
  }

  /** Every hit is held against the previous one of its own term. */
  method TraceTerms(hits: seq<Hit>, limits: Thresholds)
    returns (byTerm: map<string, seq<Occurrence>>, first: map<string, int>)
    ensures first == FirstUses(hits) && byTerm.Keys == first.Keys
    ensures forall term :: term in byTerm ==> byTerm[term] != [] && byTerm[term] == TraceOf(hits, term, first, limits)
  {
    hide FirstUses, TraceOf, Intruders;
    first := CollectFirstUses(hits);
    byTerm := map[];
    var previous: map<string, int> := map[];
    assert Traced(byTerm, previous, hits[..0], first, limits) by {
      NothingTraced(first, limits);
    }
    for i := 0 to |hits|
      invariant Traced(byTerm, previous, hits[..i], first, limits)
    {
      var hit := hits[i];
      assert hits[..i + 1] == hits[..i] + [hit];
      TracedNext(byTerm, previous, hits[..i], first, limits, hit);
      var occurrence :=
        if hit.term in previous then Returning(first, hit, previous[hit.term], limits)
        else Occurrence(hit.section, hit.at, None, 0, false);
      byTerm := byTerm[hit.term := (if hit.term in byTerm then byTerm[hit.term] else []) + [occurrence]];
      previous := previous[hit.term := hit.at];
    }
    assert hits[..|hits|] == hits;
    forall term
      ensures term in first <==> TraceOf(hits, term, first, limits) != []
    {
      TracedTerms(hits, term, first, limits);
    }
  }

  lemma NothingTraced(first: map<string, int>, limits: Thresholds)
    ensures Traced(map[], map[], [], first, limits)
  {
  }

  lemma TraceNext(hits: seq<Hit>, hit: Hit, first: map<string, int>, limits: Thresholds)
    ensures forall term :: term != hit.term ==>
              TraceOf(hits + [hit], term, first, limits) == TraceOf(hits, term, first, limits)
    ensures var before := TraceOf(hits, hit.term, first, limits);
            TraceOf(hits + [hit], hit.term, first, limits)
            == before + [NextOccurrence(hit, before, first, limits)]
  {
    assert (hits + [hit])[..|hits|] == hits;
  }

  lemma {:induction false} TracedTerms(hits: seq<Hit>, term: string, first: map<string, int>, limits: Thresholds)
    ensures term in FirstUses(hits) <==> TraceOf(hits, term, first, limits) != []
  {
    if hits != [] {
      TracedTerms(hits[..|hits| - 1], term, first, limits);
    }
  }

  // --- the traces, hit by hit -------------------------------------------------------------------

  /** The places of one term among the hits: all of them, in order. */
  function PlacesOf(hits: seq<Hit>, term: string): (places: seq<nat>)
    ensures forall k :: 0 <= k < |places| ==> places[k] < |hits| && hits[places[k]].term == term
    ensures forall j, k :: 0 <= j < k < |places| ==> places[j] < places[k]
    ensures forall i :: 0 <= i < |hits| && hits[i].term == term ==> i in places
  {
    if hits == [] then []
    else
      var last := |hits| - 1;
      var before := PlacesOf(hits[..last], term);
      assert forall i :: 0 <= i < last && hits[i].term == term ==> hits[..last][i].term == term;
      if hits[last].term == term then before + [last] else before
  }

  /** A term is first used where its earliest hit stands. */
  lemma {:induction false} FirstUsesAreFirst(hits: seq<Hit>, term: string)
    ensures var first := FirstUses(hits);
            if term in first then
              exists i :: 0 <= i < |hits| && hits[i].term == term && first[term] == hits[i].at
                          && forall j :: 0 <= j < i ==> hits[j].term != term
            else
              forall i :: 0 <= i < |hits| ==> hits[i].term != term
  {
    if hits != [] {
      var last := |hits| - 1;
      var front := hits[..last];
      assert forall i :: 0 <= i < last ==> front[i] == hits[i];
      FirstUsesAreFirst(front, term);
      if term in FirstUses(front) {
        var i :| 0 <= i < last && front[i].term == term && FirstUses(front)[term] == front[i].at
                 && forall j :: 0 <= j < i ==> front[j].term != term;
        assert hits[i].term == term;
      }
    }
  }

  /** A return measures the way from the hit before it, counts the other terms introduced strictly in
      between, and is stale exactly when the way is longer than the distance limit or these terms
      are at least as many as the other limit says. */
  predicate IsReturn(o: Occurrence, before: Hit, here: Hit, first: map<string, int>, limits: Thresholds) {
    var others := set other | other in first && other != here.term && before.at < first[other] < here.at;
    && o.at == here.at && o.section == here.section
    && o.since == Some(here.at - before.at) && o.intervening == |others|
    && (o.stale <==> here.at - before.at > limits.freshnessDistance || |others| >= limits.freshnessTerms)
  }

  predicate IsIntroduction(o: Occurrence, here: Hit) {
    o == Occurrence(here.section, here.at, None, 0, false)
  }

  lemma ReturnsReturn(before: Hit, here: Hit, first: map<string, int>, limits: Thresholds)
    ensures IsReturn(Returning(first, here, before.at, limits), before, here, first, limits)
    ensures Returning(first, here, before.at, limits).at == here.at
  {
    assert Intruders(first, here.term, before.at, here.at)
        == set other | other in first && other != here.term && before.at < first[other] < here.at;
  }

  ghost predicate Links(trace: seq<Occurrence>, hits: seq<Hit>, places: seq<nat>, first: map<string, int>,
                        limits: Thresholds)
  {
    && |trace| == |places|
    && (forall k :: 0 <= k < |trace| ==> places[k] < |hits| && trace[k].at == hits[places[k]].at)
    && (trace != [] ==> IsIntroduction(trace[0], hits[places[0]]))
    && forall k :: 0 < k < |trace| ==> IsReturn(trace[k], hits[places[k - 1]], hits[places[k]], first, limits)
  }

  lemma LinksAmongMore(trace: seq<Occurrence>, hits: seq<Hit>, hit: Hit, places: seq<nat>, first: map<string, int>,
                       limits: Thresholds)
    requires Links(trace, hits, places, first, limits)
    ensures Links(trace, hits + [hit], places, first, limits)
  {
    hide IsReturn, IsIntroduction;
  }

  lemma OneLinkMore(trace: seq<Occurrence>, hits: seq<Hit>, hit: Hit, places: seq<nat>, first: map<string, int>,
                    limits: Thresholds)
    requires Links(trace, hits, places, first, limits)
    ensures var next := if trace == [] then Occurrence(hit.section, hit.at, None, 0, false)
                        else Returning(first, hit, trace[|trace| - 1].at, limits);
            Links(trace + [next], hits + [hit], places + [|hits|], first, limits)
  {
    hide IsReturn, Returning;
    if trace != [] {
      ReturnsReturn(hits[places[|places| - 1]], hit, first, limits);
    }
  }

  lemma PlacesNext(hits: seq<Hit>, hit: Hit, term: string)
    ensures PlacesOf([], term) == []
    ensures PlacesOf(hits + [hit], term) == PlacesOf(hits, term) + if hit.term == term then [|hits|] else []
  {
    assert (hits + [hit])[..|hits|] == hits;
  }

  lemma LinksNothing(term: string, first: map<string, int>, limits: Thresholds)
    ensures Links(TraceOf([], term, first, limits), [], PlacesOf([], term), first, limits)
  {
  }

  /** The trace of a term has one link for each of its hits, in order: its introduction, then its
      returns. */
  lemma {:induction false} TraceExactly(hits: seq<Hit>, term: string, first: map<string, int>, limits: Thresholds)
    ensures Links(TraceOf(hits, term, first, limits), hits, PlacesOf(hits, term), first, limits)
  {
    hide Links, Returning, TraceOf, PlacesOf;
    if hits == [] {
      LinksNothing(term, first, limits);
    } else {
      var front, last := hits[..|hits| - 1], hits[|hits| - 1];
      assert hits == front + [last];
      TraceExactly(front, term, first, limits);
      var trace, places := TraceOf(front, term, first, limits), PlacesOf(front, term);
      TraceNext(front, last, first, limits);
      PlacesNext(front, last, term);
      if last.term == term {
        OneLinkMore(trace, front, last, places, first, limits);
      } else {
        assert TraceOf(hits, term, first, limits) == trace && places + [] == places;
        LinksAmongMore(trace, front, last, places, first, limits);
      }
    }
  }

  // --- how many returns can be stale --------------------------------------------------------------

  function Gaps(trace: seq<Occurrence>): int {
    if trace == [] then 0
    else
      var last := trace[|trace| - 1].since;
      Gaps(trace[..|trace| - 1]) + if last.Some? then last.value else 0
  }

  function Intrusions(trace: seq<Occurrence>): nat {
    if trace == [] then 0 else Intrusions(trace[..|trace| - 1]) + trace[|trace| - 1].intervening
  }

  function StaleReturns(trace: seq<Occurrence>): nat {
    if trace == [] then 0 else StaleReturns(trace[..|trace| - 1]) + if trace[|trace| - 1].stale then 1 else 0
  }

  /** Stale returns are the stale links of the trace, each counted once. */
  lemma {:induction false} StaleReturnsAreCounted(trace: seq<Occurrence>)
    ensures StaleReturns(trace) == |set i | 0 <= i < |trace| && trace[i].stale|
  {
    if trace != [] {
      var last := |trace| - 1;
      StaleReturnsAreCounted(trace[..last]);
      var before := set i | 0 <= i < last && trace[..last][i].stale;
      var all := set i | 0 <= i < |trace| && trace[i].stale;
      assert all == before + if trace[last].stale then {last} else {};
    }
  }

  predicate IsFar(o: Occurrence, distance: int) {
    o.since.Some? && o.since.value > distance
  }

  function FarReturns(trace: seq<Occurrence>, distance: int): nat {
    if trace == [] then 0
    else FarReturns(trace[..|trace| - 1], distance) + if IsFar(trace[|trace| - 1], distance) then 1 else 0
  }

  function CrowdedReturns(trace: seq<Occurrence>, terms: int): nat {
    if trace == [] then 0
    else CrowdedReturns(trace[..|trace| - 1], terms) + if trace[|trace| - 1].intervening >= terms then 1 else 0
  }

  /** What the layer reports about one term, link by link. */
  predicate IsTrace(trace: seq<Occurrence>, first: map<string, int>, term: string, limits: Thresholds) {
    && (trace != [] ==> trace[0].since.None? && trace[0].intervening == 0 && !trace[0].stale)
    && forall i :: 0 < i < |trace| ==>
         && trace[i - 1].at <= trace[i].at
         && trace[i] == Returning(first, Hit(trace[i].at, term, trace[i].section), trace[i - 1].at, limits)
  }

  lemma {:induction false} TracesAreTraces(hits: seq<Hit>, term: string, first: map<string, int>, limits: Thresholds)
    requires InReadingOrder(hits)
    ensures IsTrace(TraceOf(hits, term, first, limits), first, term, limits)
    ensures var trace := TraceOf(hits, term, first, limits);
            trace != [] ==> hits != [] && trace[|trace| - 1].at <= hits[|hits| - 1].at
  {
    hide Returning, IsTrace, NextOccurrence;
    if hits == [] {
      NoTrace(first, term, limits);
    } else {
      var init, last := hits[..|hits| - 1], hits[|hits| - 1];
      TracesAreTraces(init, term, first, limits);
      assert init != [] ==> hits[|init| - 1].at <= last.at;
      var before := TraceOf(init, term, first, limits);
      assert hits == init + [last];
      TraceNext(init, last, first, limits);
      if last.term == term {
        LongerTrace(before, first, last, limits);
      }
    }
  }

  lemma NoTrace(first: map<string, int>, term: string, limits: Thresholds)
    ensures IsTrace([], first, term, limits)
  {
  }

  lemma LongerTrace(before: seq<Occurrence>, first: map<string, int>, hit: Hit, limits: Thresholds)
    requires IsTrace(before, first, hit.term, limits) && (before != [] ==> before[|before| - 1].at <= hit.at)
    ensures var next := NextOccurrence(hit, before, first, limits);
            IsTrace(before + [next], first, hit.term, limits) && next.at == hit.at
  {
    if before != [] {
      ReturningStands(first, hit, before[|before| - 1].at, limits);
    }
  }

  lemma ReturningStands(first: map<string, int>, hit: Hit, prior: int, limits: Thresholds)
    ensures var o := Returning(first, hit, prior, limits); o.at == hit.at && o.section == hit.section
  {
    hide Intruders;
  }

  /** The gaps of a term add up to the way from its first to its last place. */
  lemma {:induction false} GapsSpanTheTrace(trace: seq<Occurrence>, first: map<string, int>, term: string,
                                            limits: Thresholds)
    requires IsTrace(trace, first, term, limits) && trace != []
    ensures Gaps(trace) == trace[|trace| - 1].at - trace[0].at
  {
    var init := trace[..|trace| - 1];
    if init == [] {
      assert Gaps(init) == 0;
    } else {
      GapsSpanTheTrace(init, first, term, limits);
    }
  }

  /** An introduction intrudes on a term once: the intrusions of all returns together are no more
      than the other terms there are. */
  lemma {:induction false} IntrusionsAreOtherTerms(trace: seq<Occurrence>, first: map<string, int>,
                                                   term: string, limits: Thresholds)
    requires IsTrace(trace, first, term, limits) && trace != []
    ensures Intrusions(trace) <= |set other | other in first && other != term && first[other] < trace[|trace| - 1].at|
  {
    var init, last := trace[..|trace| - 1], trace[|trace| - 1];
    if init == [] {
      assert Intrusions(init) == 0;
    } else {
      IntrusionsAreOtherTerms(init, first, term, limits);
      var prior := init[|init| - 1].at;
      assert last.intervening == |Intruders(first, term, prior, last.at)|;
      DisjointIntruders(first, term, prior, last.at);
    }
  }

  lemma DisjointIntruders(first: map<string, int>, term: string, from: int, to: int)
    requires from <= to
    ensures |set other | other in first && other != term && first[other] < from| + |Intruders(first, term, from, to)|
            <= |set other | other in first && other != term && first[other] < to|
  {
    var earlier := set other | other in first && other != term && first[other] < from;
    var later := set other | other in first && other != term && first[other] < to;
    var between := Intruders(first, term, from, to);
    assert earlier !! between && earlier + between <= later;
    SubsetsAreSmaller(earlier + between, later);
  }

  lemma SubsetsAreSmaller(a: set<string>, b: set<string>)
    requires a <= b
    ensures |a| <= |b|
  {
    assert |b| == |a| + |b - a| by {
      assert b == a + (b - a);
    }
  }

  lemma {:induction false} StaleByEitherLimit(trace: seq<Occurrence>, first: map<string, int>, term: string,
                                              limits: Thresholds)
    requires IsTrace(trace, first, term, limits)
    ensures StaleReturns(trace) <= FarReturns(trace, limits.freshnessDistance)
            + CrowdedReturns(trace, limits.freshnessTerms)
  {
    hide Intruders;
    if trace != [] {
      StaleByEitherLimit(trace[..|trace| - 1], first, term, limits);
    }
  }

  lemma {:induction false} FarReturnsTakeRoom(trace: seq<Occurrence>, first: map<string, int>, term: string,
                                              limits: Thresholds)
    requires IsTrace(trace, first, term, limits) && limits.freshnessDistance >= 0
    ensures FarReturns(trace, limits.freshnessDistance) * (limits.freshnessDistance + 1) <= Gaps(trace)
  {
    hide Intruders;
    if trace != [] {
      var init, last := trace[..|trace| - 1], trace[|trace| - 1];
      FarReturnsTakeRoom(init, first, term, limits);
      var far, room := FarReturns(init, limits.freshnessDistance), limits.freshnessDistance + 1;
      assert (far + 1) * room == far * room + room;
      if |trace| > 1 {
        assert trace[|trace| - 2].at <= last.at && last.since == Some(last.at - trace[|trace| - 2].at);
      }
    }
  }

  lemma {:induction false} CrowdedReturnsTakeTerms(trace: seq<Occurrence>, terms: int)
    requires terms >= 1
    ensures CrowdedReturns(trace, terms) * terms <= Intrusions(trace)
  {
    if trace != [] {
      CrowdedReturnsTakeTerms(trace[..|trace| - 1], terms);
      var crowded := CrowdedReturns(trace[..|trace| - 1], terms);
      assert (crowded + 1) * terms == crowded * terms + terms;
    }
  }

  lemma AtMost(count: nat, unit: int, total: int)
    requires unit >= 1 && count * unit <= total
    ensures count <= total / unit
  {
    var q := total / unit;
    assert total < (q + 1) * unit;
    assert count <= q || (q + 1) * unit <= count * unit by {
      if count > q {
        Multiplied(q + 1, count, unit);
      }
    }
  }

  lemma Multiplied(a: int, b: int, unit: int)
    requires a <= b && unit >= 0
    ensures a * unit <= b * unit
  {
  }

  /** However often a term comes back, its stale returns are bounded: by how often the distance
      limit fits into the way between its first and its last place, and by how often the limit on
      intruding terms fits into the number of other terms. */
  lemma StaleReturnsAreBounded(hits: seq<Hit>, term: string, limits: Thresholds)
    requires InReadingOrder(hits) && limits.freshnessDistance >= 0 && limits.freshnessTerms >= 1
    requires term in FirstUses(hits)
    ensures var first := FirstUses(hits);
            var trace := TraceOf(hits, term, first, limits);
            && trace != []
            && StaleReturns(trace) <=
               (trace[|trace| - 1].at - trace[0].at) / (limits.freshnessDistance + 1)
               + (|first| - 1) / limits.freshnessTerms
  {
    hide TraceOf, FirstUses, IsTrace, Gaps, Intrusions, FarReturns, CrowdedReturns, StaleReturns;
    var first := FirstUses(hits);
    var trace := TraceOf(hits, term, first, limits);
    TracedTerms(hits, term, first, limits);
    TracesAreTraces(hits, term, first, limits);
    GapsSpanTheTrace(trace, first, term, limits);
    IntrusionsAreOtherTerms(trace, first, term, limits);
    StaleByEitherLimit(trace, first, term, limits);
    FarReturnsTakeRoom(trace, first, term, limits);
    CrowdedReturnsTakeTerms(trace, limits.freshnessTerms);
    OthersAreFewer(first, term, trace[|trace| - 1].at);
    AtMost(FarReturns(trace, limits.freshnessDistance), limits.freshnessDistance + 1, Gaps(trace));
    AtMost(CrowdedReturns(trace, limits.freshnessTerms), limits.freshnessTerms, |first| - 1);
  }

  lemma OthersAreFewer(first: map<string, int>, term: string, at: int)
    requires term in first
    ensures |set other | other in first && other != term && first[other] < at| <= |first| - 1
  {
    var others := set other | other in first && other != term && first[other] < at;
    SubsetsAreSmaller(others, first.Keys - {term});
    assert |first.Keys - {term}| == |first.Keys| - 1;
  }

  // --- the estimate -----------------------------------------------------------------------------------

  datatype PartReport = PartReport(words: nat, baseMinutes: real, estimatedMinutes: real, traces: seq<TermTrace>)

  function StaleTotal(traces: seq<TermTrace>): nat {
    if traces == [] then 0 else StaleTotal(traces[..|traces| - 1]) + StaleReturns(traces[|traces| - 1].occurrences)
  }

  function OccurrenceTotal(traces: seq<TermTrace>): nat {
    if traces == [] then 0 else OccurrenceTotal(traces[..|traces| - 1]) + |traces[|traces| - 1].occurrences|
  }

  predicate Lists(traces: seq<TermTrace>, term: string) {
    exists i :: 0 <= i < |traces| && traces[i].term == term
  }

  /** Spoken text takes the speaker's pace, and returns are not counted. */
  method Spoken(words: nat, limits: Thresholds) returns (r: PartReport)
    requires limits.spokenPace > 0
    ensures r.words == words && r.traces == [] && r.baseMinutes == r.estimatedMinutes
    ensures r.baseMinutes * limits.spokenPace as real == words as real
  {
    var minutes := words as real / limits.spokenPace as real;
    r := PartReport(words, minutes, minutes, []);
  }

  /** A document: volume is the floor, and every stale return is priced in words of reading. */
  method Document(words: nat, hits: seq<Hit>, limits: Thresholds) returns (r: PartReport)
    requires limits.readingPace > 0
    ensures r.words == words && r.estimatedMinutes >= r.baseMinutes
    ensures r.baseMinutes * limits.readingPace as real == words as real
    ensures (r.estimatedMinutes - r.baseMinutes) * limits.readingPace as real
            == (StaleTotal(r.traces) * limits.staleReturnCost) as real
    ensures OccurrenceTotal(r.traces) == |hits|
    ensures forall i :: 0 <= i < |r.traces| ==>
              r.traces[i].occurrences == TraceOf(hits, r.traces[i].term, FirstUses(hits), limits)
    ensures forall term :: term in FirstUses(hits) <==> Lists(r.traces, term)
  {
    hide TraceOf, FirstUses, StaleTotal, OccurrenceTotal, HitsOf;
    var byTerm, first := TraceTerms(hits, limits);
    var traces := ListTraces(hits, byTerm, first, limits);
    AllHits(hits, first);
    var price := StaleTotal(traces) * limits.staleReturnCost;
    var pace := limits.readingPace as real;
    Priced(words, price, pace);
    r := PartReport(words, words as real / pace, (words + price) as real / pace, traces);
  }

  /** The traces as a list, each term once. */
  method ListTraces(hits: seq<Hit>, byTerm: map<string, seq<Occurrence>>, ghost first: map<string, int>,
                    ghost limits: Thresholds)
    returns (traces: seq<TermTrace>)
    requires forall term :: term in byTerm ==> byTerm[term] == TraceOf(hits, term, first, limits)
    ensures forall i :: 0 <= i < |traces| ==>
              traces[i].term in byTerm && traces[i].occurrences == byTerm[traces[i].term]
    ensures forall term :: term in byTerm ==> Lists(traces, term)
    ensures OccurrenceTotal(traces) == HitsOf(hits, byTerm.Keys)
  {
    hide TraceOf, HitsOf;
    traces := [];
    var rest: set<string> := byTerm.Keys;
    NoHits(hits);
    assert byTerm.Keys - rest == {};
    while rest != {}
      invariant rest <= byTerm.Keys
      invariant forall i :: 0 <= i < |traces| ==>
                  traces[i].term in byTerm && traces[i].occurrences == byTerm[traces[i].term]
      invariant forall term :: term in byTerm && term !in rest ==> Lists(traces, term)
      invariant OccurrenceTotal(traces) == HitsOf(hits, byTerm.Keys - rest)
      decreases rest
    {
      var term :| term in rest;
      HitsOfOneMore(hits, byTerm.Keys - rest, term, first, limits);
      assert byTerm.Keys - (rest - {term}) == (byTerm.Keys - rest) + {term};
      rest := rest - {term};
      OneMoreTrace(traces, TermTrace(term, byTerm[term]));
      traces := traces + [TermTrace(term, byTerm[term])];
    }
    assert byTerm.Keys - rest == byTerm.Keys;
  }

  lemma OneMoreTrace(traces: seq<TermTrace>, trace: TermTrace)
    ensures OccurrenceTotal(traces + [trace]) == OccurrenceTotal(traces) + |trace.occurrences|
    ensures forall term :: Lists(traces, term) || term == trace.term ==> Lists(traces + [trace], term)
  {
    var more := traces + [trace];
    assert more[..|traces|] == traces && more[|traces|] == trace;
    forall term | Lists(traces, term)
      ensures Lists(more, term)
    {
      var i :| 0 <= i < |traces| && traces[i].term == term;
      assert more[i].term == term;
    }
  }

  lemma Priced(words: nat, price: nat, pace: real)
    requires pace > 0.0
    ensures var base, estimated := words as real / pace, (words + price) as real / pace;
            base * pace == words as real && (estimated - base) * pace == price as real && estimated >= base
  {
    var base, estimated := words as real / pace, (words + price) as real / pace;
    assert estimated * pace == words as real + price as real;
    assert (estimated - base) * pace == estimated * pace - base * pace;
  }

  /** How many hits belong to some of the terms. */
  function HitsOf(hits: seq<Hit>, terms: set<string>): nat {
    if hits == [] then 0
    else HitsOf(hits[..|hits| - 1], terms) + if hits[|hits| - 1].term in terms then 1 else 0
  }

  lemma {:induction false} HitsOfOneMore(hits: seq<Hit>, terms: set<string>, term: string,
                                         first: map<string, int>, limits: Thresholds)
    requires term !in terms
    ensures HitsOf(hits, terms + {term}) == HitsOf(hits, terms) + |TraceOf(hits, term, first, limits)|
  {
    hide Returning;
    if hits != [] {
      HitsOfOneMore(hits[..|hits| - 1], terms, term, first, limits);
    }
  }

  lemma {:induction false} NoHits(hits: seq<Hit>)
    ensures HitsOf(hits, {}) == 0
  {
    if hits != [] {
      NoHits(hits[..|hits| - 1]);
    }
  }

  lemma {:induction false} AllHits(hits: seq<Hit>, first: map<string, int>)
    requires FirstUses(hits).Keys <= first.Keys
    ensures HitsOf(hits, first.Keys) == |hits|
  {
    if hits != [] {
      AllHits(hits[..|hits| - 1], first);
    }
  }
}
