/** The durable outbox of exchange pairs: recorded at once, sent on item by item. */
module Outbox {
  import opened Wrappers
  import opened Text
  import opened Outcomes

  datatype Pair = Pair(
    agentPhrasing: string,
    operatorSignal: string,
    expansion: string,
    operatorReaction: string,
    signalReading: Option<string>,
    capturedAt: string)

  /** Pairs are written whole: no halves, and an unfolding together with its reaction. */
  predicate IsWhole(p: Pair) {
    && !Blank(p.agentPhrasing) && !Blank(p.operatorSignal)
    && (Blank(p.operatorReaction) <==> Blank(p.expansion))
  }

  /** A line of the outbox file as it reads back. */
  datatype Line = PairLine(pair: Pair) | BlankLine | Damaged

  /** How one attempt to send a pair goes: it arrives and says so, it fails before it arrives,
      or it arrives and the acknowledgement is lost. */
  datatype Send = Delivered | NotDelivered | LostAcknowledgement

  class Graph {
    /** Everything that reached the graph, in order. */
    var delivered: seq<Pair>
    /** How the coming attempts will go; afterwards the graph answers. */
    var weather: seq<Send>

    constructor (weather: seq<Send>)
      ensures delivered == [] && this.weather == weather
    {
      this.delivered := [];
      this.weather := weather;
    }

    method SendPair(p: Pair) returns (ok: bool)
      modifies this
      ensures ok ==> delivered == old(delivered) + [p]
      ensures !ok ==> delivered == old(delivered) || delivered == old(delivered) + [p]
      ensures old(weather) == [] ==> ok && weather == []
    {
      var how := if weather == [] then Delivered else weather[0];
      if weather != [] {
        weather := weather[1..];
      }
      if !how.NotDelivered? {
        delivered := delivered + [p];
      }
      ok := how.Delivered?;
    }
  }

  // --- conservation ----------------------------------------------------------

  /** `places[i]` says which appended pair the i-th delivery carried: deliveries follow the
      order of appending, skip nothing, and may only repeat the pair delivered last. */
  predicate Follows(delivered: seq<Pair>, appended: seq<Pair>, places: seq<nat>) {
    && |places| == |delivered|
    && (forall i :: 0 <= i < |places| ==> places[i] < |appended| && delivered[i] == appended[places[i]])
    && (places != [] ==> places[0] == 0)
    && (forall i :: 0 < i < |places| ==> places[i - 1] <= places[i] <= places[i - 1] + 1)
  }

  /** How many of the appended pairs have been delivered at least once. */
  function Reached(places: seq<nat>): nat {
    if places == [] then 0 else places[|places| - 1] + 1
  }

  /** Deliveries beyond the first of each pair. */
  function Repeats(places: seq<nat>): int {
    |places| - Reached(places)
  }

  /** The deliveries with adjacent repeats of one appended pair collapsed. */
  function Firsts(delivered: seq<Pair>, places: seq<nat>): seq<Pair>
    requires |places| == |delivered|
  {
    if places == [] then []
    else
      var last := |places| - 1;
      Firsts(delivered[..last], places[..last]) +
      if last > 0 && places[last] == places[last - 1] then [] else [delivered[last]]
  }

  lemma FollowsSoFar(delivered: seq<Pair>, appended: seq<Pair>, places: seq<nat>)
    requires Follows(delivered, appended, places)
    ensures |places| == |delivered|
    ensures places != [] ==>
              var last := |places| - 1;
              && Follows(delivered[..last], appended, places[..last])
              && places[last] < |appended| && delivered[last] == appended[places[last]]
              && if last == 0 then places[0] == 0 else places[last - 1] <= places[last] <= places[last - 1] + 1
  {
  }

  lemma PrefixGrows(appended: seq<Pair>, k: nat)
    requires k < |appended|
    ensures appended[..k + 1] == appended[..k] + [appended[k]]
  {
  }

  /** Nothing is lost and nothing overtakes: the first deliveries are a prefix of what was
      appended, as long as the place that was reached. */
  lemma {:induction false} FirstsAreAPrefix(delivered: seq<Pair>, appended: seq<Pair>, places: seq<nat>)
    requires Follows(delivered, appended, places)
    ensures Reached(places) <= |appended| && Reached(places) <= |places| == |delivered|
    ensures Firsts(delivered, places) == appended[..Reached(places)]
  {
    hide Follows;
    FollowsSoFar(delivered, appended, places);
    if places != [] {
      var last := |places| - 1;
      FirstsAreAPrefix(delivered[..last], appended, places[..last]);
      PrefixGrows(appended, places[last]);
    }
  }

  lemma OneMoreDelivery(delivered: seq<Pair>, appended: seq<Pair>, places: seq<nat>, place: nat)
    requires Follows(delivered, appended, places) && place < |appended|
    requires place <= Reached(places) <= place + 1
    ensures Follows(delivered + [appended[place]], appended, places + [place])
    ensures Reached(places + [place]) == place + 1
  {
  }

  /** `kept` is a suffix of what was appended; what is no longer kept has been delivered; at
      most the one pair delivered last may still be kept; and every repeated delivery, past or
      due, is paid for by a mishap of its own. */
  predicate Conserves(delivered: seq<Pair>, appended: seq<Pair>, places: seq<nat>, kept: seq<Pair>, mishaps: nat) {
    && Follows(delivered, appended, places)
    && |kept| <= |appended|
    && var from := |appended| - |kept|;
    && kept == appended[from..]
    && from <= Reached(places) <= from + 1
    && Repeats(places) + Reached(places) - from <= mishaps
  }

  lemma AppendConserves(delivered: seq<Pair>, appended: seq<Pair>, places: seq<nat>, kept: seq<Pair>,
                        mishaps: nat, p: Pair)
    requires Conserves(delivered, appended, places, kept, mishaps)
    ensures Conserves(delivered, appended + [p], places, kept + [p], mishaps)
  {
    FirstsAreAPrefix(delivered, appended, places);
    var from := |appended| - |kept|;
    assert (appended + [p])[from..] == appended[from..] + [p];
  }

  /** The head of the box arrives: until it is crossed out, one repetition is due. */
  lemma ArrivalConserves(delivered: seq<Pair>, appended: seq<Pair>, places: seq<nat>, kept: seq<Pair>, mishaps: nat)
    requires Conserves(delivered, appended, places, kept, mishaps) && kept != []
    ensures var from := |appended| - |kept|;
            && Conserves(delivered + [kept[0]], appended, places + [from], kept, mishaps + 1)
            && Reached(places + [from]) == from + 1
  {
    hide Follows, Reached;
    var from := |appended| - |kept|;
    assert kept[0] == appended[from];
    OneMoreDelivery(delivered, appended, places, from);
  }

  lemma CrossingOutConserves(delivered: seq<Pair>, appended: seq<Pair>, places: seq<nat>, kept: seq<Pair>, mishaps: nat)
    requires Conserves(delivered, appended, places, kept, mishaps + 1) && kept != []
    requires Reached(places) == |appended| - |kept| + 1
    ensures Conserves(delivered, appended, places, kept[1..], mishaps)
  {
  }

  /** Nothing is lost: the first deliveries, and then the box without the pair it may share
      with them, are together exactly what was appended, in order; and there are at most as
      many repeated deliveries as there were mishaps between an arrival and its rewrite. */
  lemma NothingLostNothingInvented(delivered: seq<Pair>, appended: seq<Pair>, places: seq<nat>, kept: seq<Pair>,
                                   mishaps: nat)
    requires Conserves(delivered, appended, places, kept, mishaps)
    ensures var firsts := Firsts(delivered, places);
            var overlap := |firsts| + |kept| - |appended|;
            0 <= overlap <= 1 && overlap <= |kept| && firsts + kept[overlap..] == appended
    ensures |delivered| <= |Firsts(delivered, places)| + mishaps
  {
    hide Firsts, Follows;
    FirstsAreAPrefix(delivered, appended, places);
    Overlap(appended, kept, Reached(places));
  }

  lemma Overlap(appended: seq<Pair>, kept: seq<Pair>, reached: nat)
    requires |kept| <= |appended| && kept == appended[|appended| - |kept|..]
    requires |appended| - |kept| <= reached <= |appended|
    ensures appended[..reached] + kept[reached + |kept| - |appended|..] == appended
  {
    assert kept[reached + |kept| - |appended|..] == appended[reached..];
  }

  // --- the file --------------------------------------------------------------

  function PairsOf(lines: seq<Line>): (pairs: seq<Pair>)
    ensures |pairs| <= |lines|
  {
    if lines == [] then []
    else PairsOf(lines[..|lines| - 1]) + if lines[|lines| - 1].PairLine? then [lines[|lines| - 1].pair] else []
  }

  /** Blank lines are passed over; any other line must read back as a whole pair. */
  predicate Readable(lines: seq<Line>) {
    forall i :: 0 <= i < |lines| ==> lines[i].BlankLine? || (lines[i].PairLine? && IsWhole(lines[i].pair))
  }

  function LinesOf(pairs: seq<Pair>): seq<Line> {
    seq(|pairs|, i requires 0 <= i < |pairs| => PairLine(pairs[i]))
  }

  lemma {:induction false} PairsOfLines(pairs: seq<Pair>)
    ensures PairsOf(LinesOf(pairs)) == pairs
  {
    if pairs != [] {
      var init := pairs[..|pairs| - 1];
      assert LinesOf(pairs)[..|pairs| - 1] == LinesOf(init);
      PairsOfLines(init);
    }
  }

  class PairBuffer {
    const graph: Graph
    /** The lines of the outbox file; an absent file has none. */
    var box: seq<Line>
    /** Durable steps left before the machine dies. */
    var power: nat
    /** Which of the coming disk operations fail; afterwards the disk is in order. */
    var faults: seq<bool>

    /** Every pair whose recording was reported as done. */
    ghost var appended: seq<Pair>
    /** Which appended pair each delivery carried. */
    ghost var places: seq<nat>
    /** Crashes and failures that happened between the arrival of a pair and its rewrite. */
    ghost var mishaps: nat

    ghost predicate Valid()
      reads this, graph
    {
      Conserves(graph.delivered, appended, places, PairsOf(box), mishaps)
    }

    constructor (graph: Graph, power: nat, faults: seq<bool>)
      requires graph.delivered == []
      ensures Valid() && this.graph == graph && appended == [] && box == [] && mishaps == 0
    {
      this.graph := graph;
      this.box := [];
      this.power := power;
      this.faults := faults;
      this.appended := [];
      this.places := [];
      this.mishaps := 0;
    }

    /** One durable disk operation is allowed to happen, is refused by the disk, or is the
        moment at which the machine dies. */
    method Durable() returns (r: Outcome<()>)
      modifies this`power, this`faults
      ensures r.Crashed? ==> power == 0
      ensures r.Refused? ==> r == Refused(DiskError)
      ensures old(power) > 0 && old(faults) == [] ==> r.Fine? && faults == [] && power == old(power) - 1
    {
      if power == 0 {
        return Crashed;
      }
      power := power - 1;
      if faults == [] {
        return Fine(());
      }
      var fault := faults[0];
      faults := faults[1..];
      return if fault then Refused(DiskError) else Fine(());
    }

    /** Record a pair before any attempt at the graph. */
    method Append(pair: Pair, now: string) returns (r: Outcome<()>)
      requires Valid()
      modifies this
      ensures Valid() && mishaps == old(mishaps) && places == old(places)
      ensures r == Refused(HalfPair) <==>
                || Blank(pair.agentPhrasing) || Blank(pair.operatorSignal)
                || (Blank(pair.expansion) != Blank(pair.operatorReaction))
      ensures IsWhole(pair) && old(power) > 0 && old(faults) == [] ==> r.Fine?
      ensures r.Fine? ==>
                var stamped := if pair.capturedAt == "" then pair.(capturedAt := now) else pair;
                box == old(box) + [PairLine(stamped)] && appended == old(appended) + [stamped]
      ensures !r.Fine? ==> box == old(box) && appended == old(appended)
    {
      hide Conserves;
      if !IsWhole(pair) {
        return Refused(HalfPair);
      }
      var stamped := if pair.capturedAt == "" then pair.(capturedAt := now) else pair;
      var _ :- Durable();
      AppendConserves(graph.delivered, appended, places, PairsOf(box), mishaps, stamped);
      box := box + [PairLine(stamped)];
      appended := appended + [stamped];
      assert box[..|box| - 1] == old(box);
      return Fine(());
    }

    /** What stands in the outbox; a damaged line or a half pair refuses the whole reading. */
    method Pending() returns (r: Outcome<seq<Pair>>)
      ensures !r.Crashed?
      ensures r == Refused(DamagedLine) || r.Fine?
      ensures r.Fine? <==> Readable(box)
      ensures r.Fine? ==> r.value == PairsOf(box)
    {
      var pairs := [];
      for i := 0 to |box|
        invariant Readable(box[..i])
        invariant pairs == PairsOf(box[..i])
      {
        assert box[..i + 1][..i] == box[..i];
        match box[i] {
          case BlankLine =>
          case Damaged => return Refused(DamagedLine);
          case PairLine(pair) =>
            if !IsWhole(pair) {
              return Refused(DamagedLine);
            }
            pairs := pairs + [pair];
        }
      }
      assert box[..|box|] == box;
      return Fine(pairs);
    }

    method Rewrite(remaining: seq<Pair>) returns (r: Outcome<()>)
      modifies this`box, this`power, this`faults
      ensures old(power) > 0 && old(faults) == [] ==> r.Fine? && faults == [] && power == old(power) - 1
      ensures r.Fine? ==> PairsOf(box) == remaining && (box == [] || box == LinesOf(remaining))
      ensures !r.Fine? ==> box == old(box)
    {
      var _ :- Durable();
      if remaining == [] {
        box := [];
      } else {
        box := LinesOf(remaining);
        PairsOfLines(remaining);
      }
      return Fine(());
    }

    /** The graph answers, the disk is in order, and the machine lasts for so many steps. */
    predicate Calm(steps: nat)
      reads this, graph
    {
      graph.weather == [] && faults == [] && power >= steps
    }

    /** The body of the sending loop: the pair at the head goes out, and leaves the outbox durably
        right after its own success. A mishap is counted exactly when the pair arrived and the head
        nevertheless stayed in the outbox. */
    method SendHead(remaining: seq<Pair>, pair: Pair) returns (r: Outcome<()>)
      requires Valid() && PairsOf(box) == [pair] + remaining
      modifies this, graph
      ensures Valid() && appended == old(appended)
      ensures graph.delivered == old(graph.delivered) || graph.delivered == old(graph.delivered) + [pair]
      ensures r.Fine? ==> graph.delivered == old(graph.delivered) + [pair]
      ensures mishaps == old(mishaps) + if !r.Fine? && graph.delivered != old(graph.delivered) then 1 else 0
      ensures if r.Fine? then PairsOf(box) == remaining else box == old(box)
      ensures old(Calm(1)) ==> r.Fine? && Calm(0) && power == old(power) - 1
    {
      hide Conserves, Readable, PairsOf, Reached, Follows, Repeats, LinesOf, IsWhole, Blank;
      ghost var kept, before := PairsOf(box), graph.delivered;
      SuffixFits(before, appended, places, kept, mishaps);
      var ok := graph.SendPair(pair);
      if graph.delivered != before {
        ArrivalConserves(before, appended, places, kept, mishaps);
        places := places + [|appended| - |kept|];
        mishaps := mishaps + 1;
      }
      if !ok {
        return Refused(GraphUnavailable);
      }
      var _ :- Rewrite(remaining);
      mishaps := mishaps - 1;
      CrossingOutConserves(graph.delivered, appended, places, kept, mishaps);
      assert kept[1..] == remaining;
      return Fine(());
    }

    /** Send on what has accumulated, as far as it gets: pairs leave the box in order, and what
        arrived is what left it, and at most the one pair more that is counted as a mishap. */
    method Flush() returns (r: Outcome<nat>)
      requires Valid()
      modifies this, graph
      ensures Valid() && appended == old(appended)
      ensures SentOn(PairsOf(old(box)), PairsOf(box), old(graph.delivered), graph.delivered, mishaps - old(mishaps))
      ensures !Readable(old(box)) ==>
                r == Refused(DamagedLine) && box == old(box) && graph.delivered == old(graph.delivered)
      ensures r.Fine? ==> PairsOf(box) == [] && r.value == |PairsOf(old(box))| && mishaps == old(mishaps)
      ensures r.Fine? ==> graph.delivered == old(graph.delivered) + PairsOf(old(box))
      ensures Readable(old(box)) && old(Calm(|PairsOf(box)|)) ==> r.Fine?
    {
      hide Conserves, Readable, PairsOf, Reached, Follows, Repeats, LinesOf, IsWhole, Blank, SentOn;
      NothingSent(PairsOf(box), graph.delivered);
      var pairs :- Pending();
      var sent := 0;
      while sent < |pairs|
        invariant 0 <= sent <= |pairs| && Valid() && appended == old(appended)
        invariant PairsOf(box) == pairs[sent..] && mishaps == old(mishaps)
        invariant old(Calm(|PairsOf(box)|)) ==> Calm(|pairs| - sent)
        invariant graph.delivered == old(graph.delivered) + pairs[..sent]
        invariant SentOn(pairs, PairsOf(box), old(graph.delivered), graph.delivered, 0)
      {
        var pair := pairs[sent];
        sent := sent + 1;
        assert pairs[sent - 1..] == [pair] + pairs[sent..];
        SentOneMore(pairs, old(graph.delivered), sent);
        var step := SendHead(pairs[sent..], pair);
        var _ :- step;
      }
      return Fine(sent);
    }
  }

  /** Of these pairs the kept ones are what is left of the box, the new deliveries are what came
      from its front, and there are as many of them as have left the box, and `more`. */
  predicate SentOn(pairs: seq<Pair>, kept: seq<Pair>, was: seq<Pair>, now: seq<Pair>, more: int) {
    var gone, arrived := |pairs| - |kept|, |now| - |was|;
    && 0 <= gone <= arrived <= gone + 1 && arrived <= |pairs|
    && kept == pairs[gone..] && now == was + pairs[..arrived] && more == arrived - gone
  }

  lemma NothingSent(pairs: seq<Pair>, was: seq<Pair>)
    ensures SentOn(pairs, pairs, was, was, 0)
  {
  }

  /** The ways in which the attempt at one more pair can leave the box and the graph. */
  lemma SentOneMore(pairs: seq<Pair>, was: seq<Pair>, sent: nat)
    requires 0 < sent <= |pairs|
    ensures was + pairs[..sent - 1] + [pairs[sent - 1]] == was + pairs[..sent]
    ensures SentOn(pairs, pairs[sent..], was, was + pairs[..sent], 0)
    ensures SentOn(pairs, pairs[sent - 1..], was, was + pairs[..sent], 1)
    ensures SentOn(pairs, pairs[sent - 1..], was, was + pairs[..sent - 1], 0)
  {
    assert pairs[..sent] == pairs[..sent - 1] + [pairs[sent - 1]];
  }

  lemma SuffixFits(delivered: seq<Pair>, appended: seq<Pair>, places: seq<nat>, kept: seq<Pair>, mishaps: nat)
    requires Conserves(delivered, appended, places, kept, mishaps)
    ensures |kept| <= |appended|
  {
  }
}
