/** Carrying a credited assessment forward: the findings of its own phase, published again with the
    marks of the carry. */
module Carry {
  import opened Wrappers
  import opened Sequences
  import opened Evidence
  import opened Integrity
  import opened Driver
  import opened TextOrder
  import BlindReport
  import PairCheck

  datatype CarryRefused = NotHandedOver | ChannelUnreadable | NoSourcePhase | SourcesContradict | NotPublishable

  predicate IsSource(p: Phase, recordId: string) {
    p.content.BlindFindings? && p.content.findings.recordId == recordId
  }

  function ItemsOf(p: Phase): multiset<Item> {
    if p.content.BlindFindings? then multiset(p.content.findings.items) else multiset{}
  }

  /** The phases of one record, in order. */
  function Sources(phases: seq<Phase>, recordId: string): (sources: seq<Phase>)
    ensures forall p :: p in sources <==> p in phases && IsSource(p, recordId)
  {
    if phases == [] then []
    else
      var init, last := phases[..|phases| - 1], phases[|phases| - 1];
      assert phases == init + [last];
      Sources(init, recordId) + if IsSource(last, recordId) then [last] else []
  }

  /** The record that goes by this identifier among those handed over. */
  function Named(handed: seq<Record>, id: string): (r: Option<Record>)
    ensures r.Some? ==> r.value in handed && r.value.id == id
    ensures r.None? <==> forall record :: record in handed ==> record.id != id
  {
    if handed == [] then None else if handed[0].id == id then Some(handed[0]) else Named(handed[1..], id)
  }

  /** The anchors a carry is held against: those of its source, or the contract's if it lists none. */
  function Universe(source: Phase, contractItems: seq<string>): seq<string>
    requires source.content.BlindFindings?
  {
    if source.content.publicItems == [] then contractItems else source.content.publicItems
  }

  ghost predicate Contradict(sources: seq<Phase>) {
    exists p, q :: p in sources && q in sources && ItemsOf(p) != ItemsOf(q)
  }

  /** Publish the assessment of an earlier round once more. It copies its source phase, or there
      is no carry. */
  method CarryForward(wire: Wire, handed: seq<Record>, carryFrom: string, channelReads: bool, readerDigest: string,
                      contractItems: seq<string>, artifactSeq: int, iteration: int, lower: string -> string)
    returns (r: Result<Phase, CarryRefused>)
    requires wire.Valid()
    modifies wire
    ensures wire.Valid()
    ensures r.Err? ==> wire.phases == old(wire.phases)
    ensures var sources := Sources(old(wire.phases), carryFrom);
            if Named(handed, carryFrom).None? then r == Err(NotHandedOver)
            else if !channelReads then r == Err(ChannelUnreadable)
            else if sources == [] then r == Err(NoSourcePhase)
            else if Contradict(sources) then r == Err(SourcesContradict)
            else
              var source, newest := Named(handed, carryFrom).value, sources[|sources| - 1];
              && newest in sources && newest.content.BlindFindings?
              && var items, universe := newest.content.findings.items, Universe(newest, contractItems);
              if BlindReport.Publishable(items, Anchors(universe), source.id, readerDigest, lower) then
                && r.Ok? && wire.phases == old(wire.phases) + [r.value]
                && r.value.artifactSeq == artifactSeq
                && r.value.content == BlindFindings(
                     Findings(source.id, readerDigest, items, iteration, Some((source.artifactSeq, source.iteration))),
                     SortedSet(universe))
                && forall p :: p in sources ==> ItemsOf(p) == ItemsOf(r.value)
              else r == Err(NotPublishable)
  {
    hide Grows, PairCheck.Numbered, SortedSet, BlindReport.Publishable;
    var source := Named(handed, carryFrom);
    if source.None? {
      return Err(NotHandedOver);
    }
    if !channelReads {
      return Err(ChannelUnreadable);
    }
    var sources := Sources(wire.phases, carryFrom);
    if sources == [] {
      return Err(NoSourcePhase);
    }
    var latest := sources[|sources| - 1];
    assert latest in sources;
    if exists p :: p in sources && ItemsOf(p) != ItemsOf(latest) {
      return Err(SourcesContradict);
    }
    var items, universe := latest.content.findings.items, Universe(latest, contractItems);
    var problems := BlindReport.PublishRefusals(items, Anchors(universe), source.value.id, readerDigest, lower);
    if problems != [] {
      return Err(NotPublishable);
    }
    var from := Some((source.value.artifactSeq, source.value.iteration));
    var content := BlindFindings(Findings(source.value.id, readerDigest, items, iteration, from), SortedSet(universe));
    var _ := wire.Post(artifactSeq, content);
    return Ok(wire.phases[|wire.phases| - 1]);
  }

  /** A carry re-states its source: on a channel that does not contradict itself it leaves none
      exactly when the fingerprint has not moved, the source listed each anchor once, and it listed
      some if the contract has any. The publisher itself always lists each once, and some. */
  lemma CarryAgreesExactly(phases: seq<Phase>, source: Phase, carried: Phase, contractItems: seq<string>)
    requires Whole(phases) && source in phases && source.content.BlindFindings? && carried.content.BlindFindings?
    requires carried.content.findings.recordId == source.content.findings.recordId
    requires carried.content.findings.items == source.content.findings.items
    requires carried.content.publicItems == SortedSet(Universe(source, contractItems))
    ensures Whole(phases + [carried]) <==>
            && carried.content.findings.digest == source.content.findings.digest
            && NoDuplicates(source.content.publicItems)
            && (source.content.publicItems == [] ==> contractItems == [])
  {
    hide SortedSet, NoDuplicates;
    var later := phases + [carried];
    AnchorsKept(source.content.publicItems, contractItems);
    StillAgree(phases, carried, RecordStatement);
    StillAgree(phases, carried, StrategicStatement);
    StillAgree(phases, carried, MachineStatement);
    StillAgree(phases, carried, TakeawayStatement);
    RowsStayWithOneMore(phases, carried);
    BlindAgreement(phases, source, carried);
  }

  lemma AnchorsKept(items: seq<string>, contractItems: seq<string>)
    ensures multiset(SortedSet(if items == [] then contractItems else items)) == multiset(items) <==>
            NoDuplicates(items) && (items == [] ==> contractItems == [])
  {
    if items == [] {
      if contractItems != [] {
        assert contractItems[0] in contractItems && contractItems[0] in SortedSet(contractItems);
        assert contractItems[0] in multiset(SortedSet(contractItems));
      }
    } else {
      SortedSetKeepsExactly(items);
    }
  }

  lemma StillAgree<K, V>(phases: seq<Phase>, p: Phase, s: Statement<K, V>)
    requires Agree(phases, s) && s(p).None?
    ensures Agree(phases + [p], s)
  {
  }

  lemma BlindAgreement(phases: seq<Phase>, source: Phase, carried: Phase)
    requires Agree(phases, BlindStatement) && source in phases
    requires source.content.BlindFindings? && carried.content.BlindFindings?
    requires carried.content.findings.recordId == source.content.findings.recordId
    ensures Agree(phases + [carried], BlindStatement) <==>
            BlindStatement(carried).value.1 == BlindStatement(source).value.1
  {
    var later := phases + [carried];
    assert carried in later && source in later;
    assert SameSubject(BlindStatement, carried, source);
    if BlindStatement(carried).value.1 == BlindStatement(source).value.1 {
      forall p, q | p in later && q in later && SameSubject(BlindStatement, p, q)
        ensures BlindStatement(p).value.1 == BlindStatement(q).value.1
      {
        var a, b := if p == carried then source else p, if q == carried then source else q;
        assert a in phases && b in phases && SameSubject(BlindStatement, a, b);
      }
    }
  }
}
