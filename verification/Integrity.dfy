/** What the gate asks of an append-only channel before it trusts the newest phases: that no later
    publication contradicts or hides an earlier one. */
module Integrity {
  import opened Wrappers
  import opened Evidence
  import Channel

  /** A phase as a statement about something: what it speaks of, and what it says. */
  type Statement<!K, !V> = Phase -> Option<(K, V)>

  function RecordStatement(p: Phase): Option<(string, Record)> {
    if p.content.RunRecord? then Some((p.content.record.id, p.content.record)) else None
  }

  /** What the transcript of a reading fixes: its findings in full, in any order, the fingerprint
      they were read under, and the anchors they may use. The marks of a carry are not in it. */
  function BlindStatement(p: Phase): Option<(string, (multiset<Item>, string, multiset<string>))> {
    if p.content.BlindFindings? then
      Some((p.content.findings.recordId,
            (multiset(p.content.findings.items), p.content.findings.digest, multiset(p.content.publicItems))))
    else None
  }

  function StrategicStatement(p: Phase): Option<(string, (multiset<Item>, string))> {
    if p.content.StrategicFindings? then
      Some((p.content.findings.recordId, (multiset(p.content.findings.items), p.content.findings.digest)))
    else None
  }

  function MachineStatement(p: Phase): Option<(string, (multiset<Item>, string))> {
    if p.content.MachineFindings? then
      Some((p.content.findings.recordId, (multiset(p.content.findings.items), p.content.findings.digest)))
    else None
  }

  function TakeawayStatement(p: Phase): Option<((int, int), Declarations)> {
    if p.content.IntentTakeaway? then Some(((p.artifactSeq, p.content.iteration), p.content.declarations)) else None
  }

  ghost predicate SameSubject<K, V>(s: Statement<K, V>, p: Phase, q: Phase) {
    s(p).Some? && s(q).Some? && s(p).value.0 == s(q).value.0
  }

  /** Phases that speak of one thing say the same of it. */
  ghost predicate Agree<K, V>(phases: seq<Phase>, s: Statement<K, V>) {
    forall p, q :: p in phases && q in phases && SameSubject(s, p, q) ==> s(p).value.1 == s(q).value.1
  }

  // --- claim maps -------------------------------------------------------------------

  function RowIds(p: Phase): set<string> {
    if p.content.ClaimMap? then set row | row in p.content.rows :: row.id else {}
  }

  predicate SameMap(p: Phase, q: Phase) {
    p.content.ClaimMap? && q.content.ClaimMap? && p.artifactSeq == q.artifactSeq && p.content.round == q.content.round
  }

  /** A row once published for a version and a round is in every later map for them. */
  predicate RowsStay(phases: seq<Phase>) {
    forall i, j :: 0 <= i < j < |phases| && SameMap(phases[i], phases[j]) ==> RowIds(phases[i]) <= RowIds(phases[j])
  }

  // --- the checks -------------------------------------------------------------------

  /** Every statement is held against the first one about the same thing. */
  method Contradictions<K(==), V(==)>(phases: seq<Phase>, s: Statement<K, V>) returns (subjects: seq<K>)
    ensures subjects == [] <==> Agree(phases, s)
  {
    subjects := [];
    var first: map<K, V> := map[];
    for i := 0 to |phases|
      invariant forall k :: k in first ==> exists p :: p in phases[..i] && s(p) == Some((k, first[k]))
      invariant forall p :: p in phases[..i] && s(p).Some? ==> s(p).value.0 in first
      invariant subjects == [] <==> forall p :: p in phases[..i] && s(p).Some? ==> s(p).value.1 == first[s(p).value.0]
    {
      var p := phases[i];
      assert phases[..i + 1] == phases[..i] + [p];
      if s(p).Some? {
        var (subject, word) := s(p).value;
        if subject in first {
          if first[subject] != word {
            subjects := subjects + [subject];
          }
        } else {
          first := first[subject := word];
        }
      }
    }
    assert phases[..|phases|] == phases;
    if subjects != [] {
      var p :| p in phases && s(p).Some? && s(p).value.1 != first[s(p).value.0];
      var q :| q in phases && s(q) == Some((s(p).value.0, first[s(p).value.0]));
      assert SameSubject(s, p, q);
    }
  }

  /** The rows of every map of one version and round up to here. */
  function SeenRows(phases: seq<Phase>, like: Phase): set<string> {
    if phases == [] then {}
    else
      SeenRows(phases[..|phases| - 1], like) +
      if SameMap(phases[|phases| - 1], like) then RowIds(phases[|phases| - 1]) else {}
  }

  lemma {:induction false} SeenRowsAreAll(phases: seq<Phase>, like: Phase, i: nat)
    requires i < |phases| && SameMap(phases[i], like)
    ensures RowIds(phases[i]) <= SeenRows(phases, like)
  {
    if i < |phases| - 1 {
      SeenRowsAreAll(phases[..|phases| - 1], like, i);
    }
  }

  lemma {:induction false} SeenRowsAreSome(phases: seq<Phase>, like: Phase, row: string)
    requires row in SeenRows(phases, like)
    ensures exists i :: 0 <= i < |phases| && SameMap(phases[i], like) && row in RowIds(phases[i])
  {
    var init := phases[..|phases| - 1];
    if row in SeenRows(init, like) {
      SeenRowsAreSome(init, like, row);
      var i :| 0 <= i < |init| && SameMap(init[i], like) && row in RowIds(init[i]);
      assert phases[i] == init[i];
    }
  }

  lemma RowsStayWithOneMore(phases: seq<Phase>, p: Phase)
    ensures RowsStay(phases + [p]) <==>
            RowsStay(phases) && (p.content.ClaimMap? ==> SeenRows(phases, p) <= RowIds(p))
  {
    hide RowIds, SeenRows;
    var later := phases + [p];
    if RowsStay(later) {
      forall i, j | 0 <= i < j < |phases| && SameMap(phases[i], phases[j])
        ensures RowIds(phases[i]) <= RowIds(phases[j])
      {
        assert later[i] == phases[i] && later[j] == phases[j];
      }
      forall row | p.content.ClaimMap? && row in SeenRows(phases, p)
        ensures row in RowIds(p)
      {
        SeenRowsAreSome(phases, p, row);
        var i :| 0 <= i < |phases| && SameMap(phases[i], p) && row in RowIds(phases[i]);
        assert later[i] == phases[i] && later[|phases|] == p;
      }
    }
    if RowsStay(phases) && (p.content.ClaimMap? ==> SeenRows(phases, p) <= RowIds(p)) {
      forall i, j | 0 <= i < j < |later| && SameMap(later[i], later[j])
        ensures RowIds(later[i]) <= RowIds(later[j])
      {
        if j == |phases| {
          SeenRowsAreAll(phases, p, i);
        } else {
          assert later[i] == phases[i] && later[j] == phases[j];
        }
      }
    }
  }

  /** A row that was seen in any earlier map of the version and round may not be missing. */
  method VanishedRows(phases: seq<Phase>) returns (lossy: seq<int>)
    ensures lossy == [] <==> RowsStay(phases)
  {
    hide RowIds, RowsStay, SeenRows;
    lossy := [];
    var seen: map<(int, Option<int>), set<string>> := map[];
    NothingVanished(phases[..0]);
    for i := 0 to |phases|
      invariant lossy == [] <==> RowsStay(phases[..i])
      invariant forall p: Phase :: p.content.ClaimMap? ==>
                  SeenRows(phases[..i], p)
                  == if (p.artifactSeq, p.content.round) in seen then seen[(p.artifactSeq, p.content.round)] else {}
    {
      var p := phases[i];
      assert phases[..i + 1] == phases[..i] + [p];
      RowsStayWithOneMore(phases[..i], p);
      forall q: Phase
        ensures SeenRows(phases[..i + 1], q) == SeenRows(phases[..i], q) + if SameMap(p, q) then RowIds(p) else {}
      {
        SeenOneMore(phases[..i], p, q);
      }
      if p.content.ClaimMap? {
        var key := (p.artifactSeq, p.content.round);
        var before := if key in seen then seen[key] else {};
        var vanished := before - RowIds(p);
        if vanished != {} {
          lossy := lossy + [p.seqNo];
        } else {
          assert forall row :: row in before ==> row !in vanished;
        }
        seen := seen[key := before + RowIds(p)];
      }
    }
    assert phases[..|phases|] == phases;
  }

  lemma NothingVanished(phases: seq<Phase>)
    requires phases == []
    ensures RowsStay(phases) && forall p :: SeenRows(phases, p) == {}
  {
  }

  lemma SeenOneMore(phases: seq<Phase>, p: Phase, like: Phase)
    ensures SeenRows(phases + [p], like) == SeenRows(phases, like) + if SameMap(p, like) then RowIds(p) else {}
  {
    assert (phases + [p])[..|phases|] == phases;
  }

  // --- the gate's condition as a whole ------------------------------------------------

  /** The channel does not contradict itself. */
  ghost predicate Whole(phases: seq<Phase>) {
    && Agree(phases, RecordStatement)
    && Agree(phases, BlindStatement)
    && Agree(phases, StrategicStatement)
    && Agree(phases, MachineStatement)
    && Agree(phases, TakeawayStatement)
    && RowsStay(phases)
  }

  /** Two phases that speak of one thing do not differ in what they say: one record in every field,
      one reading in its findings, fingerprint and anchors, one version and iteration in everything
      the operator declared. */
  ghost predicate Compatible(p: Phase, q: Phase) {
    match (p.content, q.content)
    case (RunRecord(a), RunRecord(b)) => a.id == b.id ==> a == b
    case (BlindFindings(f, s), BlindFindings(g, t)) =>
      f.recordId == g.recordId ==>
        multiset(f.items) == multiset(g.items) && f.digest == g.digest && multiset(s) == multiset(t)
    case (StrategicFindings(f, _), StrategicFindings(g, _)) =>
      f.recordId == g.recordId ==> multiset(f.items) == multiset(g.items) && f.digest == g.digest
    case (MachineFindings(f), MachineFindings(g)) =>
      f.recordId == g.recordId ==> multiset(f.items) == multiset(g.items) && f.digest == g.digest
    case (IntentTakeaway(i, a), IntentTakeaway(j, b)) => p.artifactSeq == q.artifactSeq && i == j ==> a == b
    case _ => true
  }

  /** The later of two maps of one version and round still has every number of the earlier. */
  ghost predicate KeepsRows(p: Phase, q: Phase) {
    match (p.content, q.content)
    case (ClaimMap(i, rows), ClaimMap(j, later)) =>
      p.artifactSeq == q.artifactSeq && i == j ==>
        forall row :: row in rows ==> exists other :: other in later && other.id == row.id
    case _ => true
  }

  ghost predicate SaySame<K, V>(s: Statement<K, V>, p: Phase, q: Phase) {
    SameSubject(s, p, q) ==> s(p).value.1 == s(q).value.1
  }

  lemma CompatibleMeansSame(p: Phase, q: Phase)
    ensures Compatible(p, q) <==>
              && SaySame(RecordStatement, p, q) && SaySame(BlindStatement, p, q) && SaySame(StrategicStatement, p, q)
              && SaySame(MachineStatement, p, q) && SaySame(TakeawayStatement, p, q)
  {
  }

  lemma AgreeMeansSame<K, V>(phases: seq<Phase>, s: Statement<K, V>)
    ensures Agree(phases, s) <==> forall p, q :: p in phases && q in phases ==> SaySame(s, p, q)
  {
  }

  lemma RowsStayMeansKept(p: Phase, q: Phase)
    ensures KeepsRows(p, q) <==> (SameMap(p, q) ==> RowIds(p) <= RowIds(q))
  {
    if SameMap(p, q) {
      if KeepsRows(p, q) {
        forall row | row in p.content.rows
          ensures row.id in RowIds(q)
        {
          var other :| other in q.content.rows && other.id == row.id;
        }
      }
      if RowIds(p) <= RowIds(q) {
        forall row | row in p.content.rows
          ensures exists other :: other in q.content.rows && other.id == row.id
        {
          assert row.id in RowIds(p);
        }
      }
    }
  }

  /** A channel does not contradict itself exactly when any two of its phases are compatible and no
      later map has lost a row. */
  lemma WholeExactly(phases: seq<Phase>)
    ensures Whole(phases) <==>
              && (forall p, q :: p in phases && q in phases ==> Compatible(p, q))
              && (forall i, j :: 0 <= i < j < |phases| ==> KeepsRows(phases[i], phases[j]))
  {
    hide Compatible, KeepsRows, RowIds, SameMap, SaySame, Agree;
    hide RecordStatement, BlindStatement, StrategicStatement, MachineStatement, TakeawayStatement;
    AgreeMeansSame(phases, RecordStatement);
    AgreeMeansSame(phases, BlindStatement);
    AgreeMeansSame(phases, StrategicStatement);
    AgreeMeansSame(phases, MachineStatement);
    AgreeMeansSame(phases, TakeawayStatement);
    forall p, q
      ensures Compatible(p, q) <==>
                && SaySame(RecordStatement, p, q) && SaySame(BlindStatement, p, q)
                && SaySame(StrategicStatement, p, q) && SaySame(MachineStatement, p, q)
                && SaySame(TakeawayStatement, p, q)
    {
      CompatibleMeansSame(p, q);
    }
    forall i, j | 0 <= i < j < |phases|
      ensures KeepsRows(phases[i], phases[j]) <==>
                (SameMap(phases[i], phases[j]) ==> RowIds(phases[i]) <= RowIds(phases[j]))
    {
      RowsStayMeansKept(phases[i], phases[j]);
    }
  }

  datatype Refusal =
    | RecordPublishedTwice(recordId: string)
    | FindingsContradict(recordId: string)
    | DeclarationsContradict(subject: (int, int))
    | RowsVanished(seqNo: int)

  function Each<T>(subjects: seq<T>, refusal: T -> Refusal): (refusals: seq<Refusal>)
    ensures |refusals| == |subjects|
  {
    seq(|subjects|, i requires 0 <= i < |subjects| => refusal(subjects[i]))
  }

  /** Every reason why the channel contradicts itself; none exactly when it does not. */
  method IntegrityRefusals(phases: seq<Phase>) returns (refusals: seq<Refusal>)
    ensures refusals == [] <==> Whole(phases)
  {
    hide Agree, RowsStay;
    var records := Contradictions(phases, RecordStatement);
    var blind := Contradictions(phases, BlindStatement);
    var strategic := Contradictions(phases, StrategicStatement);
    var machine := Contradictions(phases, MachineStatement);
    var takeaways := Contradictions(phases, TakeawayStatement);
    var lossy := VanishedRows(phases);
    refusals := Each(records, id => RecordPublishedTwice(id))
      + Each(blind + strategic + machine, id => FindingsContradict(id))
      + Each(takeaways, subject => DeclarationsContradict(subject))
      + Each(lossy, seqNo => RowsVanished(seqNo));
    assert |refusals| == |records| + |blind| + |strategic| + |machine| + |takeaways| + |lossy|;
  }

  lemma AgreementOfPrefix<K, V>(earlier: seq<Phase>, later: seq<Phase>, s: Statement<K, V>)
    requires earlier <= later && Agree(later, s)
    ensures Agree(earlier, s)
  {
    forall p, q | p in earlier && q in earlier && SameSubject(s, p, q)
      ensures s(p).value.1 == s(q).value.1
    {
      assert p in later && q in later;
    }
  }

  /** No publication can mend a channel that contradicts itself. */
  lemma ContradictionsAreForGood(earlier: seq<Phase>, later: seq<Phase>)
    requires earlier <= later && !Whole(earlier)
    ensures !Whole(later)
  {
    hide Agree, RowIds;
    if Whole(later) {
      AgreementOfPrefix(earlier, later, RecordStatement);
      AgreementOfPrefix(earlier, later, BlindStatement);
      AgreementOfPrefix(earlier, later, StrategicStatement);
      AgreementOfPrefix(earlier, later, MachineStatement);
      AgreementOfPrefix(earlier, later, TakeawayStatement);
    }
  }

  /** The same on the wire: whatever anybody posts to a channel that once showed a contradiction,
      takings-back included, the gate that reads it later refuses or cannot read it at all. */
  lemma EvidenceCannotBeBuried(earlier: seq<Channel.Message>, later: seq<Channel.Message>)
    requires earlier <= later && !Whole(Channel.PhasesOf(earlier))
    ensures !Whole(Channel.PhasesOf(later))
  {
    Channel.ReadingsGrow(earlier, later);
    ContradictionsAreForGood(Channel.PhasesOf(earlier), Channel.PhasesOf(later));
  }

  // --- the newest phase may be taken for all of them ----------------------------------

  /** The gate's choice: the last phase of its sort for one version. */
  function Newest(phases: seq<Phase>, sort: Phase -> bool, artifactSeq: int): (r: Option<Phase>)
    ensures r.Some? ==> sort(r.value) && r.value.artifactSeq == artifactSeq && r.value in phases
    ensures r.None? ==> forall p :: p in phases ==> !(sort(p) && p.artifactSeq == artifactSeq)
  {
    if phases == [] then None
    else
      var last := phases[|phases| - 1];
      assert phases == phases[..|phases| - 1] + [last];
      if sort(last) && last.artifactSeq == artifactSeq then Some(last)
      else Newest(phases[..|phases| - 1], sort, artifactSeq)
  }

  lemma {:induction false} NewestIsLast(phases: seq<Phase>, sort: Phase -> bool, artifactSeq: int) returns (i: nat)
    requires Newest(phases, sort, artifactSeq).Some?
    ensures i < |phases| && phases[i] == Newest(phases, sort, artifactSeq).value
    ensures forall j :: i < j < |phases| ==> !(sort(phases[j]) && phases[j].artifactSeq == artifactSeq)
  {
    i := |phases| - 1;
    if !(sort(phases[i]) && phases[i].artifactSeq == artifactSeq) {
      i := NewestIsLast(phases[..i], sort, artifactSeq);
    }
  }

  predicate IsBlind(p: Phase) {
    p.content.BlindFindings?
  }

  predicate IsMap(p: Phase) {
    p.content.ClaimMap?
  }

  /** The newest findings phase of a record says what every earlier one said. */
  lemma NewestSpeaksForItsRecord(phases: seq<Phase>, artifactSeq: int, p: Phase)
    requires Whole(phases) && p in phases && p.content.BlindFindings?
    requires Newest(phases, IsBlind, artifactSeq).Some?
    requires Newest(phases, IsBlind, artifactSeq).value.content.findings.recordId == p.content.findings.recordId
    ensures var newest := Newest(phases, IsBlind, artifactSeq).value;
            && multiset(newest.content.findings.items) == multiset(p.content.findings.items)
            && newest.content.findings.digest == p.content.findings.digest
            && multiset(newest.content.publicItems) == multiset(p.content.publicItems)
  {
    assert SameSubject(BlindStatement, Newest(phases, IsBlind, artifactSeq).value, p);
  }

  /** The newest claim map holds every row ever published for its version and round. */
  lemma NewestMapHoldsAllRows(phases: seq<Phase>, artifactSeq: int, p: Phase)
    requires Whole(phases) && p in phases && Newest(phases, IsMap, artifactSeq).Some?
    requires SameMap(p, Newest(phases, IsMap, artifactSeq).value)
    ensures RowIds(p) <= RowIds(Newest(phases, IsMap, artifactSeq).value)
  {
    hide RowIds, Agree;
    var i := NewestIsLast(phases, IsMap, artifactSeq);
    var k :| 0 <= k < |phases| && phases[k] == p;
    assert k <= i;
    if k < i {
      assert SameMap(phases[k], phases[i]);
    }
  }

  /** What these conditions do not promise: they bind phases that name one record. The findings of
      a version as the gate sees them are a later reading's own as soon as the newest phase names
      another record; this is the only way for them to differ. */
  lemma OnlyAnotherRecordReplaces(phases: seq<Phase>, artifactSeq: int, p: Phase)
    requires Whole(phases) && p in phases && p.content.BlindFindings? && p.artifactSeq == artifactSeq
    ensures Newest(phases, IsBlind, artifactSeq).Some?
    ensures var newest := Newest(phases, IsBlind, artifactSeq).value;
            multiset(newest.content.findings.items) != multiset(p.content.findings.items) ==>
              newest.content.findings.recordId != p.content.findings.recordId
  {
    hide RowsStay;
    if Newest(phases, IsBlind, artifactSeq).value.content.findings.recordId == p.content.findings.recordId {
      NewestSpeaksForItsRecord(phases, artifactSeq, p);
    }
  }

  lemma AnotherReadingMayReplace(item: Item, artifactSeq: int)
    ensures exists phases: seq<Phase> ::
              && Whole(phases) && |phases| == 2
              && phases[0].content.BlindFindings? && item in phases[0].content.findings.items
              && Newest(phases, IsBlind, artifactSeq) == Some(phases[1])
              && phases[1].content.BlindFindings? && item !in phases[1].content.findings.items
  {
    var first := Phase(1, "", artifactSeq, BlindFindings(Findings("a", "", [item], 1, None), []));
    var second := Phase(2, "", artifactSeq, BlindFindings(Findings("b", "", [], 1, None), []));
    var phases := [first, second];
    assert first.content.findings.recordId != second.content.findings.recordId;
    assert Agree(phases, BlindStatement);
    assert Newest(phases, IsBlind, artifactSeq) == Some(phases[1]);
    assert Whole(phases);
  }
}
