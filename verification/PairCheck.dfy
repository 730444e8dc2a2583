/** When a published reading and its canary count: the part of crediting that needs no files. */
module PairCheck {
  import opened Wrappers
  import opened Text
  import opened Snapshot
  import opened Evidence
  import opened TextOrder

  // --- markers ---------------------------------------------------------------------

  lemma ContainsItself(text: string)
    ensures Contains(text, text)
  {
    assert text <= text[0..];
  }

  lemma ContainsIsTransitive(a: string, b: string, c: string)
    requires Contains(a, b) && Contains(b, c)
    ensures Contains(a, c)
  {
    var i :| 0 <= i <= |a| && b <= a[i..];
    var j :| 0 <= j <= |b| && c <= b[j..];
    assert a[i..][..|b|] == b;
    assert c <= a[i + j..] by {
      assert b[j..] == a[i + j..i + |b|];
      assert c == b[j..][..|c|];
      assert a[i + j..][..|c|] == c;
    }
  }

  /** One marker hits an answer; both are lower-cased in the same way. */
  predicate Hits(lower: string -> string, answer: string, marker: string) {
    Contains(lower(answer), lower(marker))
  }

  /** A marker hits exactly the answers that hold it somewhere, letter case aside. */
  lemma HitsAnywhere(lower: string -> string, answer: string, marker: string)
    ensures Hits(lower, answer, marker) <==>
              exists before, after :: lower(answer) == before + lower(marker) + after
  {
    var a, m := lower(answer), lower(marker);
    if Contains(a, m) {
      var i :| 0 <= i <= |a| && m <= a[i..];
      assert a == a[..i] + m + a[i + |m|..];
    }
    if before, after :| a == before + m + after {
      assert m <= a[|before|..];
    }
  }

  /** The machine half of the canary's verdict. */
  predicate CleanAnswer(lower: string -> string, answer: string, markers: seq<string>) {
    forall m :: m in markers ==> !Hits(lower, answer, m)
  }

  /** The stripped markers, without the empty ones. */
  function Cleaned(markers: seq<string>): (cleaned: seq<string>)
    ensures forall p :: p in cleaned <==> p != [] && exists m :: m in markers && Strip(m) == p
  {
    if markers == [] then []
    else
      var init, last := markers[..|markers| - 1], markers[|markers| - 1];
      assert forall m :: m in markers <==> m in init || m == last;
      Cleaned(init) + if Strip(last) == [] then [] else [Strip(last)]
  }

  /** Markers as they are published: stripped, without the empty ones, each once, in order. */
  function PublishedMarkers(markers: seq<string>): seq<string> {
    SortedSet(Cleaned(markers))
  }

  lemma PublishedAreDeclared(markers: seq<string>, p: string)
    ensures p in PublishedMarkers(markers) <==> p != [] && exists m :: m in markers && Strip(m) == p
  {
    hide Strip;
    assert p in Cleaned(markers) <==> p in PublishedMarkers(markers);
  }

  /** The published markers are none exactly when every declared one is blank. */
  lemma NoneArePublished(markers: seq<string>)
    ensures PublishedMarkers(markers) == [] <==> forall m :: m in markers ==> Strip(m) == []
  {
    hide Strip;
    var published := PublishedMarkers(markers);
    forall m | m in markers && Strip(m) != []
      ensures published != []
    {
      PublishedAreDeclared(markers, Strip(m));
    }
    if published != [] {
      PublishedAreDeclared(markers, published[0]);
    }
  }

  lemma HitsItself(lower: string -> string, p: string, markers: seq<string>)
    requires p in markers
    ensures !CleanAnswer(lower, p, markers)
  {
    ContainsItself(lower(p));
    assert Hits(lower, p, p);
  }

  /** The driver judges the answer by the declared markers, the gate scans it again with the
      published ones. An answer that was judged clean is clean for the gate too, whatever the
      answer, exactly when every published marker is itself hit by a declared one. */
  lemma RescanAgreesExactly(lower: string -> string, markers: seq<string>)
    ensures (forall answer :: CleanAnswer(lower, answer, markers) ==>
              CleanAnswer(lower, answer, PublishedMarkers(markers)))
            <==> (forall p :: p in PublishedMarkers(markers) ==> !CleanAnswer(lower, p, markers))
  {
    hide PublishedMarkers, CleanAnswer;
    var published := PublishedMarkers(markers);
    forall p | p in published
      ensures !CleanAnswer(lower, p, published)
    {
      HitsItself(lower, p, published);
    }
    if forall p :: p in published ==> !CleanAnswer(lower, p, markers) {
      forall answer | CleanAnswer(lower, answer, markers)
        ensures CleanAnswer(lower, answer, published)
      {
        RescanOf(lower, answer, markers, published);
      }
    }
  }

  lemma RescanOf(lower: string -> string, answer: string, markers: seq<string>, published: seq<string>)
    requires CleanAnswer(lower, answer, markers)
    requires forall p :: p in published ==> !CleanAnswer(lower, p, markers)
    ensures CleanAnswer(lower, answer, published)
  {
    hide Contains;
    forall p | p in published
      ensures !Hits(lower, answer, p)
    {
      var m :| m in markers && Hits(lower, p, m);
      if Hits(lower, answer, p) {
        ContainsIsTransitive(lower(answer), lower(p), lower(m));
      }
    }
  }

  /** Markers without surrounding space are the ordinary case in which both scans agree. */
  lemma StrippedMarkersAgree(lower: string -> string, markers: seq<string>)
    requires forall m :: m in markers ==> Strip(m) == m
    ensures forall answer :: CleanAnswer(lower, answer, markers) ==>
              CleanAnswer(lower, answer, PublishedMarkers(markers))
  {
    forall p | p in PublishedMarkers(markers)
      ensures !CleanAnswer(lower, p, markers)
    {
      PublishedAreDeclared(markers, p);
      HitsItself(lower, p, markers);
    }
    RescanAgreesExactly(lower, markers);
  }

  // --- the retry rule ----------------------------------------------------------------

  function Named(id: Option<string>): string {
    if id.Some? then id.value else ""
  }

  /** A retry names the annulled record it repeats; a run beside an annulled twin is a retry. */
  predicate RetryHolds(record: Record, universe: set<Record>) {
    var link := Strip(Named(record.annulledRecordId));
    if link != [] then
      exists target :: target in universe && target.id == link && target.kind == record.kind
                       && target.outcome.NotStarted? && target.artifactSeq == record.artifactSeq
                       && target.readerDigest == record.readerDigest
    else
      forall twin :: twin in universe && IsTwin(record, twin) ==> twin.id == record.id
  }

  predicate IsTwin(record: Record, twin: Record) {
    && twin.kind == record.kind && twin.outcome.NotStarted?
    && twin.artifactSeq == record.artifactSeq && twin.readerDigest == record.readerDigest
  }

  // --- one pair ------------------------------------------------------------------------

  predicate Isolated(r: Record) {
    r.toolCalls == 0 && r.instrument.sandboxMode == "read-only" && r.instrument.approvalMode == "never"
  }

  /** The canary measured the instrument that then read, and nothing ran between the two. */
  predicate Adjoining(canary: Record, blind: Record) {
    && blind.instrument.profileDigest == canary.instrument.profileDigest
    && blind.instrument.runnerVersion == canary.instrument.runnerVersion
    && blind.instrument.modelVersion == canary.instrument.modelVersion
    && blind.artifactSeq == canary.artifactSeq
    && canary.launchNumber.Some? && blind.launchNumber.Some?
    && canary.launchNumber.value + 1 == blind.launchNumber.value
    && canary.finishedAt < blind.startedAt
  }

  /** No other reading leans on the canary. */
  predicate ServesOnly(canary: Record, blind: Record, universe: set<Record>) {
    forall r :: r in universe && r.kind.Blind? && r.canaryRecordId == Some(canary.id) ==> r.id == blind.id
  }

  /** What the channel shows of the two runs: the records by identifier and by message. */
  datatype Published = Published(
    phases: seq<Phase>, createdAt: map<int, int>, records: map<string, Record>, recordSeqs: map<string, int>)

  function RecordSet(pub: Published): set<Record> {
    set id | id in pub.records :: pub.records[id]
  }

  /** The first phase under a number that carries the canary's answer. */
  function AnswerAt(phases: seq<Phase>, seqNo: Option<int>): Option<Phase> {
    if phases == [] || seqNo.None? then None
    else if phases[0].content.CanaryAnswer? && phases[0].seqNo == seqNo.value then Some(phases[0])
    else AnswerAt(phases[1..], seqNo)
  }

  function MarkersAt(phases: seq<Phase>, seqNo: Option<int>): Option<Phase> {
    if phases == [] || seqNo.None? then None
    else if phases[0].content.CanaryMarkers? && phases[0].seqNo == seqNo.value then Some(phases[0])
    else MarkersAt(phases[1..], seqNo)
  }

  /** The criterion was published before the canary started. */
  predicate MarkersFirst(canary: Record, pub: Published) {
    && MarkersAt(pub.phases, canary.markersSeq).Some?
    && canary.markersSeq.value in pub.createdAt
    && pub.createdAt[canary.markersSeq.value] < canary.startedAt
  }

  /** The verdict is bound to a published answer of this version. */
  predicate AnswerBound(canary: Record, pub: Published) {
    match AnswerAt(pub.phases, canary.answerSeq)
    case None => false
    case Some(p) =>
      p.artifactSeq == canary.artifactSeq && p.content.CanaryAnswer?
      && canary.answerSha == Some(Sha256OfText(p.content.answer))
  }

  /** A verdict of clean survives a second scan of the published answer. */
  predicate RescanClean(lower: string -> string, canary: Record, pub: Published) {
    var answer, markers := AnswerAt(pub.phases, canary.answerSeq), MarkersAt(pub.phases, canary.markersSeq);
    answer.Some? && answer.value.content.CanaryAnswer? && markers.Some? && markers.value.content.CanaryMarkers? ==>
      CleanAnswer(lower, answer.value.content.answer, markers.value.content.markers)
  }

  /** Record before record, by the messages that first carried them. */
  predicate InOrder(canary: Record, blind: Record, pub: Published) {
    canary.id in pub.recordSeqs && blind.id in pub.recordSeqs && pub.recordSeqs[canary.id] < pub.recordSeqs[blind.id]
  }

  /** The gate finds nothing against a published reading. */
  predicate PairHolds(lower: string -> string, blind: Record, pub: Published) {
    && Complete(blind) && blind.outcome.Happened?
    && Named(blind.canaryRecordId) in pub.records
    && var canary := pub.records[Named(blind.canaryRecordId)];
    && canary.kind.Canary? && Complete(canary) && canary.outcome.Happened? && canary.verdictClean == Some(true)
    && Isolated(blind) && Isolated(canary)
    && blind.instrument.model == canary.instrument.model && Adjoining(canary, blind)
    && ServesOnly(canary, blind, RecordSet(pub))
    && RetryHolds(blind, RecordSet(pub))
    && MarkersFirst(canary, pub) && AnswerBound(canary, pub) && RescanClean(lower, canary, pub)
    && InOrder(canary, blind, pub)
  }

  /** Records are filed under their own identifiers. */
  predicate Filed(records: map<string, Record>) {
    forall id :: id in records ==> records[id].id == id
  }

  /** No two records were made under one launch number. */
  predicate NumbersApart(records: map<string, Record>) {
    forall id, other :: id in records && other in records && id != other && records[id].launchNumber.Some? ==>
      records[id].launchNumber != records[other].launchNumber
  }

  /** The reading names a record that adjoins it, one launch before. */
  predicate Leans(blind: Record, records: map<string, Record>) {
    && blind.canaryRecordId.Some? && blind.canaryRecordId.value in records
    && Adjoining(records[blind.canaryRecordId.value], blind)
  }

  lemma PassingReadingsLean(lower: string -> string, blind: Record, pub: Published)
    requires PairHolds(lower, blind, pub) && blind.kind.Blind?
    ensures Leans(blind, pub.records)
  {
    hide Isolated, RetryHolds, MarkersFirst, AnswerBound, RescanClean, InOrder, ServesOnly, Adjoining;
  }

  /** Two different readings lean on two different canaries, each of them one launch before: the
      numbers alone see to it, whatever else the gate asks. */
  lemma DistinctReadingsDistinctCanaries(a: Record, b: Record, records: map<string, Record>)
    requires NumbersApart(records) && a.id != b.id
    requires a.id in records && records[a.id] == a && b.id in records && records[b.id] == b
    requires Leans(a, records) && Leans(b, records)
    ensures a.canaryRecordId.value != b.canaryRecordId.value
    ensures records[a.canaryRecordId.value].launchNumber != records[b.canaryRecordId.value].launchNumber
  {
    assert a.launchNumber != b.launchNumber;
  }

  // --- the second scan ---------------------------------------------------------------------

  /** Every published marker is hit by a declared one. */
  predicate RescanSafe(lower: string -> string, markers: seq<string>) {
    forall p :: p in PublishedMarkers(markers) ==> !CleanAnswer(lower, p, markers)
  }

  /** The verdict in the record is the one on the answer whose hash it carries. */
  ghost predicate HonestVerdict(lower: string -> string, canary: Record, markers: seq<string>) {
    forall answer: string :: canary.answerSha == Some(Sha256OfText(answer)) ==>
      canary.verdictClean == Some(CleanAnswer(lower, answer, markers))
  }

  /** What the driver judged clean by the declared markers stays clean under the published ones. */
  lemma RescanFollows(lower: string -> string, canary: Record, pub: Published, markers: seq<string>)
    requires AnswerBound(canary, pub) && HonestVerdict(lower, canary, markers) && canary.verdictClean == Some(true)
    requires MarkersAt(pub.phases, canary.markersSeq).Some?
    requires MarkersAt(pub.phases, canary.markersSeq).value.content == CanaryMarkers(PublishedMarkers(markers))
    requires RescanSafe(lower, markers)
    ensures RescanClean(lower, canary, pub)
  {
    hide AnswerAt, MarkersAt, CleanAnswer, PublishedMarkers;
    var answer := AnswerAt(pub.phases, canary.answerSeq).value.content.answer;
    RescanOf(lower, answer, markers, PublishedMarkers(markers));
  }

  // --- what a list of phases publishes ---------------------------------------------------

  predicate Numbered(phases: seq<Phase>) {
    forall i, j :: 0 <= i < j < |phases| ==> phases[i].seqNo < phases[j].seqNo
  }

  /** The records by identifier: an identifier keeps the record that carried it first. */
  function RecordsIn(phases: seq<Phase>): (records: map<string, Record>)
    ensures Filed(records)
  {
    if phases == [] then map[]
    else
      var before, last := RecordsIn(phases[..|phases| - 1]), phases[|phases| - 1].content;
      if last.RunRecord? && last.record.id !in before then before[last.record.id := last.record] else before
  }

  function RecordSeqsIn(phases: seq<Phase>): (seqs: map<string, int>)
    ensures forall id :: id in seqs ==> exists p :: p in phases && p.seqNo == seqs[id]
    ensures seqs.Keys == RecordsIn(phases).Keys
  {
    if phases == [] then map[]
    else
      var init, last := phases[..|phases| - 1], phases[|phases| - 1];
      assert phases == init + [last];
      var before := RecordSeqsIn(init);
      if last.content.RunRecord? && last.content.record.id !in before then before[last.content.record.id := last.seqNo]
      else before
  }

  function PublishedBy(phases: seq<Phase>, createdAt: map<int, int>): Published {
    Published(phases, createdAt, RecordsIn(phases), RecordSeqsIn(phases))
  }

  /** What one more message adds to what was published. */
  lemma OneMorePhase(phases: seq<Phase>, p: Phase)
    ensures p.content.RunRecord? && p.content.record.id !in RecordsIn(phases) ==>
              && RecordsIn(phases + [p]) == RecordsIn(phases)[p.content.record.id := p.content.record]
              && RecordSeqsIn(phases + [p]) == RecordSeqsIn(phases)[p.content.record.id := p.seqNo]
    ensures !p.content.RunRecord? ==>
              RecordsIn(phases + [p]) == RecordsIn(phases) && RecordSeqsIn(phases + [p]) == RecordSeqsIn(phases)
  {
    assert (phases + [p])[..|phases|] == phases;
  }

  /** A message once found is found for good. */
  lemma {:induction false} FoundForGood(phases: seq<Phase>, p: Phase, seqNo: Option<int>)
    ensures AnswerAt(phases, seqNo).Some? ==> AnswerAt(phases + [p], seqNo) == AnswerAt(phases, seqNo)
    ensures MarkersAt(phases, seqNo).Some? ==> MarkersAt(phases + [p], seqNo) == MarkersAt(phases, seqNo)
  {
    if phases != [] {
      assert (phases + [p])[1..] == phases[1..] + [p];
      FoundForGood(phases[1..], p, seqNo);
    }
  }

  /** A new number finds the new message. */
  lemma {:induction false} FoundAtOnce(phases: seq<Phase>, p: Phase)
    requires forall q :: q in phases ==> q.seqNo < p.seqNo
    ensures p.content.CanaryAnswer? ==> AnswerAt(phases + [p], Some(p.seqNo)) == Some(p)
    ensures p.content.CanaryMarkers? ==> MarkersAt(phases + [p], Some(p.seqNo)) == Some(p)
  {
    if phases == [] {
      assert (phases + [p])[0] == p;
    } else {
      assert phases[0] in phases;
      assert (phases + [p])[1..] == phases[1..] + [p];
      FoundAtOnce(phases[1..], p);
    }
  }
}
