/** The blind pass of one round: markers, a canary, a reading, at most one retry, and the findings
    of a reading that was credited; every step is a message on the channel. */
module Driver {
  import opened Wrappers
  import opened Text
  import opened Snapshot
  import opened Evidence
  import opened PairCheck
  import opened TextOrder
  import BlindReport

  /** What the channel gives a message: how many foreign numbers lie before it, and its time. */
  datatype Stamp = Stamp(gap: nat, at: int)

  datatype Judgement = ReportHolds(items: seq<Item>, diff: Option<string>) | ReportRefused(deterministic: bool)

  /** One call of the sanctioned launcher, as the world lets it turn out. */
  datatype Launch =
    | ProfileBusy
    | Launched(id: string, number: int, startedAt: int, finishedAt: int, happened: bool, toolCalls: nat,
               runner: Instrument, gaps: nat, answer: string, judgement: Judgement, backed: bool)

  datatype RoundInputs = RoundInputs(
    artifactSeq: int, iteration: int, markers: seq<string>, readerDigest: string, publicItems: seq<string>)

  function Contents(phases: seq<Phase>): (contents: seq<Content>)
    ensures |contents| == |phases|
  {
    seq(|phases|, i requires 0 <= i < |phases| => phases[i].content)
  }

  lemma ContentsGrow(phases: seq<Phase>, p: Phase)
    ensures Contents(phases + [p]) == Contents(phases) + [p.content]
  {
  }

  /** The channel only grows: what was found under a number, and when it came, stays. */
  ghost predicate Grows(before: seq<Phase>, times: map<int, int>, after: seq<Phase>, laterTimes: map<int, int>) {
    && before <= after
    && (forall p :: p in before && p.seqNo in times ==> p.seqNo in laterTimes && laterTimes[p.seqNo] == times[p.seqNo])
    && (forall n: int :: AnswerAt(before, Some(n)).Some? ==> AnswerAt(after, Some(n)) == AnswerAt(before, Some(n)))
    && (forall n: int :: MarkersAt(before, Some(n)).Some? ==> MarkersAt(after, Some(n)) == MarkersAt(before, Some(n)))
  }

  lemma GrowsByOne(phases: seq<Phase>, times: map<int, int>, p: Phase, at: int)
    requires forall q :: q in phases ==> q.seqNo < p.seqNo
    ensures Grows(phases, times, phases + [p], times[p.seqNo := at])
  {
    hide AnswerAt, MarkersAt;
    forall n: int
      ensures AnswerAt(phases, Some(n)).Some? ==> AnswerAt(phases + [p], Some(n)) == AnswerAt(phases, Some(n))
      ensures MarkersAt(phases, Some(n)).Some? ==> MarkersAt(phases + [p], Some(n)) == MarkersAt(phases, Some(n))
    {
      FoundForGood(phases, p, Some(n));
    }
  }

  lemma GrowsOn(a: seq<Phase>, at: map<int, int>, b: seq<Phase>, bt: map<int, int>, c: seq<Phase>, ct: map<int, int>)
    requires Grows(a, at, b, bt) && Grows(b, bt, c, ct)
    ensures Grows(a, at, c, ct)
  {
    hide AnswerAt, MarkersAt;
    forall p | p in a
      ensures p in b
    {
    }
  }

  class Wire {
    var phases: seq<Phase>
    var createdAt: map<int, int>
    var stamps: seq<Stamp>

    ghost predicate Valid()
      reads this
    {
      Numbered(phases)
    }

    constructor (phases: seq<Phase>, createdAt: map<int, int>, stamps: seq<Stamp>)
      requires Numbered(phases)
      ensures Valid() && this.phases == phases && this.createdAt == createdAt
    {
      this.phases := phases;
      this.createdAt := createdAt;
      this.stamps := stamps;
    }

    /** Send one phase; the number it was given is what later messages refer to. */
    method Post(artifactSeq: int, content: Content) returns (seqNo: int)
      requires Valid()
      modifies this
      ensures Valid() && phases == old(phases) + [Phase(seqNo, "development", artifactSeq, content)]
      ensures forall p :: p in old(phases) ==> p.seqNo < seqNo
      ensures seqNo in createdAt && Grows(old(phases), old(createdAt), phases, createdAt)
    {
      hide Grows, AnswerAt, MarkersAt;
      var stamp := if stamps == [] then Stamp(0, 0) else stamps[0];
      if stamps != [] {
        stamps := stamps[1..];
      }
      seqNo := (if phases == [] then 1 else phases[|phases| - 1].seqNo + 1) + stamp.gap;
      phases := phases + [Phase(seqNo, "development", artifactSeq, content)];
      createdAt := createdAt[seqNo := stamp.at];
      GrowsByOne(old(phases), old(createdAt), phases[|phases| - 1], stamp.at);
    }
  }

  // --- one attempt ---------------------------------------------------------------------

  /** What one attempt told the channel, as far as it got, and how its reading had turned out. */
  datatype Attempt = Attempt(
    answer: Option<string>, canary: Option<Record>, blind: Option<Record>, reading: Option<Launch>)

  /** The answer was refused in a way that another run may not repeat. */
  predicate Transient(a: Attempt) {
    && a.blind.Some? && a.blind.value.outcome.NotStarted?
    && a.reading.Some? && a.reading.value.Launched?
    && a.reading.value.judgement.ReportRefused? && !a.reading.value.judgement.deterministic
  }

  /** How the record of a reading follows from how it turned out. */
  predicate Reports(blind: Record, reading: Launch) {
    && reading.Launched? && blind.id == reading.id
    && (blind.outcome.Happened? <==> reading.happened && reading.judgement.ReportHolds?)
    && (blind.outcome.NotStarted? <==> reading.happened && reading.judgement.ReportRefused?)
  }

  function Told(a: Attempt): seq<Content> {
    (if a.answer.Some? then [CanaryAnswer(a.answer.value)] else []) +
    (if a.canary.Some? then [RunRecord(a.canary.value)] else []) +
    (if a.blind.Some? then [RunRecord(a.blind.value)] else [])
  }

  predicate Passed(canary: Record) {
    canary.outcome.Happened? && canary.verdictClean == Some(true)
  }

  /** The answer before the record that hashes it, the canary before the reading, and no reading
      after a canary that was not clean. */
  predicate Proper(a: Attempt, inputs: RoundInputs, lower: string -> string, annulledId: Option<string>) {
    && (a.canary.Some? ==>
          && a.answer.Some? && a.canary.value.kind.Canary?
          && a.canary.value.answerSha == Some(Sha256OfText(a.answer.value))
          && a.canary.value.verdictClean == Some(CleanAnswer(lower, a.answer.value, inputs.markers)))
    && (a.blind.Some? ==>
          && a.canary.Some? && Passed(a.canary.value) && a.blind.value.kind.Blind?
          && a.blind.value.canaryRecordId == Some(a.canary.value.id)
          && a.blind.value.annulledRecordId == annulledId
          && a.blind.value.artifactSeq == inputs.artifactSeq && a.blind.value.readerDigest == Some(inputs.readerDigest))
    && (a.blind.Some? <==> a.reading.Some?)
    && (a.blind.Some? ==> Reports(a.blind.value, a.reading.value))
  }

  /** Whether the driver credits a reading, from the two records and what it knows of others. */
  predicate Credits(blind: Record, canary: Record, universe: set<Record>, digest: string,
                    markersAt: Option<int>, backed: bool)
  {
    && Complete(blind) && Complete(canary) && Isolated(blind) && Isolated(canary) && backed
    && blind.outcome.Happened? && canary.verdictClean == Some(true)
    && blind.canaryRecordId == Some(canary.id)
    && blind in universe
    && (forall other :: other in universe && other.canaryRecordId == Some(canary.id) ==> other.id == blind.id)
    && RetryHolds(blind, universe)
    && Adjoining(canary, blind)
    && markersAt.Some? && markersAt.value < canary.startedAt
    && blind.readerDigest == Some(digest)
  }

  /** The attempts of one round: a second one only after a transient annulment, which it names. */
  predicate IsStory(attempts: seq<Attempt>, inputs: RoundInputs, lower: string -> string) {
    && 1 <= |attempts| <= 2
    && Proper(attempts[0], inputs, lower, None)
    && (|attempts| == 2 ==>
          && Transient(attempts[0])
          && Proper(attempts[1], inputs, lower, Some(attempts[0].blind.value.id)))
  }

  function Story(attempts: seq<Attempt>): seq<Content> {
    if attempts == [] then [] else Story(attempts[..|attempts| - 1]) + Told(attempts[|attempts| - 1])
  }

  lemma StoryWithOneMore(attempts: seq<Attempt>, a: Attempt)
    ensures Story(attempts + [a]) == Story(attempts) + Told(a)
  {
    assert (attempts + [a])[..|attempts|] == attempts;
  }

  /** A reading of this version under this fingerprint was annulled in an earlier round. */
  predicate AnnulledBefore(previous: set<Record>, inputs: RoundInputs) {
    exists r :: r in previous && r.kind.Blind? && r.outcome.NotStarted?
                && r.artifactSeq == inputs.artifactSeq && r.readerDigest == Some(inputs.readerDigest)
  }

  /** A round raises before a reading, raises over findings that the publisher refuses although the
      reading was credited, or comes to its end. */
  datatype RoundEnd = Stopped | Unpublished | Finished(credited: bool, needsOperator: bool)

  function Anchors(items: seq<string>): set<string> {
    set item | item in items
  }

  /** The publisher takes what was found in the reading. */
  predicate Accepted(blind: Record, items: seq<Item>, inputs: RoundInputs, lower: string -> string) {
    BlindReport.Publishable(items, Anchors(inputs.publicItems), blind.id, inputs.readerDigest, lower)
  }

  /** What follows a credited reading on the channel: the measurement with what it has to add, and
      the findings, if they are published. */
  function Ending(blind: Record, items: seq<Item>, diff: Option<string>, inputs: RoundInputs, published: bool)
    : seq<Content>
  {
    var findings := Findings(blind.id, inputs.readerDigest, items, inputs.iteration, None);
    (if diff.Some? then [MechReport(diff.value)] else []) +
    (if published then [BlindFindings(findings, SortedSet(inputs.publicItems))] else [])
  }

  /** The readings that were published. */
  function Readings(attempts: seq<Attempt>): set<Record> {
    set a | a in attempts && a.blind.Some? :: a.blind.value
  }

  lemma ReadingsWithOneMore(attempts: seq<Attempt>, a: Attempt)
    ensures Readings(attempts + [a]) == Readings(attempts) + if a.blind.Some? then {a.blind.value} else {}
  {
    assert forall b :: b in attempts + [a] <==> b in attempts || b == a;
  }

  lemma NoReadings()
    ensures Readings([]) == {}
  {
  }

  lemma NoStory(head: seq<Content>)
    ensures Story([]) == [] && head + Story([]) == head
  {
  }

  datatype Turn = Again(blind: Record) | Over(end: RoundEnd)

  datatype Step =
    | Raised
    | CanaryDirty
    | Read(canary: Record, blind: Record, launch: Launch)

  /** The record is new on the channel, by its identifier and by its launch number. */
  predicate IsNew(record: Record, records: map<string, Record>) {
    && record.id !in records
    && forall id :: id in records && record.launchNumber.Some? ==> records[id].launchNumber != record.launchNumber
  }

  /** Coming runs have identifiers and launch numbers that are new and differ from each other. */
  predicate FreshFor(script: seq<Launch>, records: map<string, Record>) {
    && NumbersApart(records)
    && (forall i :: 0 <= i < |script| && script[i].Launched? ==> script[i].id !in records)
    && (forall i, id :: 0 <= i < |script| && script[i].Launched? && id in records ==>
          records[id].launchNumber != Some(script[i].number))
    && (forall i, j :: 0 <= i < j < |script| && script[i].Launched? && script[j].Launched? ==>
          script[i].id != script[j].id && script[i].number != script[j].number)
  }

  predicate Unused(script: seq<Launch>, record: Record) {
    forall i :: 0 <= i < |script| && script[i].Launched? ==>
      script[i].id != record.id && Some(script[i].number) != record.launchNumber
  }

  lemma StaysFresh(script: seq<Launch>, records: map<string, Record>, record: Record)
    requires FreshFor(script, records) && IsNew(record, records) && Unused(script, record)
    ensures FreshFor(script, records[record.id := record])
  {
  }

  lemma FreshMeansApart(script: seq<Launch>, records: map<string, Record>)
    requires FreshFor(script, records)
    ensures NumbersApart(records)
  {
  }

  /** What is decided about a run later leaves it as new as it was. */
  lemma SameNewness(record: Record, later: Record, records: map<string, Record>, script: seq<Launch>)
    requires IsNew(record, records) && Unused(script, record)
    requires later.id == record.id && later.launchNumber == record.launchNumber
    ensures IsNew(later, records) && Unused(script, later)
  {
  }

  /** Taking the next run off the script. */
  lemma NextIsNew(script: seq<Launch>, records: map<string, Record>, record: Record)
    requires FreshFor(script, records) && script != [] && script[0].Launched?
    requires record.id == script[0].id && record.launchNumber == Some(script[0].number)
    ensures IsNew(record, records) && Unused(script[1..], record)
  {
  }

  lemma RestIsFresh(script: seq<Launch>, records: map<string, Record>)
    requires FreshFor(script, records) && script != []
    ensures FreshFor(script[1..], records)
  {
    hide NumbersApart;
  }

  /** What is published is what was known before, the readings of this round, and canaries. */
  predicate Covers(published: set<Record>, previous: set<Record>, readings: set<Record>) {
    && previous + readings <= published
    && forall r :: r in published ==> r in previous || r in readings || r.kind.Canary?
  }

  lemma CoversMore(published: set<Record>, previous: set<Record>, readings: set<Record>, record: Record)
    requires Covers(published, previous, readings)
    ensures record.kind.Canary? ==> Covers(published + {record}, previous, readings)
    ensures Covers(published + {record}, previous, readings + {record})
  {
  }

  class AudienceRound {
    const wire: Wire
    /** The records development was handed: those published before this round. */
    const previous: set<Record>
    const lower: string -> string
    const model: string
    var script: seq<Launch>

    ghost function Pub(): Published
      reads wire
    {
      PublishedBy(wire.phases, wire.createdAt)
    }

    ghost predicate Fresh()
      reads this, wire
    {
      FreshFor(script, Pub().records)
    }

    ghost predicate Knows(readings: set<Record>)
      reads wire
    {
      Covers(RecordSet(Pub()), previous, readings)
    }

    constructor (wire: Wire, previous: set<Record>, lower: string -> string, model: string, script: seq<Launch>)
      ensures this.wire == wire && this.previous == previous && this.script == script
      ensures this.lower == lower && this.model == model
    {
      this.wire := wire;
      this.previous := previous;
      this.lower := lower;
      this.model := model;
      this.script := script;
    }

    /** One launch; a busy profile raises. */
    method Run(kind: RunKind, inputs: RoundInputs, canaryId: Option<string>, markersSeq: Option<int>,
               readerDigest: Option<string>, annulledId: Option<string>)
      returns (r: Option<(Record, Launch)>)
      requires Fresh()
      modifies this`script
      ensures |script| <= |old(script)| <= |script| + 1
      ensures Fresh()
      ensures r.None? <==> old(script) == [] || old(script)[0].ProfileBusy?
      ensures r.Some? ==> r.value.1 == old(script)[0]
      ensures r.Some? ==>
                var (record, launch) := r.value;
                && launch.Launched? && record.id == launch.id && record.kind == kind
                && record.launchNumber == Some(launch.number)
                && IsNew(record, Pub().records) && Unused(script, record)
                && record.artifactSeq == inputs.artifactSeq && record.instrument.model == model
                && record.canaryRecordId == canaryId && record.markersSeq == markersSeq
                && record.annulledRecordId == annulledId && record.readerDigest == readerDigest
                && record.outcome == (if launch.happened then Happened else Annulled)
    {
      hide FreshFor, IsNew, Unused, PublishedBy;
      if script == [] {
        return None;
      }
      var launch := script[0];
      RestIsFresh(script, Pub().records);
      script := script[1..];
      if launch.ProfileBusy? {
        return None;
      }
      var record := Record(
        launch.id, kind, inputs.iteration, inputs.artifactSeq, Some(launch.number), launch.startedAt, launch.finishedAt,
        launch.toolCalls, if launch.happened then Happened else Annulled, launch.runner.(model := model), launch.gaps,
        None, markersSeq, None, None, canaryId, readerDigest, None, annulledId, "");
      NextIsNew(old(script), Pub().records, record);
      return Some((record, launch));
    }

    /** Publish one record under its own, new identifier; an incomplete one is refused. */
    method PostRecord(record: Record, ghost readings: set<Record>) returns (seqNo: Option<int>)
      requires wire.Valid() && Fresh() && Knows(readings) && IsNew(record, Pub().records) && Unused(script, record)
      modifies wire
      ensures wire.Valid() && Fresh()
      ensures seqNo.Some? <==> Complete(record)
      ensures seqNo.None? ==> wire.phases == old(wire.phases) && wire.createdAt == old(wire.createdAt)
      ensures seqNo.Some? ==>
                && wire.phases
                   == old(wire.phases) + [Phase(seqNo.value, "development", record.artifactSeq, RunRecord(record))]
                && (forall p :: p in old(wire.phases) ==> p.seqNo < seqNo.value)
                && Grows(old(wire.phases), old(wire.createdAt), wire.phases, wire.createdAt)
                && Pub().records == old(Pub()).records[record.id := record]
                && Pub().recordSeqs == old(Pub()).recordSeqs[record.id := seqNo.value]
      ensures seqNo.Some? && record.kind.Blind? ==> Knows(readings + {record})
      ensures seqNo.Some? && record.kind.Canary? ==> Knows(readings)
      ensures seqNo.None? ==> Knows(readings)
    {
      hide Complete, PublishedBy, RecordSet, Covers, FreshFor, Unused, Numbered, Grows;
      assert record.id !in Pub().records;
      if !Complete(record) {
        return None;
      }
      var n := wire.Post(record.artifactSeq, RunRecord(record));
      PublishOne(old(wire.phases), old(wire.createdAt), wire.phases[|old(wire.phases)|], wire.createdAt);
      CoversMore(RecordSet(old(Pub())), previous, readings, record);
      StaysFresh(script, old(Pub()).records, record);
      return Some(n);
    }

    /** The canary, and its answer, published before the record that hashes it. */
    method RunCanary(inputs: RoundInputs, markersSeq: int, ghost readings: set<Record>)
      returns (r: Option<Record>, ghost answer: Option<string>)
      requires wire.Valid() && Fresh() && Knows(readings)
      modifies this`script, wire
      ensures wire.Valid() && Fresh() && Knows(readings) && |script| <= |old(script)| <= |script| + 1
      ensures Grows(old(wire.phases), old(wire.createdAt), wire.phases, wire.createdAt)
      ensures Contents(wire.phases) == Contents(old(wire.phases)) + Told(Attempt(answer, None, None, None))
      ensures r.Some? ==>
                && answer.Some? && Proper(Attempt(answer, r, None, None), inputs, lower, None)
                && IsNew(r.value, Pub().records) && Unused(script, r.value)
                && r.value.artifactSeq == inputs.artifactSeq && r.value.instrument.model == model
                && r.value.markersSeq == Some(markersSeq) && r.value.launchNumber.Some?
                && r.value.answerSeq.Some? && AnswerBound(r.value, Pub())
    {
      hide Grows, PublishedBy, RecordSet, Covers, FreshFor, Unused, IsNew, Numbered, CleanAnswer, Blank;
      answer := None;
      var ran := Run(Canary, inputs, None, Some(markersSeq), None, None);
      GrowsNot(wire.phases, wire.createdAt);
      if ran.None? {
        return None, None;
      }
      var (record, launch) := ran.value;
      if Blank(launch.answer) {
        return None, None;
      }
      var clean := CleanAnswer(lower, launch.answer, inputs.markers);
      var answerSeq := wire.Post(inputs.artifactSeq, CanaryAnswer(launch.answer));
      ghost var posted := wire.phases[|old(wire.phases)|];
      PublishOther(old(wire.phases), old(wire.createdAt), posted, wire.createdAt);
      ContentsGrow(old(wire.phases), posted);
      FoundAtOnce(old(wire.phases), posted);
      answer := Some(launch.answer);
      r := Some(record.(verdictClean := Some(clean), answerSeq := Some(answerSeq),
                        answerSha := Some(Sha256OfText(launch.answer)),
                        outcome := if clean then record.outcome else Annulled));
      SameNewness(record, r.value, Pub().records, script);
      AnswerFound(r.value, wire.phases, wire.createdAt, posted);
    }

    /** The canary with its record on the channel; `None` when the round raised before that. */
    method Measure(inputs: RoundInputs, markersSeq: int, ghost readings: set<Record>)
      returns (r: Option<Record>, ghost a: Attempt)
      requires wire.Valid() && Fresh() && Knows(readings)
      modifies this`script, wire
      ensures wire.Valid() && Fresh() && Knows(readings) && |script| <= |old(script)| <= |script| + 1
      ensures Grows(old(wire.phases), old(wire.createdAt), wire.phases, wire.createdAt)
      ensures Contents(wire.phases) == Contents(old(wire.phases)) + Told(a)
      ensures a.canary == r && a.blind.None? && Proper(a, inputs, lower, None)
      ensures r.Some? ==> CanaryOnWire(r.value, inputs, markersSeq)
    {
      hide Grows, PublishedBy, RecordSet, Covers, FreshFor, Unused, Numbered, CleanAnswer, Blank, Complete, AnswerBound;
      var ran, answer := RunCanary(inputs, markersSeq, readings);
      a := Attempt(answer, None, None, None);
      if ran.None? {
        return None, a;
      }
      var canary := ran.value;
      ghost var answered, answeredAt := wire.phases, wire.createdAt;
      var canarySeq := PostRecord(canary, readings);
      if canarySeq.None? {
        return None, a;
      }
      GrowsOn(old(wire.phases), old(wire.createdAt), answered, answeredAt, wire.phases, wire.createdAt);
      BoundForGood(canary, answered, answeredAt, wire.phases, wire.createdAt);
      ContentsGrow(answered, wire.phases[|answered|]);
      assert Told(a.(canary := Some(canary))) == Told(a) + [RunRecord(canary)];
      SeqsComeFromPhases(wire.phases, wire.createdAt);
      return Some(canary), a.(canary := Some(canary));
    }

    ghost predicate CanaryOnWire(canary: Record, inputs: RoundInputs, markersSeq: int)
      reads wire
    {
      && canary.id in Pub().records && Pub().records[canary.id] == canary
      && canary.id in Pub().recordSeqs && (exists p :: p in wire.phases && p.seqNo == Pub().recordSeqs[canary.id])
      && canary.answerSeq.Some? && AnswerBound(canary, Pub())
      && canary.kind.Canary? && canary.markersSeq == Some(markersSeq)
      && canary.instrument.model == model && canary.artifactSeq == inputs.artifactSeq
    }

    /** The reading after a clean canary: its answer is judged before its record is published,
        and a refused answer annuls the run. */
    method ReadAfter(inputs: RoundInputs, canary: Record, markersSeq: int, annulledId: Option<string>,
                     ghost readings: set<Record>)
      returns (r: Option<(Record, Launch)>)
      requires wire.Valid() && Fresh() && Knows(readings)
      requires CanaryOnWire(canary, inputs, markersSeq) && Passed(canary)
      modifies this`script, wire
      ensures wire.Valid() && Fresh() && |script| <= |old(script)| <= |script| + 1
      ensures Grows(old(wire.phases), old(wire.createdAt), wire.phases, wire.createdAt)
      ensures r.None? ==> wire.phases == old(wire.phases)
      ensures r.Some? ==>
                var (blind, launch) := r.value;
                && Contents(wire.phases) == Contents(old(wire.phases)) + [RunRecord(blind)]
                && launch.Launched? && blind.kind.Blind? && blind.annulledRecordId == annulledId
                && blind.artifactSeq == inputs.artifactSeq && blind.readerDigest == Some(inputs.readerDigest)
                && Reports(blind, launch)
                && Knows(readings + {blind}) && PairOnWire(canary, blind, markersSeq)
    {
      hide Grows, PublishedBy, RecordSet, Covers, FreshFor, Unused, Numbered, Blank, Complete, AnswerBound;
      GrowsNot(wire.phases, wire.createdAt);
      var read := Run(Blind, inputs, Some(canary.id), None, Some(inputs.readerDigest), annulledId);
      if read.None? {
        return None;
      }
      var (record, launch) := read.value;
      var annulled := record.outcome.Happened? && launch.judgement.ReportRefused?;
      var blind := if annulled then record.(outcome := NotStarted) else record;
      SameNewness(record, blind, Pub().records, script);
      var blindSeq := PostRecord(blind, readings);
      if blindSeq.None? {
        return None;
      }
      BoundForGood(canary, old(wire.phases), old(wire.createdAt), wire.phases, wire.createdAt);
      ContentsGrow(old(wire.phases), wire.phases[|old(wire.phases)|]);
      return Some((blind, launch));
    }

    /** A canary and, when it is clean, a reading. */
    method OneAttempt(inputs: RoundInputs, markersSeq: int, annulledId: Option<string>, ghost readings: set<Record>)
      returns (r: Step, ghost a: Attempt)
      requires wire.Valid() && Fresh() && Knows(readings)
      modifies this`script, wire
      ensures wire.Valid() && Fresh() && |script| <= |old(script)| <= |script| + 2
      ensures Grows(old(wire.phases), old(wire.createdAt), wire.phases, wire.createdAt)
      ensures Contents(wire.phases) == Contents(old(wire.phases)) + Told(a)
      ensures Proper(a, inputs, lower, annulledId)
      ensures !r.Read? ==> a.blind.None?
      ensures r.Raised? && a.canary.Some? ==> Passed(a.canary.value)
      ensures r.CanaryDirty? ==> a.canary.Some? && !Passed(a.canary.value)
      ensures r.Read? ==>
                && a.canary == Some(r.canary) && a.blind == Some(r.blind) && a.reading == Some(r.launch)
                && Knows(readings + {r.blind}) && PairOnWire(r.canary, r.blind, markersSeq)
    {
      hide Grows, PublishedBy, RecordSet, Covers, FreshFor, Numbered, CleanAnswer, AnswerBound;
      var measured, first := Measure(inputs, markersSeq, readings);
      a := first;
      if measured.None? {
        return Raised, a;
      }
      var canary := measured.value;
      if !Passed(canary) {
        return CanaryDirty, a;
      }
      ghost var phases, times := wire.phases, wire.createdAt;
      var read := ReadAfter(inputs, canary, markersSeq, annulledId, readings);
      GrowsOn(old(wire.phases), old(wire.createdAt), phases, times, wire.phases, wire.createdAt);
      if read.None? {
        return Raised, a;
      }
      var (blind, launch) := read.value;
      assert Told(a.(blind := Some(blind))) == Told(a) + [RunRecord(blind)];
      a := a.(blind := Some(blind), reading := Some(launch));
      return Read(canary, blind, launch), a;
    }

    /** What follows a credited reading: the measurement again when it has something to add, and
        the findings, which the publisher checks once more. */
    method PublishFindings(inputs: RoundInputs, blind: Record, items: seq<Item>, diff: Option<string>)
      returns (published: bool, ghost ending: seq<Content>)
      requires wire.Valid()
      modifies wire
      ensures wire.Valid() && Contents(wire.phases) == Contents(old(wire.phases)) + ending
      ensures published <==> Accepted(blind, items, inputs, lower)
      ensures ending == Ending(blind, items, diff, inputs, published)
      ensures Grows(old(wire.phases), old(wire.createdAt), wire.phases, wire.createdAt)
      ensures Pub().records == old(Pub()).records && Pub().recordSeqs == old(Pub()).recordSeqs
      ensures RecordSet(Pub()) == RecordSet(old(Pub()))
    {
      hide Grows, PublishedBy, RecordSet, Numbered, BlindReport.Publishable, SortedSet;
      ending := [];
      GrowsNot(wire.phases, wire.createdAt);
      if diff.Some? {
        var _ := wire.Post(inputs.artifactSeq, MechReport(diff.value));
        ending := [MechReport(diff.value)];
        PublishOther(old(wire.phases), old(wire.createdAt), wire.phases[|old(wire.phases)|], wire.createdAt);
        ContentsGrow(old(wire.phases), wire.phases[|old(wire.phases)|]);
      }
      var problems :=
        BlindReport.PublishRefusals(items, Anchors(inputs.publicItems), blind.id, inputs.readerDigest, lower);
      if problems != [] {
        return false, ending;
      }
      ghost var phases, times := wire.phases, wire.createdAt;
      var content := BlindFindings(
        Findings(blind.id, inputs.readerDigest, items, inputs.iteration, None), SortedSet(inputs.publicItems));
      var _ := wire.Post(inputs.artifactSeq, content);
      PublishOther(phases, times, wire.phases[|phases|], wire.createdAt);
      ContentsGrow(phases, wire.phases[|phases|]);
      GrowsOn(old(wire.phases), old(wire.createdAt), phases, times, wire.phases, wire.createdAt);
      return true, ending + [content];
    }

    /** Credit a reading that held, and publish what it found. */
    method Conclude(inputs: RoundInputs, canary: Record, blind: Record, launch: Launch, markersSeq: int,
                    readings: set<Record>)
      returns (end: RoundEnd, ghost ending: seq<Content>)
      requires wire.Valid() && Fresh() && Knows(readings)
      requires MarkersKnown(markersSeq, inputs.markers) && PairOnWire(canary, blind, markersSeq)
      requires Reports(blind, launch) && HonestVerdict(lower, canary, inputs.markers)
      requires blind.artifactSeq == inputs.artifactSeq && blind.readerDigest == Some(inputs.readerDigest)
      modifies wire
      ensures wire.Valid() && Fresh() && Contents(wire.phases) == Contents(old(wire.phases)) + ending
      ensures TimeOf(wire.createdAt, markersSeq) == TimeOf(old(wire.createdAt), markersSeq)
      ensures end.Unpublished? || end == Finished(true, false) || end == Finished(false, false)
      ensures end == Finished(false, false) <==>
                !Credits(blind, canary, previous + readings, inputs.readerDigest,
                         TimeOf(wire.createdAt, markersSeq), launch.backed)
      ensures end == Finished(false, false) ==> ending == []
      ensures end != Finished(false, false) ==>
                && blind.outcome.Happened? && launch.judgement.ReportHolds?
                && (end.Finished? <==> Accepted(blind, launch.judgement.items, inputs, lower))
                && ending == Ending(blind, launch.judgement.items, launch.judgement.diff, inputs, end.Finished?)
                && (blind.annulledRecordId.None? ==> !AnnulledBefore(previous, inputs))
                && PairStands(canary, blind, inputs)
    {
      hide Grows, PublishedBy, RecordSet, Covers, Numbered, Credits, RescanClean, PairHolds, AnswerBound;
      hide MarkersFirst, Filed;
      hide Contents, MarkersAt, FreshFor, AnnulledBefore, TimeOf, Accepted, Ending, HonestVerdict, RescanSafe;
      var markersAt := TimeOf(wire.createdAt, markersSeq);
      if !Credits(blind, canary, previous + readings, inputs.readerDigest, markersAt, launch.backed) {
        return Finished(false, false), [];
      }
      CreditedHappened(blind, canary, previous + readings, inputs.readerDigest, markersAt, launch.backed);
      PublishedIsFiled(wire.phases, wire.createdAt);
      CreditedFirstAttempt(blind, canary, Pub(), previous, readings, inputs, markersAt, launch.backed);
      MarkersPrecede(canary, wire.phases, wire.createdAt, markersSeq);
      ghost var phases, times := wire.phases, wire.createdAt;
      var published, tail := PublishFindings(inputs, blind, launch.judgement.items, launch.judgement.diff);
      ending := tail;
      MarkersStay(phases, times, wire.phases, wire.createdAt, markersSeq);
      MarkersPrecedeForGood(canary, old(wire.phases), old(wire.createdAt), wire.phases, wire.createdAt);
      BoundForGood(canary, old(wire.phases), old(wire.createdAt), wire.phases, wire.createdAt);
      CreditedPairHolds(lower, blind, canary, Pub(), previous, readings, inputs.readerDigest, markersAt, launch.backed);
      if RescanSafe(lower, inputs.markers) {
        RescanOnWire(lower, canary, wire.phases, wire.createdAt, markersSeq, inputs.markers);
      }
      return if published then Finished(true, false) else Unpublished, ending;
    }

    /** The gate's pair check holds exactly when the published markers clear the published answer
        once more; and they do if every one of them is hit by a declared marker. */
    ghost predicate PairStands(canary: Record, blind: Record, inputs: RoundInputs)
      reads wire
    {
      && (PairHolds(lower, blind, Pub()) <==> RescanClean(lower, canary, Pub()))
      && (RescanSafe(lower, inputs.markers) ==> PairHolds(lower, blind, Pub()))
    }

    /** One turn of the retry loop: an attempt, and what follows from how it went. */
    method TakeTurn(inputs: RoundInputs, markersSeq: int, annulledId: Option<string>, readings: set<Record>, last: bool)
      returns (t: Turn, ghost a: Attempt, ghost ending: seq<Content>)
      requires wire.Valid() && Fresh() && Knows(readings) && MarkersKnown(markersSeq, inputs.markers)
      modifies this`script, wire
      ensures wire.Valid() && Fresh() && |old(script)| - |script| <= 2
      ensures Contents(wire.phases) == Contents(old(wire.phases)) + Told(a) + ending
      ensures Proper(a, inputs, lower, annulledId)
      ensures t.Again? ==>
                && !last && Transient(a) && a.blind == Some(t.blind) && ending == []
                && Knows(readings + {t.blind}) && MarkersKnown(markersSeq, inputs.markers)
      ensures t.Over? ==> EndsAs(t.end, a, ending, inputs, readings, markersSeq)
      ensures t.Over? && t.end.Finished? && t.end.needsOperator ==> last || !Transient(a)
      ensures t.Over? && IsCredited(t.end) && annulledId.None? ==> !AnnulledBefore(previous, inputs)
    {
      hide Grows, PublishedBy, RecordSet, Covers, FreshFor, Numbered, Told, RescanClean, PairHolds, Contents, Credits;
      hide AnnulledBefore, HonestVerdict, Accepted, Ending, RescanSafe, PublishedMarkers, MarkersAt;
      ending := [];
      ghost var phases, times := wire.phases, wire.createdAt;
      var step, attempt := OneAttempt(inputs, markersSeq, annulledId, readings);
      a := attempt;
      MarkersStay(phases, times, wire.phases, wire.createdAt, markersSeq);
      match step {
        case Raised => t := Over(Stopped);
        case CanaryDirty => t := Over(Finished(false, false));
        case Read(canary, blind, launch) =>
          if blind.outcome.NotStarted? {
            t := if launch.judgement.deterministic || last then Over(Finished(false, true)) else Again(blind);
          } else {
            ProperIsHonest(a, inputs, lower, annulledId);
            var end, tail := Conclude(inputs, canary, blind, launch, markersSeq, readings + {blind});
            ending := tail;
            t := Over(end);
          }
      }
    }

    /** How a round may end after its last attempt. A reading that stood is credited exactly by the
        crediting rules; its findings are published exactly when the publisher takes them; nothing is
        published for any other reading; and what is then on the channel passes the gate's check. */
    ghost predicate EndsAs(end: RoundEnd, a: Attempt, ending: seq<Content>, inputs: RoundInputs,
                           earlier: set<Record>, markersSeq: int)
      reads wire
    {
      && (!IsCredited(end) ==> ending == [])
      && (end.Stopped? ==> a.blind.None? && (a.canary.Some? ==> Passed(a.canary.value)))
      && (!end.Stopped? && a.blind.None? ==> end == Finished(false, false) && a.canary.Some? && !Passed(a.canary.value))
      && (end.Finished? ==> (end.needsOperator <==> a.blind.Some? && a.blind.value.outcome.NotStarted?))
      && (!end.Stopped? && a.blind.Some? && !a.blind.value.outcome.NotStarted? ==>
            && a.canary.Some? && a.reading.Some? && a.reading.value.Launched?
            && (IsCredited(end) <==>
                Credits(a.blind.value, a.canary.value, previous + (earlier + {a.blind.value}), inputs.readerDigest,
                        TimeOf(wire.createdAt, markersSeq), a.reading.value.backed)))
      && (IsCredited(end) ==>
            && a.canary.Some? && a.blind.Some? && a.blind.value.outcome.Happened?
            && a.reading.Some? && a.reading.value.Launched? && a.reading.value.judgement.ReportHolds?
            && var judgement := a.reading.value.judgement;
            && (end.Finished? <==> Accepted(a.blind.value, judgement.items, inputs, lower))
            && ending == Ending(a.blind.value, judgement.items, judgement.diff, inputs, end.Finished?)
            && PairStands(a.canary.value, a.blind.value, inputs))
    }

    /** The criterion goes first, under a number that the canary's record will name. */
    method PublishMarkers(artifactSeq: int, markers: seq<string>) returns (listed: int)
      requires wire.Valid() && Fresh() && Knows({})
      modifies wire
      ensures wire.Valid() && Fresh() && Knows({}) && ListKnown(listed, markers)
      ensures Contents(wire.phases) == Contents(old(wire.phases)) + [CanaryMarkers(markers)]
    {
      hide Grows, PublishedBy, RecordSet, Covers, FreshFor, Numbered;
      ghost var start, startTimes := wire.phases, wire.createdAt;
      listed := wire.Post(artifactSeq, CanaryMarkers(markers));
      PublishOther(start, startTimes, wire.phases[|start|], wire.createdAt);
      ContentsGrow(start, wire.phases[|start|]);
      FoundAtOnce(start, wire.phases[|start|]);
      assert wire.phases[|start|] in wire.phases;
    }

    /** The blind pass: at most two attempts, four launches in all. */
    method LaunchBlind(inputs: RoundInputs)
      returns (r: RoundEnd, ghost attempts: seq<Attempt>, ghost ending: seq<Content>, ghost markersSeq: int)
      requires wire.Valid() && Fresh() && Knows({})
      modifies this`script, wire
      ensures wire.Valid() && |old(script)| - |script| <= 4
      ensures Fresh() && NumbersApart(Pub().records)
      ensures PublishedMarkers(inputs.markers) == [] ==> r.Stopped? && wire.phases == old(wire.phases)
      ensures PublishedMarkers(inputs.markers) != [] ==>
                && IsStory(attempts, inputs, lower)
                && Contents(wire.phases) == Contents(old(wire.phases))
                   + [CanaryMarkers(PublishedMarkers(inputs.markers))] + Story(attempts) + ending
                && EndsAs(r, attempts[|attempts| - 1], ending, inputs, Readings(attempts[..|attempts| - 1]), markersSeq)
      ensures PublishedMarkers(inputs.markers) != [] && r.Finished? && r.needsOperator ==>
                |attempts| == 2 || !Transient(attempts[0])
      ensures IsCredited(r) && AnnulledBefore(previous, inputs) ==> |attempts| == 2
      ensures IsCredited(r) && RescanSafe(lower, inputs.markers) ==>
                attempts != [] && attempts[|attempts| - 1].blind.Some?
                && PairHolds(lower, attempts[|attempts| - 1].blind.value, Pub())
    {
      hide Grows, PublishedBy, RecordSet, Covers, FreshFor, Numbered, PublishedMarkers, Told, Proper;
      hide Contents, EndsAs, Story, Knows, ListKnown;
      hide AnnulledBefore, Transient, Readings, MarkersAt, PairHolds, RescanSafe, NumbersApart;
      FreshMeansApart(script, Pub().records);
      attempts, ending, markersSeq := [], [], 0;
      var markers := PublishedMarkers(inputs.markers);
      if markers == [] {
        return Stopped, attempts, ending, markersSeq;
      }
      var listed := PublishMarkers(inputs.artifactSeq, markers);
      markersSeq := listed;
      var annulledId: Option<string> := None;
      var readings: set<Record> := {};
      var attempt := 1;
      ghost var head := Contents(wire.phases);
      NoStory(head);
      NoReadings();
      while attempt <= 2
        invariant 1 <= attempt <= 2 && |attempts| == attempt - 1 && ending == []
        invariant wire.Valid() && Fresh() && Knows(readings) && |old(script)| - |script| <= 2 * (attempt - 1)
        invariant Contents(wire.phases) == head + Story(attempts)
        invariant MarkersKnown(listed, inputs.markers) && listed == markersSeq && readings == Readings(attempts)
        invariant attempt == 1 ==> annulledId.None?
        invariant attempt == 2 ==>
                    && Transient(attempts[0]) && attempts[0].blind.Some? && Proper(attempts[0], inputs, lower, None)
                    && annulledId == Some(attempts[0].blind.value.id)
        decreases 2 - attempt
      {
        var turn, a, tail := TakeTurn(inputs, listed, annulledId, readings, attempt == 2);
        StoryWithOneMore(attempts, a);
        ReadingsWithOneMore(attempts, a);
        assert (attempts + [a])[..|attempts|] == attempts;
        attempts := attempts + [a];
        match turn {
          case Over(end) =>
            ending := tail;
            FreshMeansApart(script, Pub().records);
            CreditedStands(end, a, ending, inputs, Readings(attempts[..|attempts| - 1]), listed);
            return end, attempts, ending, markersSeq;
          case Again(blind) =>
            annulledId := Some(blind.id);
            readings := readings + {blind};
            attempt := attempt + 1;
        }
      }
    }

    /** How a credited round ended, for those who need not know more. */
    lemma CreditedStands(end: RoundEnd, a: Attempt, ending: seq<Content>, inputs: RoundInputs, earlier: set<Record>,
                         markersSeq: int)
      requires EndsAs(end, a, ending, inputs, earlier, markersSeq)
      ensures IsCredited(end) && RescanSafe(lower, inputs.markers) ==>
                a.blind.Some? && PairHolds(lower, a.blind.value, Pub())
    {
      hide Credits, PairHolds, RescanClean, RescanSafe, Accepted, Ending, PublishedBy;
    }

    /** This list of markers is on the channel under this number. */
    ghost predicate ListKnown(markersSeq: int, published: seq<string>)
      reads wire
    {
      && MarkersAt(wire.phases, Some(markersSeq)).Some? && markersSeq in wire.createdAt
      && MarkersAt(wire.phases, Some(markersSeq)).value.content == CanaryMarkers(published)
      && exists p :: p in wire.phases && p.seqNo == markersSeq
    }

    ghost predicate MarkersKnown(markersSeq: int, markers: seq<string>)
      reads wire
    {
      ListKnown(markersSeq, PublishedMarkers(markers))
    }

    /** Both records of a pair are on the channel, in order, the canary bound to its answer. */
    ghost predicate PairOnWire(canary: Record, blind: Record, markersSeq: int)
      reads wire
    {
      && canary.id in Pub().records && Pub().records[canary.id] == canary
      && blind.id in Pub().records && Pub().records[blind.id] == blind
      && InOrder(canary, blind, Pub()) && AnswerBound(canary, Pub())
      && canary.kind.Canary? && Passed(canary) && canary.markersSeq == Some(markersSeq) && canary.answerSeq.Some?
      && canary.instrument.model == blind.instrument.model && blind.canaryRecordId == Some(canary.id)
      && blind.kind.Blind?
    }
  }

  /** The reading was credited, whether or not its findings could be published. */
  predicate IsCredited(end: RoundEnd) {
    end.Unpublished? || (end.Finished? && end.credited)
  }

  lemma ProperIsHonest(a: Attempt, inputs: RoundInputs, lower: string -> string, annulledId: Option<string>)
    requires Proper(a, inputs, lower, annulledId) && a.canary.Some?
    ensures HonestVerdict(lower, a.canary.value, inputs.markers)
  {
    hide CleanAnswer;
  }

  lemma RescanOnWire(lower: string -> string, canary: Record, phases: seq<Phase>, times: map<int, int>, n: int,
                     markers: seq<string>)
    requires AnswerBound(canary, PublishedBy(phases, times)) && HonestVerdict(lower, canary, markers) && Passed(canary)
    requires canary.markersSeq == Some(n) && MarkersAt(phases, Some(n)).Some?
    requires MarkersAt(phases, Some(n)).value.content == CanaryMarkers(PublishedMarkers(markers))
    requires RescanSafe(lower, markers)
    ensures RescanClean(lower, canary, PublishedBy(phases, times))
  {
    hide AnswerAt, MarkersAt, RecordsIn, RecordSeqsIn, HonestVerdict, RescanSafe, PublishedMarkers;
    hide AnswerBound, RescanClean;
    RescanFollows(lower, canary, PublishedBy(phases, times), markers);
  }

  lemma MarkersStay(was: seq<Phase>, times: map<int, int>, now: seq<Phase>, laterTimes: map<int, int>, n: int)
    requires Grows(was, times, now, laterTimes)
    requires MarkersAt(was, Some(n)).Some? && n in times && exists p :: p in was && p.seqNo == n
    ensures MarkersAt(now, Some(n)) == MarkersAt(was, Some(n)) && exists p :: p in now && p.seqNo == n
    ensures n in laterTimes && TimeOf(laterTimes, n) == TimeOf(times, n)
  {
    hide AnswerAt, MarkersAt;
    var p :| p in was && p.seqNo == n;
    assert p in now;
  }

  lemma CreditedHappened(blind: Record, canary: Record, universe: set<Record>, digest: string,
                         markersAt: Option<int>, backed: bool)
    requires Credits(blind, canary, universe, digest, markersAt, backed)
    ensures blind.outcome.Happened? && markersAt.Some? && markersAt.value < canary.startedAt
  {
  }

  function TimeOf(times: map<int, int>, n: int): Option<int> {
    if n in times then Some(times[n]) else None
  }

  /** A first attempt is not credited beside an annulled twin: it names no annulment. */
  lemma CreditedFirstAttempt(blind: Record, canary: Record, pub: Published, previous: set<Record>,
                             readings: set<Record>, inputs: RoundInputs, markersAt: Option<int>, backed: bool)
    requires Credits(blind, canary, previous + readings, inputs.readerDigest, markersAt, backed)
    requires Covers(RecordSet(pub), previous, readings) && Filed(pub.records)
    requires blind.id in pub.records && pub.records[blind.id] == blind && blind.kind.Blind?
    requires blind.artifactSeq == inputs.artifactSeq && blind.readerDigest == Some(inputs.readerDigest)
    ensures blind.annulledRecordId.None? ==> !AnnulledBefore(previous, inputs)
  {
    hide Isolated, Complete, Adjoining, Covers, RecordSet, RetryHolds;
    forall twin | twin in previous && blind.annulledRecordId.None?
      ensures !IsTwin(blind, twin)
    {
      KnownIsPublished(pub, previous, readings, twin);
      NotATwin(blind, twin, previous + readings, pub.records);
    }
  }

  lemma KnownIsPublished(pub: Published, previous: set<Record>, readings: set<Record>, r: Record)
    requires Covers(RecordSet(pub), previous, readings) && Filed(pub.records) && r in previous
    ensures r.id in pub.records && pub.records[r.id] == r
  {
    assert r in RecordSet(pub);
  }

  lemma NotATwin(blind: Record, twin: Record, universe: set<Record>, records: map<string, Record>)
    requires RetryHolds(blind, universe) && blind.annulledRecordId.None? && twin in universe
    requires twin.id in records && records[twin.id] == twin && blind.id in records && records[blind.id] == blind
    requires blind.outcome.Happened?
    ensures !IsTwin(blind, twin)
  {
    assert Strip(Named(blind.annulledRecordId)) == [];
  }

  lemma PublishedIsFiled(phases: seq<Phase>, times: map<int, int>)
    ensures Filed(PublishedBy(phases, times).records)
  {
    hide RecordSeqsIn;
  }

  lemma MarkersPrecede(canary: Record, phases: seq<Phase>, times: map<int, int>, n: int)
    requires canary.markersSeq == Some(n) && MarkersAt(phases, Some(n)).Some?
    requires TimeOf(times, n).Some? && TimeOf(times, n).value < canary.startedAt
    ensures MarkersFirst(canary, PublishedBy(phases, times))
  {
    hide AnswerAt, MarkersAt, RecordsIn, RecordSeqsIn;
  }

  lemma {:induction false} MarkersOnChannel(phases: seq<Phase>, n: int)
    requires MarkersAt(phases, Some(n)).Some?
    ensures MarkersAt(phases, Some(n)).value in phases && MarkersAt(phases, Some(n)).value.seqNo == n
  {
    if !(phases[0].content.CanaryMarkers? && phases[0].seqNo == n) {
      MarkersOnChannel(phases[1..], n);
    }
  }

  lemma MarkersPrecedeForGood(canary: Record, was: seq<Phase>, times: map<int, int>, now: seq<Phase>,
                              laterTimes: map<int, int>)
    requires Grows(was, times, now, laterTimes) && MarkersFirst(canary, PublishedBy(was, times))
             && canary.markersSeq.Some?
    ensures MarkersFirst(canary, PublishedBy(now, laterTimes))
  {
    hide AnswerAt, MarkersAt, RecordsIn, RecordSeqsIn;
    var n := canary.markersSeq.value;
    assert canary.markersSeq == Some(n) && MarkersAt(was, Some(n)).Some?;
    MarkersOnChannel(was, n);
    var p := MarkersAt(was, Some(n)).value;
    assert p in was && p.seqNo in times;
  }

  /** What the driver credited, the gate finds in order on the channel, except that it scans the
      published answer with the published markers for itself. */
  lemma CreditedPairHolds(lower: string -> string, blind: Record, canary: Record, pub: Published, previous: set<Record>,
                          readings: set<Record>, digest: string, markersAt: Option<int>, backed: bool)
    requires Credits(blind, canary, previous + readings, digest, markersAt, backed)
    requires Covers(RecordSet(pub), previous, readings) && blind.kind.Blind?
    requires canary.id in pub.records && pub.records[canary.id] == canary && canary.kind.Canary? && Passed(canary)
    requires canary.instrument.model == blind.instrument.model
    requires MarkersFirst(canary, pub) && AnswerBound(canary, pub) && InOrder(canary, blind, pub)
    ensures PairHolds(lower, blind, pub) <==> RescanClean(lower, canary, pub)
  {
    hide RecordSet, MarkersFirst, AnswerBound, InOrder, RescanClean, Isolated, Adjoining, Complete;
    RetryHoldsOnWire(blind, RecordSet(pub), previous, readings);
    assert Named(blind.canaryRecordId) == canary.id;
  }

  /** And the other way round: a reading that passes the gate's check is credited by the driver, if it
      stands under the fingerprint of this round and is backed, exactly when nothing but readings
      names its canary: there the driver looks at more records than the gate does. */
  lemma PairHoldsIsCredited(lower: string -> string, blind: Record, canary: Record, pub: Published,
                            previous: set<Record>, readings: set<Record>, digest: string, markersAt: Option<int>)
    requires PairHolds(lower, blind, pub) && blind.kind.Blind? && blind.canaryRecordId == Some(canary.id)
    requires canary.id in pub.records && pub.records[canary.id] == canary
    requires canary.markersSeq.Some? && markersAt == TimeOf(pub.createdAt, canary.markersSeq.value)
    requires Covers(RecordSet(pub), previous, readings) && blind in previous + readings
    requires blind.readerDigest == Some(digest)
    ensures Credits(blind, canary, previous + readings, digest, markersAt, true) <==>
              forall r :: r in previous + readings && r.canaryRecordId == Some(canary.id) ==>
                r.kind.Blind? || r.id == blind.id
  {
    hide RecordSet, AnswerBound, InOrder, RescanClean, Isolated, Adjoining, Complete, MarkersAt, RetryHolds;
    RetryHoldsOffWire(blind, RecordSet(pub), previous, readings);
  }

  lemma RetryHoldsOffWire(blind: Record, published: set<Record>, previous: set<Record>, readings: set<Record>)
    requires RetryHolds(blind, published) && Covers(published, previous, readings) && blind.kind.Blind?
    ensures RetryHolds(blind, previous + readings)
  {
    hide Strip;
    var link := Strip(Named(blind.annulledRecordId));
    if link != [] {
      var target :| target in published && target.id == link && target.kind == blind.kind
                    && target.outcome.NotStarted? && target.artifactSeq == blind.artifactSeq
                    && target.readerDigest == blind.readerDigest;
      assert target in previous + readings;
    }
  }

  /** The second attempt of a round is a retry that the rule accepts, whoever else is known: it names
      the annulled reading of the first, under an identifier without surrounding space. */
  lemma SecondAttemptIsARetry(attempts: seq<Attempt>, inputs: RoundInputs, lower: string -> string,
                              universe: set<Record>)
    requires IsStory(attempts, inputs, lower) && |attempts| == 2 && attempts[1].blind.Some?
    requires attempts[0].blind.Some? && attempts[0].blind.value in universe
    requires var id := attempts[0].blind.value.id; Strip(id) == id && id != []
    ensures RetryHolds(attempts[1].blind.value, universe)
  {
    hide Strip, CleanAnswer, Reports;
  }

  /** The retry rule, said of records alone. */
  lemma RetryRuleExactly(record: Record, universe: set<Record>)
    requires record.annulledRecordId.Some? ==> Strip(record.annulledRecordId.value) == record.annulledRecordId.value
    ensures RetryHolds(record, universe) <==>
              if record.annulledRecordId.Some? && record.annulledRecordId.value != [] then
                exists target :: target in universe && IsTwin(record, target)
                                 && record.annulledRecordId == Some(target.id)
              else
                forall twin :: twin in universe && IsTwin(record, twin) ==> twin.id == record.id
  {
    hide Strip;
    assert Strip([]) == [] by {
      StripOfBlank([]);
    }
  }

  lemma RetryHoldsOnWire(blind: Record, published: set<Record>, previous: set<Record>, readings: set<Record>)
    requires RetryHolds(blind, previous + readings) && Covers(published, previous, readings) && blind.kind.Blind?
    ensures RetryHolds(blind, published)
  {
    hide Strip;
    var link := Strip(Named(blind.annulledRecordId));
    if link != [] {
      var target :| target in previous + readings && target.id == link && target.kind == blind.kind
                    && target.outcome.NotStarted? && target.artifactSeq == blind.artifactSeq
                    && target.readerDigest == blind.readerDigest;
      assert target in published;
    }
  }

  lemma SeqsComeFromPhases(phases: seq<Phase>, times: map<int, int>)
    ensures var pub := PublishedBy(phases, times);
            pub.recordSeqs.Keys == pub.records.Keys
            && forall id :: id in pub.recordSeqs ==> exists p :: p in phases && p.seqNo == pub.recordSeqs[id]
  {
    hide RecordsIn, RecordSeqsIn;
  }

  lemma BoundForGood(canary: Record, was: seq<Phase>, times: map<int, int>, now: seq<Phase>, laterTimes: map<int, int>)
    requires Grows(was, times, now, laterTimes) && AnswerBound(canary, PublishedBy(was, times))
             && canary.answerSeq.Some?
    ensures AnswerBound(canary, PublishedBy(now, laterTimes))
  {
    hide AnswerAt, MarkersAt, RecordsIn, RecordSeqsIn;
    var n := canary.answerSeq.value;
    assert canary.answerSeq == Some(n) && AnswerAt(was, Some(n)).Some?;
    assert AnswerAt(now, Some(n)) == AnswerAt(was, Some(n));
  }

  lemma GrowsNot(phases: seq<Phase>, times: map<int, int>)
    ensures Grows(phases, times, phases, times)
  {
    hide AnswerAt, MarkersAt;
  }

  lemma AnswerFound(canary: Record, phases: seq<Phase>, times: map<int, int>, p: Phase)
    requires AnswerAt(phases, canary.answerSeq) == Some(p) && p.content.CanaryAnswer?
    requires p.artifactSeq == canary.artifactSeq && canary.answerSha == Some(Sha256OfText(p.content.answer))
    ensures AnswerBound(canary, PublishedBy(phases, times))
  {
    hide AnswerAt, RecordsIn, RecordSeqsIn;
  }

  /** One new record on the channel. */
  lemma PublishOne(phases: seq<Phase>, before: map<int, int>, p: Phase, after: map<int, int>)
    requires p.content.RunRecord? && p.content.record.id !in PublishedBy(phases, before).records
    ensures var was, now := PublishedBy(phases, before), PublishedBy(phases + [p], after);
            var record := p.content.record;
            && now.records == was.records[record.id := record]
            && now.records.Keys == was.records.Keys + {record.id}
            && now.recordSeqs == was.recordSeqs[record.id := p.seqNo]
            && RecordSet(now) == RecordSet(was) + {record}
  {
    hide RecordsIn, RecordSeqsIn;
    OneMorePhase(phases, p);
    OneMoreRecord(PublishedBy(phases, before), PublishedBy(phases + [p], after), p.content.record);
  }

  /** A message that is not a record leaves the records as they are. */
  lemma PublishOther(phases: seq<Phase>, before: map<int, int>, p: Phase, after: map<int, int>)
    requires !p.content.RunRecord?
    ensures var was, now := PublishedBy(phases, before), PublishedBy(phases + [p], after);
            now.records == was.records && now.recordSeqs == was.recordSeqs && RecordSet(now) == RecordSet(was)
  {
    hide RecordsIn, RecordSeqsIn;
    OneMorePhase(phases, p);
  }

  lemma OneMoreRecord(before: Published, after: Published, record: Record)
    requires record.id !in before.records && after.records == before.records[record.id := record]
    ensures RecordSet(after) == RecordSet(before) + {record}
  {
    assert record.id in after.records;
    forall r | r in RecordSet(before)
      ensures r in RecordSet(after)
    {
      var id :| id in before.records && before.records[id] == r;
      assert id in after.records && after.records[id] == r;
    }
  }
}
