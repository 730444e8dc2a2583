/** What an audience review publishes: run records and the phases that carry them. */
module Evidence {
  import opened Wrappers
  import opened Snapshot

  datatype RunKind = Canary | Blind | Visual | Strategic | Machine

  datatype RunOutcome = Happened | Annulled | NotStarted

  /** What a run was made with, in the provider's own words. */
  datatype Instrument = Instrument(
    profileDigest: string,
    runnerVersion: string,
    model: string,
    modelVersion: string,
    sandboxMode: string,
    approvalMode: string)

  /** One model run. `gaps` counts the required fields that are absent among those that nothing
      here looks into; `rest` stands for what is in the others. */
  datatype Record = Record(
    id: string,
    kind: RunKind,
    iteration: int,
    artifactSeq: int,
    launchNumber: Option<int>,
    startedAt: int,
    finishedAt: int,
    toolCalls: nat,
    outcome: RunOutcome,
    instrument: Instrument,
    gaps: nat,
    verdictClean: Option<bool>,
    markersSeq: Option<int>,
    answerSeq: Option<int>,
    answerSha: Option<Digest>,
    canaryRecordId: Option<string>,
    readerDigest: Option<string>,
    roleDigest: Option<string>,
    annulledRecordId: Option<string>,
    rest: string)

  /** The required fields are there; of a run without a result only its reason is required. */
  predicate Complete(r: Record) {
    r.outcome.NotStarted? ||
    (&& r.gaps == 0
     && (r.kind.Canary? ==> r.verdictClean.Some? && r.markersSeq.Some? && r.answerSeq.Some? && r.answerSha.Some?)
     && (r.kind.Blind? ==> r.canaryRecordId.Some? && r.readerDigest.Some?)
     && (r.kind.Canary? || r.kind.Blind? ==> r.launchNumber.Some?))
  }

  /** One finding, with every field that is published of it. The contract version is zero when
      the wire shows none. */
  datatype Item = Item(
    id: Digest,
    section: string,
    category: string,
    text: string,
    anchor: string,
    contractVersion: int,
    contractSha: string)

  /** One row of a published claim map; what is under its number may move from phase to phase. */
  datatype PublishedRow = PublishedRow(id: string, content: string)

  /** What was found in a run, and the fingerprint of the inputs it stands for. */
  datatype Findings = Findings(
    recordId: string, digest: string, items: seq<Item>, iteration: int, carriedFrom: Option<(int, int)>)

  /** The operator's two words, and everything that goes with them on the wire. */
  datatype Declarations = Declarations(
    retellingMatches: bool,
    goalMoved: bool,
    retelling: string,
    takeaway: string,
    declaredAt: string,
    operatorNote: Option<string>,
    previousArtifactSeq: Option<int>,
    previousTakeaway: Option<Digest>)

  datatype Content =
    | CanaryMarkers(markers: seq<string>)
    | CanaryAnswer(answer: string)
    | RunRecord(record: Record)
    | MechReport(body: string)
    | ClaimMap(round: Option<int>, rows: seq<PublishedRow>)
    | BlindFindings(findings: Findings, publicItems: seq<string>)
    | StrategicFindings(findings: Findings, contractItems: seq<string>)
    | MachineFindings(findings: Findings)
    | IntentTakeaway(iteration: int, declarations: Declarations)

  /** One phase as read back from the channel. */
  datatype Phase = Phase(seqNo: int, role: string, artifactSeq: int, content: Content)
}
