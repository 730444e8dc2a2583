/** How a step of the harness ends. */
module Outcomes {

  datatype Reason =
    | NotEmpty | NoModel | NoDescription
    | NoRunJson | CorruptRunJson | MissingFile | BlankOutcomes | OrphanOutcomes | PassHoles | OutcomeHoles
    | NoMetadata | CorruptMetadata | BlankPass | CompletedWithoutOutcomes | CompletedNotPrefix
    | TwoOpenRounds | CorruptGateFiles | StaleQuestions | AlienGateFiles | CorruptAnswers
    | ConfirmedWithoutEvidence | PassExists | NoOutcomes
    | GateNotPassed | NoProfile | NoArtifact | CriticFailed | NoHead | DevelopmentFailed
    | QuestionsAfterAnswers
    | HalfPair | DamagedLine | GraphUnavailable | DiskError

  /** A step finishes, is refused with a reason, or never returns because the session died. */
  datatype Outcome<+T> = Fine(value: T) | Refused(reason: Reason) | Crashed {
    predicate IsFailure() {
      !Fine?
    }

    function PropagateFailure<U>(): Outcome<U>
      requires !Fine?
    {
      if Refused? then Outcome<U>.Refused(reason) else Outcome<U>.Crashed
    }

    function Extract(): T
      requires Fine?
    {
      value
    }
  }
}
