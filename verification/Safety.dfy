/** What the rules of the protocol imply for every history of a run. */
module Safety {
  import opened Wrappers
  import opened Text
  import opened Snapshot
  import opened RunFiles
  import opened Protocol
  import YesNo

  // --- recovery accepts every state a run can be in --------------------------

  lemma RoundsGrow<V>(files: map<nat, V>, n: nat, v: V)
    requires Rounds(files, |files|) && 1 <= n <= |files| + 1
    ensures Rounds(files[n := v], |files[n := v]|)
    ensures |files[n := v]| == if n <= |files| then |files| else n
  {
  }

  lemma OutcomesGrow(passes: map<nat, string>, metas: MetaFiles, outcomes: map<nat, string>, n: nat, text: string)
    requires Rounds(passes, |passes|) && n in passes && n == |passes| && !Blank(text)
    requires OutcomesInOrder(outcomes) && CompletionInOrder(passes, metas, outcomes)
    ensures OutcomesInOrder(outcomes[n := text]) && CompletionInOrder(passes, metas, outcomes[n := text])
  {
    hide Blank;
    assert |outcomes| > 0 ==> |outcomes| in outcomes.Keys && |outcomes| in passes.Keys;
    if n > 1 {
      assert n - 1 in passes && n - 1 in outcomes;
    }
    RoundsGrow(outcomes, n, text);
  }

  lemma OutcomesAreFull(outcomes: map<nat, string>, n: nat)
    requires OutcomesInOrder(outcomes) && n in outcomes
    ensures !Blank(outcomes[n])
  {
    hide Blank;
  }

  lemma OutcomesKeep(d: Disk, n: nat, text: string)
    requires Consistent(d) && OpenRound(d, n) && !Blank(text)
    ensures Consistent(d.(outcomes := d.outcomes[n := text]))
  {
    hide PassesInOrder, OutcomesInOrder, CompletionInOrder, GatesInOrder, Blank;
    PassesInOrderMeansRounds(d.passes, d.passMeta, Run(d).artifactPaths);
    OutcomesGrow(d.passes, d.passMeta, d.outcomes, n, text);
  }

  lemma PassesGrow(passes: map<nat, string>, metas: MetaFiles, paths: seq<string>, n: nat, text: string)
    requires PassesInOrder(passes, metas, paths) && n == |passes| + 1 && !Blank(text) && MetaReadable(metas, paths, n)
    ensures PassesInOrder(passes[n := text], metas, paths)
  {
    hide Blank, Complete;
    RoundsGrow(passes, n, text);
  }

  lemma MetaChange(passes: map<nat, string>, metas: MetaFiles, paths: seq<string>, n: nat, m: PassMeta)
    requires PassesInOrder(passes, metas, paths) && Complete(m, paths)
    ensures PassesInOrder(passes, metas[n := Good(m)], paths)
  {
    hide Blank, Complete;
  }

  lemma CompletenessKept(m: PassMeta, later: PassMeta, paths: seq<string>)
    requires Complete(m, paths)
    requires later.profileVersion == m.profileVersion && later.gitHead == m.gitHead && later.snapshot == m.snapshot
    ensures Complete(later, paths)
  {
  }

  /** A metadata write that the rules allow keeps the metadata complete. */
  lemma LegalMetaIsComplete(d: Disk, n: nat, m: PassMeta)
    requires HasRun(d) && (IsNewMeta(d, n, m) || IsResumeNote(d, n, m) || IsCompletion(d, n, m))
    ensures Complete(m, Run(d).artifactPaths)
  {
    hide Complete;
    if !IsNewMeta(d, n, m) {
      CompletenessKept(d.passMeta[n].value, m, Run(d).artifactPaths);
    }
  }

  lemma CompletionChange(passes: map<nat, string>, metas: MetaFiles, outcomes: map<nat, string>,
                         requests: RequestFiles, answers: AnswerFiles, n: nat, m: PassMeta)
    requires CompletionInOrder(passes, metas, outcomes) && GatesInOrder(passes, metas, requests, answers)
    requires n in passes ==> n == |passes| && (m.completed ==> n in outcomes && n !in requests)
    ensures CompletionInOrder(passes, metas[n := Good(m)], outcomes)
    ensures GatesInOrder(passes, metas[n := Good(m)], requests, answers)
  {
    var later := metas[n := Good(m)];
    assert forall k :: k != n ==> IsCompleted(metas, k) == IsCompleted(later, k);
  }

  lemma MetaKeeps(d: Disk, n: nat, m: PassMeta)
    requires Consistent(d) && (IsNewMeta(d, n, m) || IsResumeNote(d, n, m) || IsCompletion(d, n, m))
    ensures Consistent(d.(passMeta := d.passMeta[n := Good(m)]))
  {
    hide PassesInOrder, OutcomesInOrder, CompletionInOrder, GatesInOrder, Complete, IsPending;
    LegalMetaIsComplete(d, n, m);
    PassesInOrderMeansRounds(d.passes, d.passMeta, Run(d).artifactPaths);
    MetaChange(d.passes, d.passMeta, Run(d).artifactPaths, n, m);
    CompletionChange(d.passes, d.passMeta, d.outcomes, d.requests, d.answers, n, m);
  }

  lemma NewRound(passes: map<nat, string>, metas: MetaFiles, outcomes: map<nat, string>,
                 requests: RequestFiles, answers: AnswerFiles, n: nat, text: string)
    requires Rounds(passes, |passes|) && n == |passes| + 1 && !IsCompleted(metas, n)
    requires |passes| > 0 ==> IsCompleted(metas, |passes|)
    requires CompletionInOrder(passes, metas, outcomes) && GatesInOrder(passes, metas, requests, answers)
    ensures CompletionInOrder(passes[n := text], metas, outcomes)
    ensures GatesInOrder(passes[n := text], metas, requests, answers)
  {
    hide CompletionInOrder, GatesInOrder;
    NewRoundCompletion(passes, metas, outcomes, n, text);
    NewRoundGates(passes, metas, requests, answers, n, text);
  }

  lemma NewRoundCompletion(passes: map<nat, string>, metas: MetaFiles, outcomes: map<nat, string>, n: nat, text: string)
    requires Rounds(passes, |passes|) && n == |passes| + 1 && !IsCompleted(metas, n)
    requires |passes| > 0 ==> IsCompleted(metas, |passes|)
    requires CompletionInOrder(passes, metas, outcomes)
    ensures CompletionInOrder(passes[n := text], metas, outcomes)
  {
    hide IsCompleted;
    var later := passes[n := text];
    assert later.Keys == passes.Keys + {n} && |later| == |passes| + 1;
    assert outcomes.Keys <= later.Keys;
  }

  lemma NewRoundGates(passes: map<nat, string>, metas: MetaFiles, requests: RequestFiles, answers: AnswerFiles,
                      n: nat, text: string)
    requires !IsCompleted(metas, n) && GatesInOrder(passes, metas, requests, answers)
    ensures GatesInOrder(passes[n := text], metas, requests, answers)
  {
    hide IsPending, IsCompleted;
  }

  lemma PassKeeps(d: Disk, n: nat, text: string)
    requires Consistent(d) && AllClosed(d) && n == |d.passes| + 1 && !Blank(text)
    requires MetaReadable(d.passMeta, Run(d).artifactPaths, n) && !IsCompleted(d.passMeta, n)
    ensures Consistent(d.(passes := d.passes[n := text]))
  {
    hide PassesInOrder, OutcomesInOrder, CompletionInOrder, GatesInOrder, MetaReadable, Blank;
    PassesGrow(d.passes, d.passMeta, Run(d).artifactPaths, n, text);
    PassesInOrderMeansRounds(d.passes, d.passMeta, Run(d).artifactPaths);
    NewRound(d.passes, d.passMeta, d.outcomes, d.requests, d.answers, n, text);
  }

  lemma PassesInOrderMeansRounds(passes: map<nat, string>, metas: MetaFiles, paths: seq<string>)
    requires PassesInOrder(passes, metas, paths)
    ensures Rounds(passes, |passes|)
  {
  }

  lemma GatesKeep(d: Disk, n: nat, e: Disk)
    requires Consistent(d) && OpenRound(d, n) && e == d.(requests := e.requests, answers := e.answers)
    requires e.requests == d.requests - {n} || (ValidRequests(e, n) && e.requests == d.requests[n := e.requests[n]])
    requires e.answers == d.answers
             || (n in e.answers && e.answers[n].Good? && e.answers == d.answers[n := e.answers[n]])
    ensures Consistent(e)
  {
    hide PassesInOrder, OutcomesInOrder, CompletionInOrder;
    forall k | k in d.passes && IsCompleted(d.passMeta, k)
      ensures !IsPending(e.requests, e.answers, k)
    {
      assert k != n && !IsPending(d.requests, d.answers, k);
    }
  }

  /** Every legal step leads from an accepted directory to an accepted directory. */
  lemma StepKeepsConsistent(h: History, i: nat)
    requires h.Recorded() && i < |h.events| && LegalAt(h, i)
    requires Consistent(h.states[i])
    ensures Consistent(h.states[i + 1])
  {
    hide PassesInOrder, OutcomesInOrder, CompletionInOrder, GatesInOrder, Complete, Blank;
    var d, e := h.states[i], h.states[i + 1];
    match h.events[i]
    case Wrote(w) => WriteKeepsConsistent(EventAt(h.events, i - 2), EventAt(h.events, i - 1), d, w);
    case DevWrote(n, w) =>
      match w {
        case OutcomesMd(_, text) => OutcomesKeep(d, n, text);
        case RequestsJson(_, questions) => GatesKeep(d, n, e);
        case _ =>
      }
    case OperatorWrote(w) =>
    case QuestionsRemoved(n) => GatesKeep(d, n, e);
    case CriticRan(_, _) =>
    case Replied(_, _, _) =>
  }

  lemma WriteKeepsConsistent(earlier: Option<Event>, before: Option<Event>, d: Disk, w: Write)
    requires Consistent(d) && WriteIsLegal(earlier, before, d, w)
    ensures Consistent(Put(d, w))
  {
    hide PassesInOrder, OutcomesInOrder, CompletionInOrder, GatesInOrder, Complete, Blank;
    hide EntryPair, ForkPair, CanJudge, Digests;
    match w
    case RunJson(m) =>
      YesNo.UnderstoodIsNotBlank(m.entryAnswer);
    case GatesMd(journal) =>
    case PassMetaJson(n, m) =>
      MetaKeeps(d, n, m);
    case PassMd(n, text) => PassKeeps(d, n, text);
    case OutcomesMd(n, text) =>
      assert !Blank(text) by {
        OutcomesAreFull(d.outcomes, n);
      }
      OutcomesKeep(d, n, text);
    case AnswersJson(n, answers) => GatesKeep(d, n, Put(d, w));
    case _ =>
  }

  /** Over every history that starts from an accepted directory, recovery never refuses. */
  lemma {:induction false} AlwaysRecoverable(h: History, k: nat, i: nat)
    requires LegalFrom(h, k) && k <= i <= |h.events| && Consistent(h.states[k])
    ensures Consistent(h.states[i])
    decreases i
  {
    hide Consistent, IsLegal, Apply;
    if i > k {
      AlwaysRecoverable(h, k, i - 1);
      assert LegalAt(h, i - 1);
      StepKeepsConsistent(h, i - 1);
    }
  }

  /** Questions hang on the round that is running and on no other. */
  lemma PendingIsTheOpenRound(d: Disk, n: nat)
    requires Consistent(d) && IsPending(d.requests, d.answers, n)
    ensures OpenRound(d, n)
  {
    hide Complete, Blank, OutcomesInOrder;
    PassesInOrderMeansRounds(d.passes, d.passMeta, Run(d).artifactPaths);
  }

  /** The questions of every batch on disk are distinct, as the contract asks of development. */
  predicate DistinctBatches(d: Disk) {
    forall n :: n in d.requests && d.requests[n].Good? ==> DistinctQuestions(d.requests[n].value)
  }

  lemma {:induction false} BatchesStayDistinct(h: History, k: nat, i: nat)
    requires LegalFrom(h, k) && k <= i <= |h.events| && DistinctBatches(h.states[k])
    ensures DistinctBatches(h.states[i])
    decreases i
  {
    hide Complete, Blank, DistinctQuestions, WriteIsLegal, OpenRound, AllAnswered, AsksAbout;
    if i > k {
      BatchesStayDistinct(h, k, i - 1);
      assert LegalAt(h, i - 1);
      var d, e := h.states[i - 1], h.events[i - 1];
      assert e.Wrote? ==> h.states[i].requests == d.requests by {
        WritesAskNothing(EventAt(h.events, i - 3), EventAt(h.events, i - 2), d, e);
      }
    }
  }

  lemma WritesAskNothing(earlier: Option<Event>, before: Option<Event>, d: Disk, e: Event)
    requires IsLegal(earlier, before, d, e)
    ensures e.Wrote? ==> !e.w.RequestsJson?
  {
    hide Complete, Blank, OpenRound, AllAnswered, AsksAbout, AllClosed;
  }

  /** What a whole session leaves behind is accepted by the next one. */
  lemma SessionsStayRecoverable(h: History, g: History)
    requires Continues(h, g) && Consistent(h.Now()) && DistinctBatches(h.Now())
    ensures Consistent(g.Now()) && DistinctBatches(g.Now())
  {
    hide Consistent, DistinctBatches, IsLegal;
    AlwaysRecoverable(g, |h.events|, |g.events|);
    BatchesStayDistinct(g, |h.events|, |g.events|);
  }

  // --- a closed round asks nothing --------------------------------------------

  /** No question file lies beside a completed round, not even an answered one. */
  predicate ClosedAreQuiet(d: Disk) {
    forall n :: n in d.passes && IsCompleted(d.passMeta, n) ==> n !in d.requests
  }

  lemma StepKeepsQuiet(h: History, i: nat)
    requires h.Recorded() && i < |h.events| && LegalAt(h, i) && Consistent(h.states[i])
    requires ClosedAreQuiet(h.states[i])
    ensures ClosedAreQuiet(h.states[i + 1])
  {
    hide Complete, Blank, OutcomesInOrder, CompletionInOrder, GatesInOrder, AsksAbout, AllAnswered, WriteIsLegal;
    var d, e := h.states[i], h.events[i];
    if e.Wrote? {
      WriteKeepsQuiet(EventAt(h.events, i - 2), EventAt(h.events, i - 1), d, e.w);
    }
  }

  lemma WriteKeepsQuiet(earlier: Option<Event>, before: Option<Event>, d: Disk, w: Write)
    requires Consistent(d) && ClosedAreQuiet(d) && WriteIsLegal(earlier, before, d, w)
    ensures ClosedAreQuiet(Put(d, w))
  {
    hide Complete, Blank, OutcomesInOrder, CompletionInOrder, GatesInOrder, AsksAbout, AllAnswered, CanJudge, Digests;
    hide YesNo.ReadsYes, EntryPair, ForkPair, Usable;
    PassesInOrderMeansRounds(d.passes, d.passMeta, Run(d).artifactPaths);
  }

  lemma {:induction false} ClosedStayQuiet(h: History, k: nat, i: nat)
    requires LegalFrom(h, k) && k <= i <= |h.events| && Consistent(h.states[k]) && ClosedAreQuiet(h.states[k])
    ensures ClosedAreQuiet(h.states[i])
    decreases i
  {
    hide IsLegal, Apply, Consistent, ClosedAreQuiet;
    if i > k {
      ClosedStayQuiet(h, k, i - 1);
      AlwaysRecoverable(h, k, i - 1);
      assert LegalAt(h, i - 1);
      StepKeepsQuiet(h, i - 1);
    }
  }

  // --- the critic's pass is a fact --------------------------------------------

  /** Two directories agree on everything a closed round left behind. */
  predicate SameRound(d: Disk, e: Disk, n: nat) {
    && n in d.passes && n in e.passes && d.passes[n] == e.passes[n]
    && n in d.passMeta && n in e.passMeta && d.passMeta[n] == e.passMeta[n]
    && n in d.outcomes && n in e.outcomes && d.outcomes[n] == e.outcomes[n]
    && AnswersOf(d, n) == AnswersOf(e, n)
  }

  /** The round whose files an event writes, if it writes any. */
  function Target(e: Event): Option<nat> {
    match e
    case Wrote(w) => TargetOf(w)
    case DevWrote(_, w) => TargetOf(w)
    case OperatorWrote(w) => TargetOf(w)
    case QuestionsRemoved(n) => Some(n)
    case _ => None
  }

  function TargetOf(w: Write): Option<nat> {
    match w
    case PassMetaJson(n, _) => Some(n)
    case PassMd(n, _) => Some(n)
    case OutcomesMd(n, _) => Some(n)
    case AnswersJson(n, _) => Some(n)
    case RequestsJson(n, _) => Some(n)
    case _ => None
  }

  /** Legal events write the files of the open round, or of the next one. */
  lemma TargetIsOpen(earlier: Option<Event>, before: Option<Event>, d: Disk, e: Event)
    requires IsLegal(earlier, before, d, e) && Target(e).Some?
    ensures OpenRound(d, Target(e).value) || (AllClosed(d) && Target(e).value == |d.passes| + 1)
    ensures e.Wrote? && e.w.PassMd? ==> Target(e).value == |d.passes| + 1
    ensures e.DevWrote? ==> !e.w.PassMd? && !e.w.PassMetaJson? && !e.w.AnswersJson?
    ensures !e.OperatorWrote?
  {
    hide Complete, Blank, MetaReadable, CanJudge, Digests, AsksAbout, AllAnswered;
  }

  lemma OtherRoundsUntouched(d: Disk, e: Event, n: nat)
    requires Target(e) != Some(n)
    ensures n in d.passes ==> n in Apply(d, e).passes && Apply(d, e).passes[n] == d.passes[n]
    ensures n in d.passMeta ==> n in Apply(d, e).passMeta && Apply(d, e).passMeta[n] == d.passMeta[n]
    ensures n in d.outcomes ==> n in Apply(d, e).outcomes && Apply(d, e).outcomes[n] == d.outcomes[n]
    ensures n in d.answers <==> n in Apply(d, e).answers
    ensures n in d.answers ==> Apply(d, e).answers[n] == d.answers[n]
  {
  }

  lemma StepKeepsPasses(h: History, i: nat, n: nat)
    requires h.Recorded() && i < |h.events| && LegalAt(h, i)
    requires Consistent(h.states[i]) && n in h.states[i].passes
    ensures n in h.states[i + 1].passes && h.states[i + 1].passes[n] == h.states[i].passes[n]
    ensures IsCompleted(h.states[i].passMeta, n) ==> SameRound(h.states[i], h.states[i + 1], n)
  {
    hide Complete, Blank, OutcomesInOrder, GatesInOrder, CompletionInOrder, IsLegal;
    var d, e := h.states[i], h.events[i];
    PassesInOrderMeansRounds(d.passes, d.passMeta, Run(d).artifactPaths);
    if IsCompleted(d.passMeta, n) {
      CompletedHasOutcomes(d, n);
    }
    if Target(e).Some? {
      TargetIsOpen(EventAt(h.events, i - 2), EventAt(h.events, i - 1), d, e);
    }
    if Target(e) != Some(n) {
      OtherRoundsUntouched(d, e, n);
    }
  }

  /** A pass, once on disk, never changes; a closed round never changes in any file. */
  lemma {:induction false} PassesArePermanent(h: History, k: nat, i: nat, j: nat, n: nat)
    requires LegalFrom(h, k) && k <= i <= j <= |h.events| && Consistent(h.states[k])
    requires n in h.states[i].passes
    ensures n in h.states[j].passes && h.states[j].passes[n] == h.states[i].passes[n]
    ensures IsCompleted(h.states[i].passMeta, n) ==>
            SameRound(h.states[i], h.states[j], n) && IsCompleted(h.states[j].passMeta, n)
    decreases j
  {
    hide Consistent, IsLegal, Apply;
    if i < j {
      PassesArePermanent(h, k, i, j - 1, n);
      AlwaysRecoverable(h, k, j - 1);
      assert LegalAt(h, j - 1);
      StepKeepsPasses(h, j - 1, n);
    } else if IsCompleted(h.states[i].passMeta, n) {
      AlwaysRecoverable(h, k, i);
      CompletedHasOutcomes(h.states[i], n);
    }
  }

  lemma CompletedHasOutcomes(d: Disk, n: nat)
    requires Consistent(d) && n in d.passes && IsCompleted(d.passMeta, n)
    ensures n in d.outcomes && !Blank(d.outcomes[n]) && n in d.passMeta
    ensures SameRound(d, d, n)
  {
    hide Complete, Blank;
  }

  lemma StepKeepsSnapshots(h: History, i: nat, n: nat)
    requires h.Recorded() && i < |h.events| && LegalAt(h, i)
    requires Consistent(h.states[i]) && n in h.states[i].passes
    ensures n in h.states[i].passMeta && n in h.states[i + 1].passMeta
    ensures h.states[i].passMeta[n].Good? && h.states[i + 1].passMeta[n].Good?
    ensures h.states[i + 1].passMeta[n].value.snapshot == h.states[i].passMeta[n].value.snapshot
  {
    hide Complete, Blank, OutcomesInOrder, GatesInOrder, CompletionInOrder, Apply, Digests, CanJudge;
    var d, e := h.states[i], h.events[i];
    PassesInOrderMeansRounds(d.passes, d.passMeta, Run(d).artifactPaths);
    if Target(e) != Some(n) {
      hide IsLegal;
      OtherRoundsUntouched(d, e, n);
    } else if e.Wrote? && e.w.PassMetaJson? {
      MetaReplaced(d, n, e.w.passMeta);
    } else {
      hide IsLegal, MetaReadable;
      OnlyMetaWritesMeta(EventAt(h.events, i - 2), EventAt(h.events, i - 1), d, e);
    }
  }

  lemma MetaReplaced(d: Disk, n: nat, m: PassMeta)
    ensures Apply(d, Wrote(PassMetaJson(n, m))).passMeta == d.passMeta[n := Good(m)]
  {
  }

  lemma OnlyMetaWritesMeta(earlier: Option<Event>, before: Option<Event>, d: Disk, e: Event)
    requires IsLegal(earlier, before, d, e) && !(e.Wrote? && e.w.PassMetaJson?)
    ensures Apply(d, e).passMeta == d.passMeta
  {
    hide WriteIsLegal, OpenRound, AllClosed, CanJudge, AsksAbout, AllAnswered, Blank;
  }

  /** The recorded snapshot of what a pass judged outlives every later note in its metadata. */
  lemma {:induction false} SnapshotsArePermanent(h: History, k: nat, i: nat, j: nat, n: nat)
    requires LegalFrom(h, k) && k <= i <= j <= |h.events| && Consistent(h.states[k])
    requires n in h.states[i].passes
    ensures n in h.states[j].passes && n in h.states[i].passMeta && n in h.states[j].passMeta
    ensures h.states[i].passMeta[n].Good? && h.states[j].passMeta[n].Good?
    ensures h.states[j].passMeta[n].value.snapshot == h.states[i].passMeta[n].value.snapshot
    decreases j
  {
    hide IsLegal, Apply, Complete, Blank, OutcomesInOrder, GatesInOrder, CompletionInOrder;
    AlwaysRecoverable(h, k, i);
    if i < j {
      SnapshotsArePermanent(h, k, i, j - 1, n);
      AlwaysRecoverable(h, k, j - 1);
      assert LegalAt(h, j - 1);
      StepKeepsPasses(h, j - 1, n);
      StepKeepsSnapshots(h, j - 1, n);
    }
  }

  /** A pass is written for round N + 1 only over a history in which rounds 1..N are all
      completed, verbatim as the critic gave it, and next to complete metadata that describes
      exactly what was judged. */
  lemma PassesAreWrittenInOrder(h: History, k: nat, i: nat, n: nat, text: string)
    requires LegalFrom(h, k) && k <= i < |h.events| && Consistent(h.states[k])
    requires h.events[i] == Wrote(PassMd(n, text))
    ensures n == |h.states[i].passes| + 1 && n !in h.states[i].passes
    ensures forall m :: 1 <= m < n ==> m in h.states[i].passes && IsCompleted(h.states[i].passMeta, m)
    ensures EventAt(h.events, i - 2) == Some(CriticRan(n, text))
    ensures CanJudge(h.states[i]) && MetaReadable(h.states[i].passMeta, Run(h.states[i]).artifactPaths, n)
    ensures h.states[i].passMeta[n].value.snapshot == Digests(JudgedOf(h.states[i]))
  {
    hide Complete, Blank, OutcomesInOrder, GatesInOrder, Apply;
    AlwaysRecoverable(h, k, i);
    assert LegalAt(h, i);
    var d := h.states[i];
    PassesInOrderMeansRounds(d.passes, d.passMeta, Run(d).artifactPaths);
  }

  /** The critic is never replayed: once a round has its pass, he runs for later rounds only. */
  lemma CriticIsNeverReplayed(h: History, k: nat, i: nat, n: nat, text: string, j: nat)
    requires LegalFrom(h, k) && k <= i < j < |h.events| && Consistent(h.states[k])
    requires h.events[i] == Wrote(PassMd(n, text))
    ensures h.events[j].CriticRan? ==> h.events[j].n > n
    ensures h.events[j].Wrote? && h.events[j].w.PassMd? ==> h.events[j].w.n > n
  {
    hide Complete, Blank, OutcomesInOrder, CompletionInOrder, GatesInOrder;
    assert n in h.states[i + 1].passes;
    PassesArePermanent(h, k, i + 1, j, n);
    AlwaysRecoverable(h, k, j);
    var d := h.states[j];
    assert LegalAt(h, j);
    PassesInOrderMeansRounds(d.passes, d.passMeta, Run(d).artifactPaths);
  }

  /** No round is ever without complete metadata for its pass, not even in the middle of a
      write; a completed round has non-empty outcomes and no question file. */
  lemma RoundsAreWhole(h: History, k: nat, i: nat, n: nat)
    requires LegalFrom(h, k) && k <= i <= |h.events| && Consistent(h.states[k]) && ClosedAreQuiet(h.states[k])
    requires n in h.states[i].passes
    ensures HasRun(h.states[i])
    ensures MetaReadable(h.states[i].passMeta, Run(h.states[i]).artifactPaths, n)
    ensures !Blank(h.states[i].passes[n])
    ensures IsCompleted(h.states[i].passMeta, n) ==>
            n in h.states[i].outcomes && !Blank(h.states[i].outcomes[n]) && n !in h.states[i].requests
  {
    hide Complete, Blank, IsPending, LegalAt;
    AlwaysRecoverable(h, k, i);
    ClosedStayQuiet(h, k, i);
  }

  // --- the entry gate -----------------------------------------------------------

  lemma ConfirmationStays(h: History, i: nat)
    requires h.Recorded() && i < |h.events| && LegalAt(h, i)
    ensures HasRun(h.states[i + 1])
    ensures Run(h.states[i]).entryConfirmed ==> h.states[i + 1].meta == h.states[i].meta
    ensures !Run(h.states[i]).entryConfirmed && Run(h.states[i + 1]).entryConfirmed ==>
            var m := Run(h.states[i + 1]);
            YesNo.ReadsYes(m.entryAnswer) && !Blank(m.entryPrompt)
            && EventAt(h.events, i - 1) == Some(Replied(EntryGate, m.entryPrompt, m.entryAnswer))
  {
    hide Blank, Complete, YesNo.Verdict, OpenRound, AsksAbout, AllClosed, CanJudge, AllAnswered;
    var e := h.events[i];
    if e.Wrote? && e.w.RunJson? {
      YesNo.UnderstoodIsNotBlank(e.w.meta.entryAnswer);
    }
  }

  /** The flag never exists without its evidence: the operator was asked exactly the recorded
      question, and the recorded answer, which reads as a yes, is the word he gave to it. */
  lemma {:induction false} ConfirmedByTheOperator(h: History, k: nat, i: nat)
    requires LegalFrom(h, k) && k <= i <= |h.events| && HasRun(h.states[k])
    requires !Run(h.states[k]).entryConfirmed
    ensures HasRun(h.states[i])
    ensures Run(h.states[i]).entryConfirmed ==>
            var m := Run(h.states[i]);
            YesNo.ReadsYes(m.entryAnswer)
            && exists j :: 0 <= j < i && h.events[j] == Replied(EntryGate, m.entryPrompt, m.entryAnswer)
    decreases i
  {
    hide Blank, IsLegal, Apply;
    if i > k {
      ConfirmedByTheOperator(h, k, i - 1);
      assert LegalAt(h, i - 1);
      ConfirmationStays(h, i - 1);
      if !Run(h.states[i - 1]).entryConfirmed && Run(h.states[i]).entryConfirmed {
        assert EventAt(h.events, i - 2).Some?;
        assert h.events[i - 2] == EventAt(h.events, i - 2).value;
      }
    }
  }

  /** The critic never runs before a recorded yes. */
  lemma CriticWaitsForTheOperator(h: History, k: nat, i: nat)
    requires LegalFrom(h, k) && k <= i < |h.events| && HasRun(h.states[k])
    requires !Run(h.states[k]).entryConfirmed && h.events[i].CriticRan?
    ensures exists j, prompt, answer ::
              0 <= j < i && h.events[j] == Replied(EntryGate, prompt, answer) && YesNo.ReadsYes(answer)
  {
    hide Blank, Apply;
    ConfirmedByTheOperator(h, k, i);
    assert LegalAt(h, i);
  }

  lemma StepKeepsPaths(h: History, i: nat)
    requires h.Recorded() && i < |h.events| && LegalAt(h, i)
    ensures HasRun(h.states[i + 1]) && Run(h.states[i + 1]).artifactPaths == Run(h.states[i]).artifactPaths
  {
    hide Blank, Complete, YesNo.Verdict, OpenRound, AsksAbout, AllClosed, CanJudge, AllAnswered;
    var e := h.events[i];
    if e.Wrote? && e.w.RunJson? {
      YesNo.UnderstoodIsNotBlank(e.w.meta.entryAnswer);
    }
  }

  lemma {:induction false} PathsArePermanent(h: History, k: nat, i: nat, j: nat)
    requires LegalFrom(h, k) && k <= i <= j <= |h.events| && HasRun(h.states[i])
    ensures HasRun(h.states[j]) && Run(h.states[j]).artifactPaths == Run(h.states[i]).artifactPaths
    decreases j
  {
    hide IsLegal, Apply, Usable;
    if i < j {
      PathsArePermanent(h, k, i, j - 1);
      assert LegalAt(h, j - 1);
      StepKeepsPaths(h, j - 1);
    }
  }

  /** The description, the note and every artefact of the run are the same, byte for byte. */
  predicate SubjectKept(d: Disk, e: Disk, paths: seq<string>) {
    && e.description == d.description && e.note == d.note
    && forall path :: path in paths ==> path in d.work && path in e.work && e.work[path] == d.work[path]
  }

  lemma SameJudgedExactly(d: Disk, e: Disk)
    requires CanJudge(d) && CanJudge(e) && Run(d).artifactPaths == Run(e).artifactPaths
    ensures JudgedOf(d) == JudgedOf(e) <==> SubjectKept(d, e, Run(d).artifactPaths)
  {
    hide Usable;
    if JudgedOf(d) == JudgedOf(e) {
      forall path | path in Run(d).artifactPaths
        ensures path in d.work && path in e.work && e.work[path] == d.work[path]
      {
        assert path in PathSet(Run(d).artifactPaths);
        assert JudgedOf(d).artifacts[path] == JudgedOf(e).artifacts[path];
      }
    }
  }

  /** When the recorded snapshot of a round equals the present one, nothing that its pass
      judged has changed by a byte: artefacts, description and launch note are the same. */
  lemma SameSnapshotSameSubject(h: History, k: nat, i: nat, j: nat, n: nat, text: string)
    requires LegalFrom(h, k) && k <= i < j <= |h.events| && Consistent(h.states[k])
    requires h.events[i] == Wrote(PassMd(n, text))
    requires CanJudge(h.states[j]) && !Reserved(PathSet(Run(h.states[j]).artifactPaths))
    ensures n in h.states[j].passMeta && h.states[j].passMeta[n].Good? && CanJudge(h.states[i])
    ensures h.states[j].passMeta[n].value.snapshot == Digests(JudgedOf(h.states[j])) <==>
            SubjectKept(h.states[i], h.states[j], Run(h.states[j]).artifactPaths)
  {
    hide IsLegal, Apply, Complete, Blank, OutcomesInOrder, GatesInOrder, CompletionInOrder, Digests;
    hide SubjectKept, JudgedOf;
    PassesAreWrittenInOrder(h, k, i, n, text);
    PassMdLands(h, i, n, text);
    SnapshotsArePermanent(h, k, i + 1, j, n);
    AlwaysRecoverable(h, k, i);
    PathsArePermanent(h, k, i, j);
    EqualDigestsMeanEqualFiles(JudgedOf(h.states[j]), JudgedOf(h.states[i]));
    SameJudgedExactly(h.states[i], h.states[j]);
  }

  lemma PassMdLands(h: History, i: nat, n: nat, text: string)
    requires h.Recorded() && i < |h.events| && h.events[i] == Wrote(PassMd(n, text))
    ensures h.states[i + 1] == h.states[i].(passes := h.states[i].passes[n := text])
  {
  }

  // --- questions to the operator -------------------------------------------------

  lemma StepKeepsAnswers(h: History, i: nat, n: nat)
    requires h.Recorded() && i < |h.events| && LegalAt(h, i)
    ensures AnswersOf(h.states[i], n) <= AnswersOf(h.states[i + 1], n)
    ensures AnswersOf(h.states[i + 1], n) != AnswersOf(h.states[i], n) ==>
            exists a: Answer ::
              && AnswersOf(h.states[i + 1], n) == AnswersOf(h.states[i], n) + [a]
              && a.question !in RunFiles.Asked(AnswersOf(h.states[i], n))
              && AsksAbout(h.states[i], n, a.question)
              && EventAt(h.events, i - 1) == Some(Replied(Fork(n), a.question, a.answer))
  {
    hide Blank, Complete, YesNo.ReadsYes, MetaReadable, CanJudge, AllAnswered, AllClosed, OpenRound;
    var d, e := h.states[i], h.events[i];
    if e.Wrote? && e.w.AnswersJson? && e.w.n == n {
      var a := e.w.answers[|AnswersOf(d, n)|];
      assert AnswersOf(h.states[i + 1], n) == e.w.answers == AnswersOf(d, n) + [a];
    } else {
      assert AnswersOf(h.states[i + 1], n) == AnswersOf(d, n);
    }
  }

  /** Durable answers only grow, and no question ever gets a second one. */
  lemma {:induction false} AnswersOnlyGrow(h: History, k: nat, i: nat, j: nat, n: nat)
    requires LegalFrom(h, k) && k <= i <= j <= |h.events|
    ensures AnswersOf(h.states[i], n) <= AnswersOf(h.states[j], n)
    ensures AnsweredOnce(AnswersOf(h.states[i], n)) ==> AnsweredOnce(AnswersOf(h.states[j], n))
    decreases j
  {
    hide IsLegal, Apply, AnswersOf, AsksAbout;
    if i < j {
      AnswersOnlyGrow(h, k, i, j - 1, n);
      assert LegalAt(h, j - 1);
      StepKeepsAnswers(h, j - 1, n);
    }
  }

  lemma InPrefix(a: Answer, few: seq<Answer>, many: seq<Answer>)
    requires few <= many && a in few
    ensures a in many
  {
    var i :| 0 <= i < |few| && few[i] == a;
    assert many[i] == a;
  }

  lemma AskedGrows(few: seq<Answer>, many: seq<Answer>)
    requires few <= many
    ensures RunFiles.Asked(few) <= RunFiles.Asked(many)
  {
    forall a | a in few
      ensures a in many
    {
      InPrefix(a, few, many);
    }
  }

  /** A question is never put to the operator again once its answer is durable. */
  lemma NeverAskedAgain(h: History, k: nat, i: nat, j: nat, n: nat, a: Answer, reply: string)
    requires LegalFrom(h, k) && k <= i <= j < |h.events|
    requires a in AnswersOf(h.states[i], n)
    ensures h.events[j] != Replied(Fork(n), a.question, reply)
  {
    hide Blank, Complete, AsksAbout, AnswersOf, OpenRound;
    AnswersOnlyGrow(h, k, i, j, n);
    AskedGrows(AnswersOf(h.states[i], n), AnswersOf(h.states[j], n));
    assert a.question in RunFiles.Asked(AnswersOf(h.states[i], n));
    assert LegalAt(h, j);
  }

  /** Every durable answer is what the operator said to exactly that question. */
  lemma {:induction false} AnswersAreTheOperators(h: History, k: nat, j: nat, n: nat, a: Answer)
    requires LegalFrom(h, k) && k <= j <= |h.events|
    requires a in AnswersOf(h.states[j], n) && a !in AnswersOf(h.states[k], n)
    ensures exists i :: 0 <= i < j && h.events[i] == Replied(Fork(n), a.question, a.answer)
    decreases j
  {
    hide IsLegal, Apply, AnswersOf, AsksAbout;
    if j > k {
      assert LegalAt(h, j - 1);
      StepKeepsAnswers(h, j - 1, n);
      if a in AnswersOf(h.states[j - 1], n) {
        AnswersAreTheOperators(h, k, j - 1, n, a);
      } else {
        assert h.events[j - 2] == Replied(Fork(n), a.question, a.answer);
      }
    }
  }

  /** The question file disappears only when every question in it has its durable answer. */
  lemma QuestionsGoWhenAnswered(h: History, k: nat, i: nat, n: nat)
    requires LegalFrom(h, k) && k <= i < |h.events|
    requires n in h.states[i].requests && n !in h.states[i + 1].requests
    ensures ValidRequests(h.states[i], n)
    ensures forall q :: q in h.states[i].requests[n].value ==>
              exists a :: a in AnswersOf(h.states[i + 1], n) && a.question == q.text
  {
    hide Blank, Complete, AsksAbout, OpenRound, WriteIsLegal;
    assert LegalAt(h, i);
    var d := h.states[i];
    assert AnswersOf(h.states[i + 1], n) == AnswersOf(d, n);
    forall q | q in d.requests[n].value
      ensures exists a :: a in AnswersOf(d, n) && a.question == q.text
    {
      assert q.text in RunFiles.Asked(AnswersOf(d, n));
    }
  }

  // --- the journal is derived from the state ---------------------------------------

  /** A journal record of the entry gate, or a fork whose answer stands in the JSON file. */
  ghost predicate Backed(h: History, i: nat, r: GateRecord)
    requires h.Recorded() && i <= |h.events|
  {
    || EntryPair(h.states[i], r)
    || (exists n :: ForkPair(h.states[i], n, r))
    || (exists j :: 0 <= j < i && h.events[j] == Replied(EntryGate, r.question, r.answer) && !YesNo.ReadsYes(r.answer))
    || (exists j :: 0 <= j < i && h.events[j] == Replied(Confirmation, r.question, r.answer))
  }

  lemma BackedStays(h: History, i: nat, r: GateRecord)
    requires h.Recorded() && i < |h.events| && LegalAt(h, i) && Backed(h, i, r)
    ensures Backed(h, i + 1, r)
  {
    hide Blank, IsLegal, Apply, AnswersOf, AsksAbout;
    if EntryPair(h.states[i], r) {
      ConfirmationStays(h, i);
    } else if n :| ForkPair(h.states[i], n, r) {
      StepKeepsAnswers(h, i, n);
      InPrefix(Answer(r.question, r.answer), AnswersOf(h.states[i], n), AnswersOf(h.states[i + 1], n));
      assert ForkPair(h.states[i + 1], n, r);
    }
  }

  lemma OnlyGatesMdJournals(earlier: Option<Event>, before: Option<Event>, d: Disk, e: Event)
    requires IsLegal(earlier, before, d, e) && !(e.Wrote? && e.w.GatesMd?)
    ensures JournalOf(Apply(d, e)) == JournalOf(d)
  {
    hide WriteIsLegal, OpenRound, AllClosed, CanJudge, AsksAbout, AllAnswered, Blank;
  }

  lemma NewRecordIsBacked(h: History, i: nat, r: GateRecord)
    requires h.Recorded() && i < |h.events| && LegalAt(h, i)
    requires r in JournalOf(h.states[i + 1]) && r !in JournalOf(h.states[i])
    ensures Backed(h, i, r)
  {
    hide Blank, Complete, AnswersOf, AsksAbout, OpenRound, AllClosed, YesNo.ReadsYes, EntryPair, ForkPair, CanJudge;
    var d, e := h.states[i], h.events[i];
    if !(e.Wrote? && e.w.GatesMd?) {
      OnlyGatesMdJournals(EventAt(h.events, i - 2), EventAt(h.events, i - 1), d, e);
    } else {
      assert r == e.w.journal[|JournalOf(d)|];
      if EventAt(h.events, i - 1).Some? {
        assert h.events[i - 1] == EventAt(h.events, i - 1).value;
      }
    }
  }

  /** Every record in gates.md comes from state that was durable first, or is an exchange of
      the entry gate that decided nothing: the journal never knows more than the state. */
  lemma {:induction false} JournalIsDerived(h: History, k: nat, i: nat, r: GateRecord)
    requires LegalFrom(h, k) && k <= i <= |h.events|
    requires r in JournalOf(h.states[i]) && r !in JournalOf(h.states[k])
    ensures Backed(h, i, r)
    decreases i
  {
    hide IsLegal, Backed, JournalOf, Apply;
    if i > k {
      assert LegalAt(h, i - 1);
      if r in JournalOf(h.states[i - 1]) {
        JournalIsDerived(h, k, i - 1, r);
      } else {
        NewRecordIsBacked(h, i - 1, r);
      }
      BackedStays(h, i - 1, r);
    }
  }

  /** A record of words that were spoken neither at the entry gate nor in a confirmation is that of
      a fork, and its answer stands in the JSON file. */
  lemma ForkRecordsAreAnswered(h: History, k: nat, i: nat, r: GateRecord)
    requires LegalFrom(h, k) && k <= i <= |h.events| && HasRun(h.states[k]) && !Run(h.states[k]).entryConfirmed
    requires r in JournalOf(h.states[i]) && r !in JournalOf(h.states[k])
    requires forall j :: 0 <= j < i ==>
               && h.events[j] != Replied(EntryGate, r.question, r.answer)
               && h.events[j] != Replied(Confirmation, r.question, r.answer)
    ensures exists n :: ForkPair(h.states[i], n, r)
  {
    hide IsLegal, JournalOf, Apply, ForkPair;
    JournalIsDerived(h, k, i, r);
    ConfirmedByTheOperator(h, k, i);
  }

  // --- the directory is its history ---------------------------------------------------

  /** Number of passes written among the events k..i. */
  ghost function PassesWritten(h: History, k: nat, i: nat): nat
    requires k <= i <= |h.events|
  {
    if i == k then 0
    else PassesWritten(h, k, i - 1) + if h.events[i - 1].Wrote? && h.events[i - 1].w.PassMd? then 1 else 0
  }

  ghost predicate Closes(d: Disk, e: Event) {
    e.Wrote? && e.w.PassMetaJson? && e.w.passMeta.completed && OpenRound(d, e.w.n)
  }

  /** Number of rounds marked complete among the events k..i. */
  ghost function RoundsClosed(h: History, k: nat, i: nat): nat
    requires h.Recorded() && k <= i <= |h.events|
  {
    if i == k then 0
    else RoundsClosed(h, k, i - 1) + if Closes(h.states[i - 1], h.events[i - 1]) then 1 else 0
  }

  lemma StepCounts(h: History, i: nat)
    requires h.Recorded() && i < |h.events| && LegalAt(h, i) && Consistent(h.states[i])
    ensures |h.states[i + 1].passes| ==
            |h.states[i].passes| + if h.events[i].Wrote? && h.events[i].w.PassMd? then 1 else 0
    ensures ClosedRounds(h.states[i + 1]) ==
            ClosedRounds(h.states[i]) + if Closes(h.states[i], h.events[i]) then 1 else 0
  {
    hide Blank, Complete, AnswersOf, AsksAbout, CanJudge, Digests, AllAnswered, GatesInOrder, OutcomesInOrder;
    hide CompletionInOrder;
    var d := h.states[i];
    PassesInOrderMeansRounds(d.passes, d.passMeta, Run(d).artifactPaths);
  }

  /** What recovery reads out of a directory is what happened to it: as many passes as were
      written, as many closed rounds as were marked complete, wherever the machine died. */
  lemma {:induction false} DirectoryTellsHistory(h: History, k: nat, i: nat)
    requires LegalFrom(h, k) && k <= i <= |h.events| && Consistent(h.states[k])
    ensures |h.states[i].passes| == |h.states[k].passes| + PassesWritten(h, k, i)
    ensures ClosedRounds(h.states[i]) == ClosedRounds(h.states[k]) + RoundsClosed(h, k, i)
    decreases i
  {
    hide IsLegal, Apply, Consistent, ClosedRounds, Closes;
    if i > k {
      DirectoryTellsHistory(h, k, i - 1);
      AlwaysRecoverable(h, k, i - 1);
      assert LegalAt(h, i - 1);
      StepCounts(h, i - 1);
    }
  }

  /** Development's outcomes are accepted by recovery exactly when they are not blank: a blank
      outcomes file, left by a session that the harness tells its user to repeat, would make
      every later start refuse. This is why the rules ask non-blank outcomes of development. */
  lemma BlankOutcomesBlockRecovery(d: Disk, n: nat, text: string)
    requires Consistent(d) && OpenRound(d, n)
    ensures Consistent(d.(outcomes := d.outcomes[n := text])) <==> !Blank(text)
  {
    if !Blank(text) {
      OutcomesKeep(d, n, text);
    } else {
      var e := d.(outcomes := d.outcomes[n := text]);
      assert n in e.outcomes && Blank(e.outcomes[n]);
    }
  }
}
