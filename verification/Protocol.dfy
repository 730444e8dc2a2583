/** The protocol of a run: which durable steps may follow which, and what that implies for
    every history, wherever the machine died in between. */
module Protocol {
  import opened Wrappers
  import opened Text
  import opened Snapshot
  import opened RunFiles
  import YesNo

  /** One file replaced atomically. */
  datatype Write =
    | RunJson(meta: RunMeta)
    | DescriptionMd(text: string)
    | NoteMd(text: string)
    | GatesMd(journal: seq<GateRecord>)
    | PassMetaJson(n: nat, passMeta: PassMeta)
    | PassMd(n: nat, text: string)
    | OutcomesMd(n: nat, text: string)
    | AnswersJson(n: nat, answers: seq<Answer>)
    | RequestsJson(n: nat, questions: seq<Question>)
    | WorkFiles(path: string, files: Artifact)
    | WorkGone(path: string)

  /** What the operator is asked about: the entry gate, a fork of one round, or whether an
      action is to be carried out. */
  datatype Scope = EntryGate | Fork(n: nat) | Confirmation

  datatype Event =
    | Wrote(w: Write)
    | DevWrote(n: nat, w: Write)
    | OperatorWrote(w: Write)
    | QuestionsRemoved(n: nat)
    | CriticRan(n: nat, text: string)
    | Replied(scope: Scope, prompt: string, reply: string)

  /** One file is replaced; every other file keeps its content. */
  function Put(d: Disk, w: Write): Disk {
    Disk(
      if w.RunJson? then Some(Good(w.meta)) else d.meta,
      if w.DescriptionMd? then Some(w.text) else d.description,
      if w.NoteMd? then Some(w.text) else d.note,
      if w.GatesMd? then Some(w.journal) else d.journal,
      if w.PassMd? then d.passes[w.n := w.text] else d.passes,
      if w.PassMetaJson? then d.passMeta[w.n := Good(w.passMeta)] else d.passMeta,
      if w.OutcomesMd? then d.outcomes[w.n := w.text] else d.outcomes,
      if w.RequestsJson? then d.requests[w.n := Good(w.questions)] else d.requests,
      if w.AnswersJson? then d.answers[w.n := Good(w.answers)] else d.answers,
      d.foreign,
      if w.WorkFiles? then d.work[w.path := w.files] else if w.WorkGone? then d.work - {w.path} else d.work)
  }

  function Apply(d: Disk, e: Event): Disk {
    match e
    case Wrote(w) => Put(d, w)
    case DevWrote(_, w) => Put(d, w)
    case OperatorWrote(w) => Put(d, w)
    case QuestionsRemoved(n) => d.(requests := d.requests - {n})
    case CriticRan(_, _) => d
    case Replied(_, _, _) => d
  }

  /** Everything that happened to a run directory, with the directory before and after it. */
  datatype History = History(states: seq<Disk>, events: seq<Event>) {
    predicate Recorded() {
      && |states| == |events| + 1
      && forall i :: 0 <= i < |events| ==> states[i + 1] == Apply(states[i], events[i])
    }

    function Now(): Disk
      requires Recorded()
    {
      states[|events|]
    }

    function Extended(e: Event): (h: History)
      requires Recorded()
      ensures h.Recorded() && h.Now() == Apply(Now(), e) && Prefix(h)
      ensures |h.events| == |events| + 1 && h.events[|events|] == e
    {
      History(states + [Apply(Now(), e)], events + [e])
    }

    predicate Prefix(h: History) {
      && |states| <= |h.states| && |events| <= |h.events|
      && (forall i :: 0 <= i < |states| ==> h.states[i] == states[i])
      && (forall i :: 0 <= i < |events| ==> h.events[i] == events[i])
    }
  }

  // --- the rules -----------------------------------------------------------

  const ENTRY_KIND := "the entry gate"

  predicate AllClosed(d: Disk) {
    ClosedRounds(d) == |d.passes|
  }

  predicate OpenRound(d: Disk, n: nat) {
    n > 0 && n == |d.passes| && n in d.passes && !IsCompleted(d.passMeta, n)
  }

  function JournalOf(d: Disk): seq<GateRecord> {
    if d.journal.Some? then d.journal.value else []
  }

  predicate ValidRequests(d: Disk, n: nat) {
    n in d.requests && d.requests[n].Good?
  }

  predicate AsksAbout(d: Disk, n: nat, q: string) {
    ValidRequests(d, n) && exists i :: 0 <= i < |d.requests[n].value| && d.requests[n].value[i].text == q
  }

  /** A change of what is judged: the artefacts, the description or the note. */
  predicate EditsSubject(w: Write) {
    w.DescriptionMd? || w.NoteMd? || w.WorkFiles? || w.WorkGone?
  }

  /** Development's side of the contract: non-empty outcomes, well-formed distinct questions,
      both for the current round only; edits of what is judged are its ordinary work. */
  predicate DevelopmentMay(n: nat, w: Write) {
    match w
    case OutcomesMd(m, text) => m == n && !Blank(text)
    case RequestsJson(m, questions) => m == n && DistinctQuestions(questions)
    case _ => EditsSubject(w)
  }

  predicate IsNewMeta(d: Disk, n: nat, m: PassMeta)
    requires HasRun(d)
  {
    && AllClosed(d) && n == |d.passes| + 1
    && CanJudge(d) && Complete(m, Run(d).artifactPaths) && !m.completed && m.snapshot == Digests(JudgedOf(d))
  }

  predicate IsResumeNote(d: Disk, n: nat, m: PassMeta)
    requires HasRun(d)
  {
    OpenRound(d, n) && MetaReadable(d.passMeta, Run(d).artifactPaths, n)
    && m == d.passMeta[n].value.(versionAtResume := m.versionAtResume)
  }

  predicate IsCompletion(d: Disk, n: nat, m: PassMeta)
    requires HasRun(d)
  {
    && OpenRound(d, n) && MetaReadable(d.passMeta, Run(d).artifactPaths, n) && n in d.outcomes && n !in d.requests
    && m == d.passMeta[n].value.(completed := true)
  }

  /** A journal record is derived: its pair was just spoken at the entry gate, stands in
      run.json, or is already durable among the answers of some round. */
  predicate EntryPair(d: Disk, r: GateRecord) {
    HasRun(d) && Run(d).entryConfirmed && r == GateRecord(Run(d).entryPrompt, Run(d).entryAnswer, ENTRY_KIND)
  }

  predicate ForkPair(d: Disk, n: nat, r: GateRecord) {
    Answer(r.question, r.answer) in AnswersOf(d, n)
  }

  /** `before` is the event just before; `d` the directory the write meets. */
  predicate WriteIsLegal(earlier: Option<Event>, before: Option<Event>, d: Disk, w: Write)
    requires HasRun(d)
  {
    match w
    case RunJson(m) =>
      && !Run(d).entryConfirmed
      && YesNo.ReadsYes(m.entryAnswer) && !Blank(m.entryPrompt)
      && m == Run(d).(entryConfirmed := true, entryAnswer := m.entryAnswer, entryPrompt := m.entryPrompt)
      && before == Some(Replied(EntryGate, m.entryPrompt, m.entryAnswer))
    case GatesMd(journal) =>
      && |journal| == |JournalOf(d)| + 1
      && var r := journal[|JournalOf(d)|];
      && journal == JournalOf(d) + [r]
      && ((before == Some(Replied(EntryGate, r.question, r.answer)) && !YesNo.ReadsYes(r.answer))
          || before == Some(Replied(Confirmation, r.question, r.answer))
          || EntryPair(d, r)
          || (exists n :: n in d.answers && ForkPair(d, n, r)))
    case PassMetaJson(n, m) =>
      || (IsNewMeta(d, n, m) && before.Some? && before.value.CriticRan? && before.value.n == n)
      || IsResumeNote(d, n, m)
      || IsCompletion(d, n, m)
    case PassMd(n, text) =>
      && AllClosed(d) && n == |d.passes| + 1 && !Blank(text)
      && MetaReadable(d.passMeta, Run(d).artifactPaths, n) && IsNewMeta(d, n, d.passMeta[n].value)
      && earlier == Some(CriticRan(n, text))
      && before == Some(Wrote(PassMetaJson(n, d.passMeta[n].value)))
    case OutcomesMd(n, text) =>
      OpenRound(d, n) && n in d.outcomes && d.outcomes[n] == text
    case AnswersJson(n, answers) =>
      && OpenRound(d, n)
      && |answers| == |AnswersOf(d, n)| + 1
      && var a := answers[|AnswersOf(d, n)|];
      && answers == AnswersOf(d, n) + [a]
      && AsksAbout(d, n, a.question) && a.question !in RunFiles.Asked(AnswersOf(d, n))
      && before == Some(Replied(Fork(n), a.question, a.answer))
    case _ => false
  }

  predicate IsLegal(earlier: Option<Event>, before: Option<Event>, d: Disk, e: Event) {
    && HasRun(d)
    && match e
       case Wrote(w) => WriteIsLegal(earlier, before, d, w)
       case DevWrote(n, w) => OpenRound(d, n) && DevelopmentMay(n, w)
       case OperatorWrote(w) => EditsSubject(w)
       case QuestionsRemoved(n) =>
         OpenRound(d, n) && ValidRequests(d, n) && AllAnswered(d.requests[n].value, AnswersOf(d, n))
       case CriticRan(n, _) =>
         Run(d).entryConfirmed && CanJudge(d) && AllClosed(d) && n == |d.passes| + 1
       case Replied(scope, prompt, _) =>
         match scope
         case EntryGate => !Run(d).entryConfirmed
         case Confirmation => true
         case Fork(n) => OpenRound(d, n) && AsksAbout(d, n, prompt) && prompt !in RunFiles.Asked(AnswersOf(d, n))
  }

  function EventAt(events: seq<Event>, i: int): Option<Event> {
    if 0 <= i < |events| then Some(events[i]) else None
  }

  predicate LastEvent(h: History, e: Event) {
    EventAt(h.events, |h.events| - 1) == Some(e)
  }

  predicate LegalAt(h: History, i: nat)
    requires h.Recorded() && i < |h.events|
  {
    IsLegal(EventAt(h.events, i - 2), EventAt(h.events, i - 1), h.states[i], h.events[i])
  }

  /** Every event from the k-th on obeyed the rules. */
  predicate LegalFrom(h: History, k: nat) {
    h.Recorded() && forall i :: k <= i < |h.events| ==> LegalAt(h, i)
  }

  /** The later history extends the earlier one by legal events only. */
  predicate Continues(h: History, g: History) {
    h.Recorded() && h.Prefix(g) && LegalFrom(g, |h.events|)
  }

  lemma StepContinues(h: History, e: Event)
    requires h.Recorded()
    requires IsLegal(EventAt(h.events, |h.events| - 2), EventAt(h.events, |h.events| - 1), h.Now(), e)
    ensures Continues(h, h.Extended(e))
  {
    hide IsLegal, Apply;
    var g := h.Extended(e);
    assert LegalAt(g, |h.events|);
  }

  lemma ContinuesItself(h: History)
    requires h.Recorded()
    ensures Continues(h, h)
  {
  }

  /** Sessions compose: what each of them did obeys the rules of the whole. */
  lemma ContinuesIsTransitive(h: History, g: History, f: History)
    requires Continues(h, g) && Continues(g, f)
    ensures Continues(h, f)
  {
    hide IsLegal, Apply;
    forall i | |h.events| <= i < |f.events|
      ensures LegalAt(f, i)
    {
      if i < |g.events| {
        assert LegalAt(g, i);
      }
    }
  }

  /** Two legal steps in a row. */
  lemma StepAfter(h: History, g: History, e: Event)
    requires Continues(h, g)
    requires IsLegal(EventAt(g.events, |g.events| - 2), EventAt(g.events, |g.events| - 1), g.Now(), e)
    ensures Continues(h, g.Extended(e))
  {
    hide IsLegal, Apply;
    StepContinues(g, e);
    ContinuesIsTransitive(h, g, g.Extended(e));
  }
}
