/** The entry gate of a run: asked until it is passed, and never again. */
module EntryGates {
  import opened Text
  import opened RunFiles
  import opened Outcomes
  import opened Protocol
  import opened RunCatalogs
  import opened Gates
  import opened Stretches
  import YesNo
  import GateJournal

  /** Nothing that the critic judges, and no file of any round, differs between the two. */
  predicate OnlyGateChanged(d: Disk, e: Disk) {
    e == d.(meta := e.meta, journal := e.journal)
  }

  const ENTRY_QUESTION := "Entry gate" + ": confirm the task description of the first round (yes/no)"

  /** The journal at a passed gate: one record may be repaired, and nobody is asked anything. */
  method RepairEntryJournal(catalog: RunCatalog) returns (r: Outcome<()>)
    requires catalog.Valid() && HasRun(catalog.disk) && Run(catalog.disk).entryConfirmed
    modifies catalog
    ensures r.Crashed? ==> catalog.power == 0
    ensures old(catalog.power) - 1 <= catalog.power <= old(catalog.power)
    ensures catalog.Valid() && !r.Refused?
    ensures Stretch(old(catalog.history), catalog.history, [], [], [])
    ensures catalog.disk == old(catalog.disk).(journal := catalog.disk.journal)
    ensures var m := Run(old(catalog.disk));
            r.Fine? && GateJournal.HasPair(JournalOf(old(catalog.disk)), m.entryPrompt, m.entryAnswer) ==>
              catalog.disk == old(catalog.disk)
    ensures var m := Run(old(catalog.disk));
            r.Fine? && !GateJournal.HasPair(JournalOf(old(catalog.disk)), m.entryPrompt, m.entryAnswer) ==>
              JournalOf(catalog.disk)
              == JournalOf(old(catalog.disk)) + [GateRecord(m.entryPrompt, m.entryAnswer, ENTRY_KIND)]
  {
    hide Blank, ForkPair, GateJournal.HasPair, Stretch;
    ghost var start, m := catalog.history, Run(catalog.disk);
    StretchItself(start, []);
    r := catalog.EntryJournalRepair();
    if r.Fine? && catalog.history != start {
      ghost var step := Wrote(GatesMd(JournalOf(start.Now()) + [GateRecord(m.entryPrompt, m.entryAnswer, ENTRY_KIND)]));
      StepContinues(start, step);
      StepStretch(start, step, []);
    }
  }

  /** State first, in one write; the journal is derived from it. */
  method ConfirmEntry(catalog: RunCatalog, answer: string, prompt: string) returns (r: Outcome<()>)
    requires catalog.Valid() && HasRun(catalog.disk) && !Run(catalog.disk).entryConfirmed
    requires YesNo.ReadsYes(answer) && !Blank(prompt)
    requires LastEvent(catalog.history, Replied(EntryGate, prompt, answer))
    modifies catalog
    ensures r.Crashed? ==> catalog.power == 0
    ensures catalog.power <= old(catalog.power) <= catalog.power + 2
    ensures catalog.Valid() && !r.Refused?
    ensures Stretch(old(catalog.history), catalog.history, [], [], [])
    ensures OnlyGateChanged(old(catalog.disk), catalog.disk) && HasRun(catalog.disk)
    ensures Run(catalog.disk).artifactPaths == Run(old(catalog.disk)).artifactPaths
    ensures r.Fine? ==> Run(catalog.disk).entryConfirmed
    ensures r.Fine? ==>
              JournalOf(catalog.disk) == JournalOf(old(catalog.disk)) + [GateRecord(prompt, answer, ENTRY_KIND)]
  {
    hide Blank, YesNo.Verdict, ForkPair, OpenRound, AllClosed, AsksAbout, MetaReadable, CanJudge, Stretch;
    YesNo.UnderstoodIsNotBlank(answer);
    ghost var start := catalog.history;
    StretchItself(start, []);
    ghost var meta := Run(catalog.disk).(entryConfirmed := true, entryAnswer := answer, entryPrompt := prompt);
    var _ :- catalog.MarkEntryConfirmed(answer, prompt);
    StepContinues(start, Wrote(RunJson(meta)));
    StepStretch(start, Wrote(RunJson(meta)), []);
    ghost var middle := catalog.history;
    r := JournalEntryPair(catalog);
    ThenQuiet(start, middle, catalog.history, [], [], []);
  }

  method JournalEntryPair(catalog: RunCatalog) returns (r: Outcome<()>)
    requires catalog.Valid() && HasRun(catalog.disk) && Run(catalog.disk).entryConfirmed
    modifies catalog
    ensures r.Crashed? ==> catalog.power == 0
    ensures old(catalog.power) - 1 <= catalog.power <= old(catalog.power)
    ensures catalog.Valid() && !r.Refused?
    ensures Stretch(old(catalog.history), catalog.history, [], [], [])
    ensures catalog.disk == old(catalog.disk).(journal := catalog.disk.journal)
    ensures r.Fine? ==>
              JournalOf(catalog.disk) == JournalOf(old(catalog.disk))
              + [GateRecord(Run(catalog.disk).entryPrompt, Run(catalog.disk).entryAnswer, ENTRY_KIND)]
  {
    hide Blank, ForkPair, Stretch;
    ghost var start := catalog.history;
    StretchItself(start, []);
    var m := catalog.disk.meta.value.value;
    r := catalog.AppendGateRecord(m.entryPrompt, m.entryAnswer, ENTRY_KIND);
    if r.Fine? {
      ghost var step := Wrote(GatesMd(JournalOf(start.Now()) + [GateRecord(m.entryPrompt, m.entryAnswer, ENTRY_KIND)]));
      StepContinues(start, step);
      StepStretch(start, step, []);
    }
  }

  lemma PromptsAreNotBlank(replies: seq<string>)
    ensures var d := Dialogue(ENTRY_QUESTION, replies);
            forall i :: 0 <= i < |d| ==> !Blank(d[i].prompt)
  {
    hide YesNo.Verdict, ReaskText, Dialogue, Blank;
    OnlyTheLastReplyDecides(ENTRY_QUESTION, replies);
    var d := Dialogue(ENTRY_QUESTION, replies);
    assert ENTRY_QUESTION[0] == "Entry gate"[0];
    NotBlank(ENTRY_QUESTION);
    forall i | 0 <= i < |d|
      ensures !Blank(d[i].prompt)
    {
      if i > 0 {
        assert AskedAgain(d, i - 1);
        ReaskTextIsNotBlank(d[i - 1].reply);
      }
    }
  }

  /** What is said at the entry gate: nothing once it was passed. */
  function EntryTalk(d: Disk, replies: seq<string>): seq<Exchange>
    requires HasRun(d)
  {
    if Run(d).entryConfirmed then [] else Dialogue(ENTRY_QUESTION, replies)
  }

  /** The operator has said enough at the gate for the session to go past the question. */
  predicate HeardAtGate(d: Disk, replies: seq<string>)
    requires HasRun(d)
  {
    Run(d).entryConfirmed || Settled(EntryTalk(d, replies))
  }

  /** The gate was passed before, or the conversation ends in a yes now. */
  predicate GateOpens(d: Disk, replies: seq<string>)
    requires HasRun(d)
  {
    || Run(d).entryConfirmed
    || var talk := EntryTalk(d, replies); Settled(talk) && YesNo.ReadsYes(talk[|talk| - 1].reply)
  }

  lemma GateKeepsTheRest(d: Disk, e: Disk)
    requires OnlyGateChanged(d, e) && HasRun(d) && HasRun(e) && Run(d).artifactPaths == Run(e).artifactPaths
    ensures ClosedRounds(e) == ClosedRounds(d) && AllClosed(e) == AllClosed(d)
    ensures CanJudge(e) == CanJudge(d) && (CanJudge(d) ==> JudgedOf(e) == JudgedOf(d))
  {
    hide Usable;
  }

  /** The entry gate: a passed one asks nothing, another one is a conversation until the operator's
      word is understood, and it opens on a yes only. */
  method EnsureEntryGate(catalog: RunCatalog, gate: Gate) returns (r: Outcome<()>)
    requires catalog.Valid() && gate.catalog == catalog
    modifies gate, catalog
    ensures !Consistent(old(catalog.disk)) ==> r.Refused?
    ensures r.Crashed? ==>
              catalog.power == 0 || (gate.replies == [] && !HeardAtGate(old(catalog.disk), old(gate.replies)))
    ensures Consistent(old(catalog.disk)) ==>
              var spoken := |EntryTalk(old(catalog.disk), old(gate.replies))|;
              && old(catalog.power) <= catalog.power + spoken + 1
              && |old(gate.replies)| <= |gate.replies| + spoken
              && (!r.Crashed? ==> gate.replies == old(gate.replies)[spoken..])
    ensures catalog.power <= old(catalog.power)
    ensures catalog.Valid()
    ensures Stretch(old(catalog.history), catalog.history, old(gate.replies), gate.replies, [])
    ensures OnlyGateChanged(old(catalog.disk), catalog.disk)
    ensures !Consistent(old(catalog.disk)) ==>
              catalog.history == old(catalog.history) && gate.replies == old(gate.replies)
    ensures Consistent(old(catalog.disk)) && Run(old(catalog.disk)).entryConfirmed ==>
              && gate.replies == old(gate.replies) && Heard(old(catalog.history), catalog.history) == []
              && (r.Crashed? ==> catalog.power == 0)
    ensures Consistent(old(catalog.disk)) ==>
              HasRun(catalog.disk) && Run(catalog.disk).artifactPaths == Run(old(catalog.disk)).artifactPaths
    ensures Consistent(old(catalog.disk)) && !r.Crashed? ==>
              (r.Fine? <==> GateOpens(old(catalog.disk), old(gate.replies)))
    ensures r.Fine? ==> Run(catalog.disk).entryConfirmed
    ensures Consistent(old(catalog.disk)) && !r.Crashed? && !Run(old(catalog.disk)).entryConfirmed ==>
              JournalOf(catalog.disk) == JournalOf(old(catalog.disk))
              + Records(EntryTalk(old(catalog.disk), old(gate.replies)), ENTRY_KIND, ENTRY_KIND)
    ensures r.Refused? && Consistent(old(catalog.disk)) ==> catalog.disk.meta == old(catalog.disk).meta
  {
    hide PassesInOrder, OutcomesInOrder, CompletionInOrder, GatesInOrder, Usable, Blank, Records, Dialogue;
    hide YesNo.Verdict, LastEvent, IsLegal, Apply, Stretch;
    ghost var start, said := catalog.history, gate.replies;
    StretchItself(start, said);
    var state :- catalog.Restore();
    if state.entryGateConfirmed {
      r := RepairEntryJournal(catalog);
      ThenQuiet(start, start, catalog.history, said, said, []);
      NothingSaid(start, catalog.history, said, said, []);
      return;
    }
    var word :- gate.AskYesNoVerbatim(ENTRY_QUESTION);
    var (confirmed, verbatim, prompt) := word;
    ghost var d := Dialogue(ENTRY_QUESTION, said);
    ghost var middle := catalog.history;
    RecordsGrow(d[..|d| - 1], d[|d| - 1], ENTRY_KIND, ENTRY_KIND);
    assert d == d[..|d| - 1] + [d[|d| - 1]];
    if !confirmed {
      var journalled := gate.JournalExchange(prompt, verbatim);
      ThenQuiet(start, middle, catalog.history, said, gate.replies, []);
      var _ :- journalled;
      return Refused(GateNotPassed);
    }
    PromptsAreNotBlank(said);
    r := ConfirmEntry(catalog, verbatim, prompt);
    ThenQuiet(start, middle, catalog.history, said, gate.replies, []);
  }
}
