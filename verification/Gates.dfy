/** The operator's gates: one channel of questions and verbatim answers for one run. */
module Gates {
  import opened Wrappers
  import opened Text
  import opened RunFiles
  import opened Outcomes
  import opened Protocol
  import opened RunCatalogs
  import opened Stretches
  import opened YesNo

  /** One question as it was put, and the verbatim reply to it. */
  datatype Exchange = Exchange(prompt: string, reply: string)

  /** One text for asking again after an answer that was not understood. */
  function ReaskText(answer: string): string {
    "I did not recognise the answer '" + answer +
    "' as a plain yes or no; the action was neither performed nor cancelled."
  }

  lemma ReaskTextIsNotBlank(answer: string)
    ensures !Blank(ReaskText(answer))
  {
    var head := "I did not recognise the answer '";
    assert ReaskText(answer)[0] == head[0];
    NotBlank(ReaskText(answer));
  }

  /** The conversation that a question opens, given what the operator will say: it goes on,
      each time with the text that quotes the last reply, until a reply is understood. */
  function Dialogue(prompt: string, replies: seq<string>): (d: seq<Exchange>)
    ensures |d| <= |replies| && (replies != [] ==> d != [])
    decreases |replies|
  {
    if replies == [] then []
    else if Verdict(replies[0]).Some? then [Exchange(prompt, replies[0])]
    else [Exchange(prompt, replies[0])] + Dialogue(ReaskText(replies[0]), replies[1..])
  }

  /** One reply, and what it leads to. */
  lemma DialogueGoesOn(prompt: string, answer: string, rest: seq<string>)
    ensures Dialogue(prompt, [answer] + rest)
            == [Exchange(prompt, answer)] + if Verdict(answer).Some? then [] else Dialogue(ReaskText(answer), rest)
  {
    hide Verdict, ReaskText;
    assert ([answer] + rest)[1..] == rest;
  }

  predicate Settled(d: seq<Exchange>) {
    d != [] && Verdict(d[|d| - 1].reply).Some?
  }

  /** The conversation is settled by this word: what it means, verbatim, and the text it answers. */
  predicate Understood(d: seq<Exchange>, word: (bool, string, string)) {
    && Settled(d)
    && word == (Verdict(d[|d| - 1].reply).value, d[|d| - 1].reply, d[|d| - 1].prompt)
  }

  /** The journal records of a conversation; clarifications may go under a kind of their own. */
  function Records(d: seq<Exchange>, kind: string, clarification: string): seq<GateRecord> {
    seq(|d|, i requires 0 <= i < |d| => GateRecord(d[i].prompt, d[i].reply, if i == 0 then kind else clarification))
  }

  lemma RecordsGrow(d: seq<Exchange>, e: Exchange, kind: string, clarification: string)
    ensures Records(d + [e], kind, clarification)
            == Records(d, kind, clarification)
             + [GateRecord(e.prompt, e.reply, if d == [] then kind else clarification)]
  {
  }

  /** The exchange was not understood, and the next question quotes the reply to it. */
  predicate AskedAgain(d: seq<Exchange>, i: nat)
    requires i + 1 < |d|
  {
    Verdict(d[i].reply).None? && d[i + 1].prompt == ReaskText(d[i].reply)
  }

  /** Every exchange but the last was asked again, each reply stands where it was given, the first
      question is the one put, and a conversation that leaves replies unused is settled. */
  predicate Unfolds(d: seq<Exchange>, prompt: string, replies: seq<string>) {
    && |d| <= |replies|
    && (forall i :: 0 <= i < |d| - 1 ==> AskedAgain(d, i))
    && (forall i :: 0 <= i < |d| ==> d[i].reply == replies[i])
    && (d != [] ==> d[0].prompt == prompt)
    && (|d| < |replies| ==> Settled(d))
  }

  lemma UnfoldsFurther(rest: seq<Exchange>, prompt: string, answer: string, replies: seq<string>)
    requires Verdict(answer).None? && Unfolds(rest, ReaskText(answer), replies)
    ensures Unfolds([Exchange(prompt, answer)] + rest, prompt, [answer] + replies)
  {
    hide Verdict, ReaskText;
    var d := [Exchange(prompt, answer)] + rest;
    forall i | 0 <= i < |d| - 1
      ensures AskedAgain(d, i)
    {
      if i > 0 {
        assert AskedAgain(rest, i - 1);
      }
    }
  }

  lemma UnfoldsAtOnce(prompt: string, answer: string, replies: seq<string>)
    requires Verdict(answer).Some?
    ensures Unfolds([Exchange(prompt, answer)], prompt, [answer] + replies)
  {
    hide Verdict, ReaskText;
  }

  lemma NobodySpeaks(prompt: string)
    ensures Dialogue(prompt, []) == [] && Unfolds([], prompt, [])
  {
    hide Verdict, ReaskText;
  }

  /** Exactly the last exchange of a conversation is understood, and each question after the
      first quotes the reply before it. */
  lemma {:induction false} OnlyTheLastReplyDecides(prompt: string, replies: seq<string>)
    ensures Unfolds(Dialogue(prompt, replies), prompt, replies)
    decreases |replies|
  {
    hide Verdict, ReaskText, Dialogue, Unfolds;
    NobodySpeaks(prompt);
    if replies != [] {
      var answer, rest := replies[0], replies[1..];
      assert replies == [answer] + rest;
      DialogueGoesOn(prompt, answer, rest);
      if Verdict(answer).Some? {
        UnfoldsAtOnce(prompt, answer, rest);
        assert [Exchange(prompt, answer)] + [] == [Exchange(prompt, answer)];
      } else {
        OnlyTheLastReplyDecides(ReaskText(answer), rest);
        UnfoldsFurther(Dialogue(ReaskText(answer), rest), prompt, answer, rest);
      }
    }
  }

  // --- a conversation in the middle ------------------------------------------------

  /** These exchanges of the conversation are behind; this answer was just given to this question. */
  predicate Underway(all: seq<Exchange>, done: seq<Exchange>, prompt: string, answer: string, replies: seq<string>) {
    all == done + Dialogue(prompt, [answer] + replies)
  }

  lemma Begins(prompt: string, answer: string, replies: seq<string>)
    ensures Underway(Dialogue(prompt, [answer] + replies), [], prompt, answer, replies)
  {
    hide Verdict, ReaskText, Dialogue;
  }

  lemma InTheMiddle(all: seq<Exchange>, done: seq<Exchange>, prompt: string, answer: string, replies: seq<string>)
    requires Underway(all, done, prompt, answer, replies)
    ensures |done| < |all|
  {
    hide Verdict, ReaskText;
  }

  lemma ComesToAnEnd(all: seq<Exchange>, done: seq<Exchange>, prompt: string, answer: string, replies: seq<string>)
    requires Underway(all, done, prompt, answer, replies) && Verdict(answer).Some?
    ensures all == done + [Exchange(prompt, answer)] && all[..|all| - 1] == done
    ensures Settled(all) && all[|all| - 1] == Exchange(prompt, answer)
  {
    hide Verdict, ReaskText;
    DialogueGoesOn(prompt, answer, replies);
  }

  lemma GoesOn(all: seq<Exchange>, done: seq<Exchange>, prompt: string, answer: string, next: string,
               replies: seq<string>)
    requires Underway(all, done, prompt, answer, [next] + replies) && Verdict(answer).None?
    ensures Underway(all, done + [Exchange(prompt, answer)], ReaskText(answer), next, replies)
  {
    hide Verdict, ReaskText, Dialogue;
    DialogueGoesOn(prompt, answer, [next] + replies);
  }

  /** With nobody to say more, a conversation that ends in a word not understood is not settled. */
  lemma ComesToNothing(all: seq<Exchange>, done: seq<Exchange>, prompt: string, answer: string)
    requires Underway(all, done, prompt, answer, []) && Verdict(answer).None?
    ensures !Settled(all)
  {
    hide Verdict, ReaskText;
    DialogueGoesOn(prompt, answer, []);
    assert Dialogue(ReaskText(answer), []) == [];
    assert Dialogue(prompt, [answer] + []) == [Exchange(prompt, answer)];
  }

  lemma ConfirmationIsLegal(h: History, question: string, answer: string)
    requires h.Recorded() && HasRun(h.Now())
    ensures Continues(h, h.Extended(Replied(Confirmation, question, answer)))
  {
    hide Usable, Blank;
    StepContinues(h, Replied(Confirmation, question, answer));
  }

  lemma ConfirmationMayBeJournalled(h: History, question: string, answer: string, kind: string)
    requires h.Recorded() && HasRun(h.Now()) && LastEvent(h, Replied(Confirmation, question, answer))
    ensures Continues(h, h.Extended(Wrote(GatesMd(JournalOf(h.Now()) + [GateRecord(question, answer, kind)]))))
  {
    hide Usable, Blank, EntryPair, ForkPair;
    StepContinues(h, Wrote(GatesMd(JournalOf(h.Now()) + [GateRecord(question, answer, kind)])));
  }

  const CONFIRMATION_KIND := "a confirmation"
  const CLARIFICATION_KIND := "a clarification of the record"

  class Gate {
    const catalog: RunCatalog
    /** What the operator is still going to say. When it runs out, the session ends waiting. */
    var replies: seq<string>

    constructor (catalog: RunCatalog, replies: seq<string>)
      ensures this.catalog == catalog && this.replies == replies
    {
      this.catalog := catalog;
      this.replies := replies;
    }

    /** Ask, without journalling: the caller's own durable state comes first. */
    method Ask(scope: Scope, question: string) returns (r: Outcome<string>)
      requires catalog.Valid()
      modifies this, catalog`history
      ensures r.Crashed? ==> replies == []
      ensures catalog.Valid() && !r.Refused?
      ensures r.Fine? ==> old(replies) != [] && r.value == old(replies)[0] && replies == old(replies)[1..]
      ensures r.Fine? ==> catalog.history == old(catalog.history).Extended(Replied(scope, question, r.value))
      ensures r.Crashed? ==> catalog.history == old(catalog.history) && old(replies) == []
    {
      if replies == [] {
        return Crashed;
      }
      var answer := replies[0];
      replies := replies[1..];
      catalog.Note(Replied(scope, question, answer));
      return Fine(answer);
    }

    method AskAtEntry(prompt: string) returns (r: Outcome<string>)
      requires catalog.Valid() && HasRun(catalog.disk) && !Run(catalog.disk).entryConfirmed
      modifies this, catalog`history
      ensures r.Crashed? ==> old(replies) == [] && replies == []
      ensures catalog.Valid() && !r.Refused?
      ensures Stretch(old(catalog.history), catalog.history, old(replies), replies, [])
      ensures r.Fine? ==> old(replies) == [r.value] + replies
      ensures r.Fine? ==> LastEvent(catalog.history, Replied(EntryGate, prompt, r.value))
    {
      hide Usable, Blank, Apply, Stretch;
      ghost var start := catalog.history;
      StretchItself(start, replies);
      var answer :- Ask(EntryGate, prompt);
      StepContinues(start, Replied(EntryGate, prompt, answer));
      StepStretch(start, Replied(EntryGate, prompt, answer), replies);
      assert [answer] + replies == old(replies);
      return Fine(answer);
    }

    /** An exchange that decided nothing is journalled against the text actually shown. */
    method JournalExchange(prompt: string, answer: string) returns (r: Outcome<()>)
      requires catalog.Valid() && HasRun(catalog.disk)
      requires LastEvent(catalog.history, Replied(EntryGate, prompt, answer)) && !ReadsYes(answer)
      modifies catalog
      ensures r.Crashed? ==> catalog.power == 0
      ensures old(catalog.power) - 1 <= catalog.power <= old(catalog.power)
      ensures catalog.Valid() && !r.Refused?
      ensures Stretch(old(catalog.history), catalog.history, [], [], [])
      ensures catalog.disk == old(catalog.disk).(journal := catalog.disk.journal)
      ensures r.Fine? ==>
                JournalOf(catalog.disk) == JournalOf(old(catalog.disk)) + [GateRecord(prompt, answer, ENTRY_KIND)]
    {
      hide Usable, Blank, ReadsYes, EntryPair, ForkPair, Stretch;
      ghost var start := catalog.history;
      StretchItself(start, []);
      var _ :- catalog.AppendGateRecord(prompt, answer, ENTRY_KIND);
      ghost var step := Wrote(GatesMd(JournalOf(start.Now()) + [GateRecord(prompt, answer, ENTRY_KIND)]));
      StepContinues(start, step);
      StepStretch(start, step, []);
      return Fine(());
    }

    /** An answer that was not understood: journalled, and the question put again. */
    method AskAgain(prompt: string, answer: string) returns (r: Outcome<string>)
      requires catalog.Valid() && HasRun(catalog.disk) && !Run(catalog.disk).entryConfirmed
      requires LastEvent(catalog.history, Replied(EntryGate, prompt, answer)) && Verdict(answer).None?
      modifies this, catalog
      ensures r.Crashed? ==> (catalog.power == 0 || old(replies) == []) && replies == old(replies)
      ensures old(catalog.power) - 1 <= catalog.power <= old(catalog.power)
      ensures catalog.Valid() && !r.Refused?
      ensures Stretch(old(catalog.history), catalog.history, old(replies), replies, [])
      ensures catalog.disk == old(catalog.disk).(journal := catalog.disk.journal)
      ensures r.Fine? ==> old(replies) == [r.value] + replies
      ensures r.Fine? ==> LastEvent(catalog.history, Replied(EntryGate, ReaskText(answer), r.value))
      ensures r.Fine? ==>
                JournalOf(catalog.disk) == JournalOf(old(catalog.disk)) + [GateRecord(prompt, answer, ENTRY_KIND)]
    {
      hide Verdict, ReaskText, Blank, Usable, LastEvent, Continues, Heard, Developed;
      ghost var start, said := catalog.history, replies;
      StretchItself(start, said);
      var journalled := JournalExchange(prompt, answer);
      ghost var before := catalog.history;
      ThenQuiet(start, start, before, said, said, []);
      var _ :- journalled;
      r := AskAtEntry(ReaskText(answer));
      ThenTalk(start, before, catalog.history, said, said, replies);
    }

    /** Ask at the entry gate until the answer is understood. The final pair is left to the
        caller; every exchange in between is already in the journal. */
    method AskYesNoVerbatim(question: string) returns (r: Outcome<(bool, string, string)>)
      requires catalog.Valid() && HasRun(catalog.disk) && !Run(catalog.disk).entryConfirmed
      modifies this, catalog
      ensures r.Crashed? ==> catalog.power == 0 || (replies == [] && !Settled(Dialogue(question, old(replies))))
      ensures old(catalog.power) <= catalog.power + |Dialogue(question, old(replies))|
      ensures r.Fine? ==> old(catalog.power) < catalog.power + |Dialogue(question, old(replies))|
      ensures catalog.power <= old(catalog.power)
      ensures |old(replies)| <= |replies| + |Dialogue(question, old(replies))|
      ensures catalog.Valid() && !r.Refused?
      ensures Stretch(old(catalog.history), catalog.history, old(replies), replies, [])
      ensures catalog.disk == old(catalog.disk).(journal := catalog.disk.journal)
      ensures r.Fine? ==>
                var d := Dialogue(question, old(replies));
                && Understood(d, r.value) && replies == old(replies)[|d|..]
                && JournalOf(catalog.disk)
                   == JournalOf(old(catalog.disk)) + Records(d[..|d| - 1], ENTRY_KIND, ENTRY_KIND)
      ensures r.Fine? ==> LastEvent(catalog.history, Replied(EntryGate, r.value.2, r.value.1))
    {
      hide Verdict, ReaskText, Blank, Usable, LastEvent, Stretch, Records, Dialogue, Underway;
      ghost var start, all := catalog.history, Dialogue(question, replies);
      ghost var done: seq<Exchange> := [];
      var prompt := question;
      var answer :- AskAtEntry(prompt);
      Begins(prompt, answer, replies);
      NothingRecorded(ENTRY_KIND, ENTRY_KIND);
      while true
        invariant catalog.Valid() && Stretch(start, catalog.history, old(replies), replies, [])
        invariant catalog.power <= old(catalog.power) <= catalog.power + |done|
        invariant catalog.disk == old(catalog.disk).(journal := catalog.disk.journal)
        invariant LastEvent(catalog.history, Replied(EntryGate, prompt, answer))
        invariant Underway(all, done, prompt, answer, replies)
        invariant |done| + 1 + |replies| == |old(replies)|
        invariant JournalOf(catalog.disk) == JournalOf(old(catalog.disk)) + Records(done, ENTRY_KIND, ENTRY_KIND)
        decreases |replies|
      {
        var verdict := ReadYesNo(answer);
        InTheMiddle(all, done, prompt, answer, replies);
        if verdict.Some? {
          ComesToAnEnd(all, done, prompt, answer, replies);
          TheRestIsReady(start, catalog.history, old(replies), replies, []);
          return Fine((verdict.value, answer, prompt));
        }
        ghost var before, ready := catalog.history, replies;
        var asked := AskAgain(prompt, answer);
        ThenTalk(start, before, catalog.history, old(replies), ready, replies);
        if ready == [] {
          ComesToNothing(all, done, prompt, answer);
        }
        var next :- asked;
        GoesOn(all, done, prompt, answer, next, replies);
        RecordsGrow(done, Exchange(prompt, answer), ENTRY_KIND, ENTRY_KIND);
        done := done + [Exchange(prompt, answer)];
        prompt, answer := ReaskText(answer), next;
      }
    }

    /** Ask and journal at once. */
    method AskRecorded(question: string, kind: string) returns (r: Outcome<string>)
      requires catalog.Valid() && HasRun(catalog.disk)
      modifies this, catalog
      ensures r.Crashed? ==> catalog.power == 0 || (old(replies) == [] && replies == [])
      ensures old(catalog.power) - 1 <= catalog.power <= old(catalog.power)
      ensures |replies| <= |old(replies)| <= |replies| + 1
      ensures catalog.Valid() && !r.Refused?
      ensures Stretch(old(catalog.history), catalog.history, old(replies), replies, [])
      ensures catalog.disk == old(catalog.disk).(journal := catalog.disk.journal)
      ensures r.Fine? ==> old(replies) == [r.value] + replies
      ensures r.Fine? ==>
                JournalOf(catalog.disk) == JournalOf(old(catalog.disk)) + [GateRecord(question, r.value, kind)]
    {
      hide Usable, Stretch, IsLegal;
      ghost var start, said := catalog.history, replies;
      StretchItself(start, said);
      var answer :- Ask(Confirmation, question);
      ConfirmationIsLegal(start, question, answer);
      StepStretch(start, Replied(Confirmation, question, answer), replies);
      assert [answer] + replies == said;
      ghost var before := catalog.history;
      var _ :- catalog.AppendGateRecord(question, answer, kind);
      ghost var step := Wrote(GatesMd(JournalOf(before.Now()) + [GateRecord(question, answer, kind)]));
      ConfirmationMayBeJournalled(before, question, answer, kind);
      StepStretch(before, step, []);
      ThenQuiet(start, before, catalog.history, said, replies, []);
      return Fine(answer);
    }

    /** A question with one semantics for the operator's word; every exchange is journalled. */
    method AskYesNo(question: string, kind: string) returns (r: Outcome<bool>)
      requires catalog.Valid() && HasRun(catalog.disk)
      modifies this, catalog
      ensures r.Crashed? ==> catalog.power == 0 || (replies == [] && !Settled(Dialogue(question, old(replies))))
      ensures catalog.power <= old(catalog.power) <= catalog.power + |Dialogue(question, old(replies))| + 1
      ensures |old(replies)| <= |replies| + |Dialogue(question, old(replies))|
      ensures catalog.Valid() && !r.Refused?
      ensures Stretch(old(catalog.history), catalog.history, old(replies), replies, [])
      ensures catalog.disk == old(catalog.disk).(journal := catalog.disk.journal)
      ensures r.Fine? ==>
                var d := Dialogue(question, old(replies));
                && Settled(d) && Some(r.value) == Verdict(d[|d| - 1].reply) && replies == old(replies)[|d|..]
                && JournalOf(catalog.disk) == JournalOf(old(catalog.disk)) + Records(d, kind, CLARIFICATION_KIND)
    {
      hide Verdict, ReaskText, Blank, Usable, Stretch, Records, Dialogue, Underway;
      ghost var start, all := catalog.history, Dialogue(question, replies);
      ghost var done: seq<Exchange> := [];
      var prompt := question;
      var answer :- AskRecorded(prompt, kind);
      Begins(prompt, answer, replies);
      NothingRecorded(kind, CLARIFICATION_KIND);
      RecordsGrow(done, Exchange(prompt, answer), kind, CLARIFICATION_KIND);
      while true
        invariant catalog.Valid() && HasRun(catalog.disk)
        invariant Stretch(start, catalog.history, old(replies), replies, [])
        invariant catalog.power <= old(catalog.power) <= catalog.power + |done| + 1
        invariant catalog.disk == old(catalog.disk).(journal := catalog.disk.journal)
        invariant Underway(all, done, prompt, answer, replies)
        invariant |done| + 1 + |replies| == |old(replies)|
        invariant JournalOf(catalog.disk) == JournalOf(old(catalog.disk))
                  + Records(done + [Exchange(prompt, answer)], kind, CLARIFICATION_KIND)
        decreases |replies|
      {
        var verdict := ReadYesNo(answer);
        InTheMiddle(all, done, prompt, answer, replies);
        if verdict.Some? {
          ComesToAnEnd(all, done, prompt, answer, replies);
          TheRestIsReady(start, catalog.history, old(replies), replies, []);
          return Fine(verdict.value);
        }
        ghost var before, ready := catalog.history, replies;
        var asked := AskRecorded(ReaskText(answer), CLARIFICATION_KIND);
        ThenTalk(start, before, catalog.history, old(replies), ready, replies);
        if ready == [] {
          ComesToNothing(all, done, prompt, answer);
        } else {
          assert ready == [ready[0]] + ready[1..];
          GoesOn(all, done, prompt, answer, ready[0], ready[1..]);
          InTheMiddle(all, done + [Exchange(prompt, answer)], ReaskText(answer), ready[0], ready[1..]);
        }
        var next :- asked;
        done := done + [Exchange(prompt, answer)];
        prompt, answer := ReaskText(answer), next;
        RecordsGrow(done, Exchange(prompt, answer), kind, CLARIFICATION_KIND);
      }
    }

    /** The operator's word, unconditional: one "are you sure?", then execution. There is no
        branch in which the harness refuses; no is returned only when the operator says no,
        and the whole conversation is in the journal. */
    method ConfirmUnconditional(action: string) returns (r: Outcome<bool>)
      requires catalog.Valid() && HasRun(catalog.disk)
      modifies this, catalog
      ensures r.Crashed? ==>
                || catalog.power == 0
                || (replies == [] && !Settled(Dialogue(action + " - are you sure?", old(replies))))
      ensures catalog.power <= old(catalog.power)
      ensures catalog.Valid() && !r.Refused?
      ensures Stretch(old(catalog.history), catalog.history, old(replies), replies, [])
      ensures catalog.disk == old(catalog.disk).(journal := catalog.disk.journal)
      ensures r.Fine? ==>
                var d := Dialogue(action + " - are you sure?", old(replies));
                && Settled(d) && Some(r.value) == Verdict(d[|d| - 1].reply) && replies == old(replies)[|d|..]
                && JournalOf(catalog.disk)
                   == JournalOf(old(catalog.disk)) + Records(d, CONFIRMATION_KIND, CLARIFICATION_KIND)
    {
      r := AskYesNo(action + " - are you sure?", CONFIRMATION_KIND);
    }
  }

  lemma NothingRecorded(kind: string, clarification: string)
    ensures Records([], kind, clarification) == []
  {
  }
}
