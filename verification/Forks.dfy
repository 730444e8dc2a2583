/** The forks of one round: questions of development for the operator, answered once each. */
module Forks {
  import opened Wrappers
  import opened Text
  import opened RunFiles
  import opened Outcomes
  import opened Protocol
  import opened RunCatalogs
  import opened Gates
  import opened Safety
  import opened Stretches
  import opened Sessions

  /** Only gate files differ. */
  predicate OnlyGateFiles(d: Disk, e: Disk) {
    e == d.(requests := e.requests, answers := e.answers, journal := e.journal)
  }

  /** One fork: asked, made durable at once, then journalled. */
  method AnswerOne(catalog: RunCatalog, gate: Gate, n: nat, q: Question) returns (r: Outcome<seq<Answer>>)
    requires catalog.Valid() && gate.catalog == catalog && HasRun(catalog.disk)
    requires OpenRound(catalog.disk, n) && AsksAbout(catalog.disk, n, q.text)
    requires q.text !in RunFiles.Asked(AnswersOf(catalog.disk, n))
    modifies gate, catalog
    ensures r.Crashed? ==> catalog.power == 0 || (old(gate.replies) == [] && gate.replies == [])
    ensures catalog.power <= old(catalog.power) <= catalog.power + 2
    ensures |gate.replies| <= |old(gate.replies)| <= |gate.replies| + 1
    ensures catalog.Valid() && !r.Refused?
    ensures Stretch(old(catalog.history), catalog.history, old(gate.replies), gate.replies, [])
    ensures OnlyGateFiles(old(catalog.disk), catalog.disk)
    ensures r.Fine? ==>
              && old(gate.replies) != []
              && gate.replies == old(gate.replies)[1..]
              && r.value == AnswersOf(old(catalog.disk), n) + [Answer(q.text, old(gate.replies)[0])]
              && catalog.disk.requests == old(catalog.disk).requests
              && catalog.disk.answers == old(catalog.disk).answers[n := Good(r.value)]
              && JournalOf(catalog.disk)
                 == JournalOf(old(catalog.disk)) + [GateRecord(q.text, old(gate.replies)[0], q.kind)]
  {
    hide Usable, Stretch, IsLegal, AsksAbout, RunFiles.Asked;
    ghost var start, said := catalog.history, gate.replies;
    StretchItself(start, said);
    var reply :- gate.Ask(Fork(n), q.text);
    ghost var left := gate.replies;
    assert [reply] + left == said;
    AskingIsLegal(start, n, q.text, reply);
    StepStretch(start, Replied(Fork(n), q.text, reply), left);
    ghost var asked := catalog.history;
    var answers := AnswersOf(catalog.disk, n) + [Answer(q.text, reply)];
    var _ :- catalog.WriteDurably(AnswersJson(n, answers));
    AnsweringIsLegal(asked, n, Answer(q.text, reply));
    StepStretch(asked, Wrote(AnswersJson(n, answers)), []);
    ThenQuiet(start, asked, catalog.history, said, left, []);
    ghost var stored := catalog.history;
    var journalled := JournalFork(catalog, n, GateRecord(q.text, reply, q.kind));
    ThenQuiet(start, stored, catalog.history, said, left, []);
    var _ :- journalled;
    return Fine(answers);
  }

  lemma AskingIsLegal(h: History, n: nat, q: string, reply: string)
    requires h.Recorded() && HasRun(h.Now()) && OpenRound(h.Now(), n)
    requires AsksAbout(h.Now(), n, q) && q !in RunFiles.Asked(AnswersOf(h.Now(), n))
    ensures Continues(h, h.Extended(Replied(Fork(n), q, reply)))
  {
    hide IsLegal, HasRun, OpenRound, AsksAbout, RunFiles.Asked;
    OperatorMayBeAsked(EventAt(h.events, |h.events| - 2), EventAt(h.events, |h.events| - 1), h.Now(), n, q, reply);
    StepContinues(h, Replied(Fork(n), q, reply));
  }

  lemma OperatorMayBeAsked(earlier: Option<Event>, before: Option<Event>, d: Disk, n: nat, q: string, reply: string)
    requires HasRun(d) && OpenRound(d, n) && AsksAbout(d, n, q) && q !in RunFiles.Asked(AnswersOf(d, n))
    ensures IsLegal(earlier, before, d, Replied(Fork(n), q, reply))
  {
    hide HasRun, OpenRound, AsksAbout, RunFiles.Asked, WriteIsLegal, DevelopmentMay, AllAnswered, CanJudge, AllClosed;
  }

  lemma AnsweringIsLegal(h: History, n: nat, a: Answer)
    requires h.Recorded() && HasRun(h.Now()) && OpenRound(h.Now(), n)
    requires AsksAbout(h.Now(), n, a.question) && a.question !in RunFiles.Asked(AnswersOf(h.Now(), n))
    requires LastEvent(h, Replied(Fork(n), a.question, a.answer))
    ensures Continues(h, h.Extended(Wrote(AnswersJson(n, AnswersOf(h.Now(), n) + [a]))))
  {
    hide Usable, AsksAbout, RunFiles.Asked, OpenRound;
    StepContinues(h, Wrote(AnswersJson(n, AnswersOf(h.Now(), n) + [a])));
  }

  method JournalFork(catalog: RunCatalog, n: nat, record: GateRecord) returns (r: Outcome<()>)
    requires catalog.Valid() && HasRun(catalog.disk) && n in catalog.disk.answers && ForkPair(catalog.disk, n, record)
    modifies catalog
    ensures r.Crashed? ==> catalog.power == 0
    ensures old(catalog.power) - 1 <= catalog.power <= old(catalog.power)
    ensures catalog.Valid() && !r.Refused?
    ensures Stretch(old(catalog.history), catalog.history, [], [], [])
    ensures catalog.disk == old(catalog.disk).(journal := catalog.disk.journal)
    ensures r.Fine? ==> JournalOf(catalog.disk) == JournalOf(old(catalog.disk)) + [record]
  {
    hide Usable, Blank, EntryPair, ForkPair, YesNo.ReadsYes, Stretch;
    ghost var start := catalog.history;
    StretchItself(start, []);
    r := catalog.AppendGateRecord(record.question, record.answer, record.kind);
    if r.Fine? {
      ghost var step := Wrote(GatesMd(JournalOf(start.Now()) + [record]));
      StepContinues(start, step);
      StepStretch(start, step, []);
    }
  }

  /** There are answers for the round once the questions that hang on it are served. */
  predicate HasAnswers(d: Disk, n: nat) {
    n in d.answers || (ValidRequests(d, n) && d.requests[n].value != [])
  }

  /** The questions of the batch were put once each and in order, save those answered before; what
      the operator said stands verbatim in the answers and in the journal. */
  predicate Served(d: Disk, e: Disk, n: nat, replies: seq<string>, left: seq<string>) {
    Told(d, e, n, Hanging(d, n), replies, left) && OnlyRoundAnswers(d, e, n)
  }

  /** No answers but those of round n differ. */
  predicate OnlyRoundAnswers(d: Disk, e: Disk, n: nat) {
    e.answers == if n in e.answers then d.answers[n := e.answers[n]] else d.answers
  }

  /** In the middle of a batch: only answers and the journal differ so far. */
  predicate BatchUnderWay(d: Disk, e: Disk, n: nat) {
    OnlyGateFiles(d, e) && e.requests == d.requests && OnlyRoundAnswers(d, e, n)
  }

  lemma StillUnderWay(d: Disk, e: Disk, f: Disk, n: nat, answers: seq<Answer>)
    requires BatchUnderWay(d, e, n) && OnlyGateFiles(e, f) && f.requests == e.requests
    requires f.answers == e.answers[n := Good(answers)]
    ensures BatchUnderWay(d, f, n)
  {
  }

  lemma BatchIsOpen(d: Disk, e: Disk, n: nat, i: nat)
    requires HasRun(d) && OpenRound(d, n) && ValidRequests(d, n) && BatchUnderWay(d, e, n)
    requires i < |d.requests[n].value|
    ensures HasRun(e) && OpenRound(e, n) && AsksAbout(e, n, d.requests[n].value[i].text)
  {
    hide Usable, OnlyRoundAnswers;
  }

  lemma OnlyGateFilesOn(d: Disk, e: Disk, f: Disk)
    requires OnlyGateFiles(d, e) && OnlyGateFiles(e, f)
    ensures OnlyGateFiles(d, f)
  {
  }

  lemma UnderWay(d: Disk, e: Disk, n: nat)
    ensures BatchUnderWay(d, d, n)
    ensures BatchUnderWay(d, e, n) ==> OnlyGateFiles(d, e) && e.requests == d.requests && OnlyRoundAnswers(d, e, n)
  {
  }

  /** The questions of the batch one by one; what was answered before is not asked again. */
  method AnswerBatch(catalog: RunCatalog, gate: Gate, n: nat) returns (r: Outcome<()>)
    requires catalog.Valid() && gate.catalog == catalog && HasRun(catalog.disk)
    requires OpenRound(catalog.disk, n) && ValidRequests(catalog.disk, n)
    requires DistinctQuestions(catalog.disk.requests[n].value)
    requires n in catalog.disk.answers ==> catalog.disk.answers[n].Good?
    modifies gate, catalog
    ensures r.Crashed? ==>
              catalog.power == 0 || (gate.replies == [] && |old(gate.replies)| < |Hanging(old(catalog.disk), n)|)
    ensures catalog.power <= old(catalog.power) <= catalog.power + 2 * |Hanging(old(catalog.disk), n)|
    ensures |old(gate.replies)| <= |gate.replies| + |Hanging(old(catalog.disk), n)|
    ensures catalog.Valid() && !r.Refused?
    ensures Stretch(old(catalog.history), catalog.history, old(gate.replies), gate.replies, [])
    ensures OnlyGateFiles(old(catalog.disk), catalog.disk)
    ensures r.Fine? ==>
              && catalog.disk.requests == old(catalog.disk).requests
              && (n in catalog.disk.answers <==> HasAnswers(old(catalog.disk), n))
              && Served(old(catalog.disk), catalog.disk, n, old(gate.replies), gate.replies)
              && AllAnswered(old(catalog.disk).requests[n].value, AnswersOf(catalog.disk, n))
  {
    hide Usable, Stretch, IsLegal, Apply, Told, Covers, Unanswered, OnlyGateFiles, BatchUnderWay, OnlyRoundAnswers;
    hide RunFiles.Asked, Texts, AllAnswered, AsksAbout, DistinctQuestions, OpenRound, HasRun;
    ghost var start, said, d := catalog.history, gate.replies, catalog.disk;
    StretchItself(start, said);
    var requests := catalog.disk.requests[n].value;
    var answers := AnswersOf(catalog.disk, n);
    var answered := RunFiles.Asked(answers);
    ghost var put: seq<Question> := [];
    NothingTold(d, n, said);
    UnderWay(d, d, n);
    NothingUnanswered(requests[..0], answered);
    CoversNothing(answers);
    assert requests[..0] == [];
    NothingAskedWithoutAnswers(d, n);
    for i := 0 to |requests|
      invariant catalog.power <= old(catalog.power) <= catalog.power + 2 * |put|
      invariant catalog.Valid() && Stretch(start, catalog.history, said, gate.replies, [])
      invariant OnlyGateFiles(d, catalog.disk) && BatchUnderWay(d, catalog.disk, n)
      invariant n in catalog.disk.answers <==> n in d.answers || i > 0
      invariant put == Unanswered(requests[..i], answered)
      invariant |said| == |put| + |gate.replies|
      invariant Told(d, catalog.disk, n, put, said, gate.replies)
      invariant answers == AnswersOf(catalog.disk, n)
      invariant Covers(answers, answered, requests[..i])
    {
      UnansweredSoFar(requests, i + 1, answered);
      OneUnansweredMore(requests, i, answered);
      if requests[i].text !in answered {
        BatchIsOpen(d, catalog.disk, n, i);
        NotYetAsked(answers, answered, requests, i);
        ghost var before, previous, ready := catalog.history, answers, gate.replies;
        var served := AnswerOne(catalog, gate, n, requests[i]);
        ThenTalk(start, before, catalog.history, said, ready, gate.replies);
        OnlyGateFilesOn(d, before.Now(), catalog.disk);
        answers :- served;
        StillUnderWay(d, before.Now(), catalog.disk, n, answers);
        OneAnswerMore(d, before.Now(), catalog.disk, n, put, requests[i], said, ready);
        put := put + [requests[i]];
        CoversOneMore(previous, answered, requests, i, ready[0]);
      } else {
        CoversAsBefore(answers, answered, requests, i);
      }
    }
    assert requests[..|requests|] == requests;
    AllTextsAnswered(requests, answered, answers);
    UnderWay(d, catalog.disk, n);
    return Fine(());
  }

  /** Deliver the forks of round n: every question gets its durable answer, then the file goes. */
  method ServeGateRequests(catalog: RunCatalog, gate: Gate, n: nat) returns (r: Outcome<()>)
    requires catalog.Valid() && gate.catalog == catalog
    requires Consistent(catalog.disk) && DistinctBatches(catalog.disk)
    requires OpenRound(catalog.disk, n) && n in catalog.disk.requests
    modifies gate, catalog
    ensures r.Crashed? ==>
              catalog.power == 0 || (gate.replies == [] && |old(gate.replies)| < |Hanging(old(catalog.disk), n)|)
    ensures catalog.power <= old(catalog.power) <= catalog.power + 2 * |Hanging(old(catalog.disk), n)| + 1
    ensures |old(gate.replies)| <= |gate.replies| + |Hanging(old(catalog.disk), n)|
    ensures catalog.Valid()
    ensures Stretch(old(catalog.history), catalog.history, old(gate.replies), gate.replies, [])
    ensures OnlyGateFiles(old(catalog.disk), catalog.disk)
    ensures r.Fine? ==> LastEvent(catalog.history, QuestionsRemoved(n))
    ensures r.Fine? ==> (n in catalog.disk.answers <==> HasAnswers(old(catalog.disk), n))
    ensures r.Fine? ==> Served(old(catalog.disk), catalog.disk, n, old(gate.replies), gate.replies)
    ensures r.Fine? ==>
              && old(catalog.disk).requests[n].Good?
              && catalog.disk.requests == old(catalog.disk).requests - {n}
              && AllAnswered(old(catalog.disk).requests[n].value, AnswersOf(catalog.disk, n))
    ensures r.Refused? <==> old(catalog.disk).requests[n].Corrupt?
    ensures r.Refused? ==> catalog.disk == old(catalog.disk) && gate.replies == old(gate.replies)
  {
    hide PassesInOrder, OutcomesInOrder, CompletionInOrder, Usable, Stretch, IsLegal, Apply, Told, Unanswered;
    hide RunFiles.Asked, AllAnswered, DistinctQuestions, HasAnswers;
    ghost var start, said, d := catalog.history, gate.replies, catalog.disk;
    StretchItself(start, said);
    if catalog.disk.requests[n].Corrupt? {
      return Refused(CorruptGateFiles);
    }
    if n in catalog.disk.answers && catalog.disk.answers[n].Corrupt? {
      return Refused(CorruptAnswers);
    }
    var _ :- AnswerBatch(catalog, gate, n);
    ghost var before, left := catalog.history, gate.replies;
    r := FinishBatch(catalog, n);
    ThenQuiet(start, before, catalog.history, said, left, []);
    ToldStays(d, before.Now(), d, catalog.disk, n, Hanging(d, n), said, left);
  }

  lemma NothingUnanswered(questions: seq<Question>, asked: set<string>)
    requires questions == []
    ensures Unanswered(questions, asked) == [] && Texts(questions) == {}
  {
  }

  function Texts(questions: seq<Question>): set<string> {
    set q | q in questions :: q.text
  }

  lemma OneTextMore(questions: seq<Question>, i: nat)
    requires i < |questions| && DistinctQuestions(questions)
    ensures Texts(questions[..i + 1]) == Texts(questions[..i]) + {questions[i].text}
    ensures questions[i].text !in Texts(questions[..i])
  {
    assert questions[..i + 1] == questions[..i] + [questions[i]];
    forall q | q in questions[..i]
      ensures q in questions[..i + 1] && q.text != questions[i].text
    {
      var j :| 0 <= j < i && questions[..i][j] == q;
      assert questions[j] == q && questions[..i + 1][j] == q;
    }
    assert questions[..i + 1][i] == questions[i];
  }

  lemma NothingAskedWithoutAnswers(d: Disk, n: nat)
    ensures n !in d.answers ==> RunFiles.Asked(AnswersOf(d, n)) == {}
  {
  }

  /** Answered are those of before and the first questions of the batch. */
  predicate Covers(answers: seq<Answer>, answered: set<string>, questions: seq<Question>) {
    RunFiles.Asked(answers) == answered + Texts(questions)
  }

  lemma CoversNothing(answers: seq<Answer>)
    ensures Covers(answers, RunFiles.Asked(answers), [])
  {
  }

  lemma NotYetAsked(answers: seq<Answer>, answered: set<string>, questions: seq<Question>, i: nat)
    requires i < |questions| && DistinctQuestions(questions) && Covers(answers, answered, questions[..i])
    requires questions[i].text !in answered
    ensures questions[i].text !in RunFiles.Asked(answers)
  {
    hide RunFiles.Asked, Texts, DistinctQuestions;
    OneTextMore(questions, i);
  }

  lemma CoversOneMore(answers: seq<Answer>, answered: set<string>, questions: seq<Question>, i: nat, reply: string)
    requires i < |questions| && DistinctQuestions(questions) && Covers(answers, answered, questions[..i])
    ensures Covers(answers + [Answer(questions[i].text, reply)], answered, questions[..i + 1])
  {
    hide RunFiles.Asked, Texts, DistinctQuestions;
    OneTextMore(questions, i);
    AskedWithOneMore(answers, Answer(questions[i].text, reply));
  }

  lemma CoversAsBefore(answers: seq<Answer>, answered: set<string>, questions: seq<Question>, i: nat)
    requires i < |questions| && DistinctQuestions(questions) && Covers(answers, answered, questions[..i])
    requires questions[i].text in answered
    ensures Covers(answers, answered, questions[..i + 1])
  {
    hide RunFiles.Asked, Texts, DistinctQuestions;
    OneTextMore(questions, i);
  }

  lemma AllTextsAnswered(questions: seq<Question>, answered: set<string>, answers: seq<Answer>)
    requires Covers(answers, answered, questions)
    ensures AllAnswered(questions, answers)
  {
    hide RunFiles.Asked;
    forall q | q in questions
      ensures q.text in RunFiles.Asked(answers)
    {
      assert q.text in Texts(questions);
    }
  }

  lemma OneUnansweredMore(questions: seq<Question>, i: nat, asked: set<string>)
    requires i < |questions|
    ensures Unanswered(questions[..i + 1], asked)
            == Unanswered(questions[..i], asked) + if questions[i].text in asked then [] else [questions[i]]
  {
    assert questions[..i + 1][..i] == questions[..i];
  }

  /** The question file goes, once every question in it has its durable answer. */
  method FinishBatch(catalog: RunCatalog, n: nat) returns (r: Outcome<()>)
    requires catalog.Valid() && HasRun(catalog.disk) && OpenRound(catalog.disk, n) && ValidRequests(catalog.disk, n)
    requires AllAnswered(catalog.disk.requests[n].value, AnswersOf(catalog.disk, n))
    modifies catalog
    ensures r.Crashed? ==> catalog.power == 0
    ensures old(catalog.power) - 1 <= catalog.power <= old(catalog.power)
    ensures catalog.Valid() && !r.Refused?
    ensures Stretch(old(catalog.history), catalog.history, [], [], [])
    ensures r.Fine? ==> LastEvent(catalog.history, QuestionsRemoved(n))
    ensures catalog.disk
            == if r.Fine? then old(catalog.disk).(requests := old(catalog.disk).requests - {n}) else old(catalog.disk)
  {
    hide Usable, Stretch, IsLegal, Apply, AllAnswered;
    ghost var start := catalog.history;
    StretchItself(start, []);
    r := catalog.RemoveQuestions(n);
    if r.Fine? {
      RemovalIsLegal(start, n);
      StepStretch(start, QuestionsRemoved(n), []);
      QuestionsRemovedEffect(start.Now(), n);
    }
  }

  lemma AskedWithOneMore(answers: seq<Answer>, a: Answer)
    ensures RunFiles.Asked(answers + [a]) == RunFiles.Asked(answers) + {a.question}
  {
    forall x | x in RunFiles.Asked(answers) + {a.question}
      ensures x in RunFiles.Asked(answers + [a])
    {
      if x == a.question {
        assert (answers + [a])[|answers|] == a;
      } else {
        var b :| b in answers && b.question == x;
        assert b in answers + [a];
      }
    }
  }

  lemma QuestionsRemovedEffect(d: Disk, n: nat)
    ensures Apply(d, QuestionsRemoved(n)) == d.(requests := d.requests - {n})
  {
  }

  lemma RemovalIsLegal(h: History, n: nat)
    requires h.Recorded() && HasRun(h.Now()) && OpenRound(h.Now(), n) && ValidRequests(h.Now(), n)
    requires AllAnswered(h.Now().requests[n].value, AnswersOf(h.Now(), n))
    ensures Continues(h, h.Extended(QuestionsRemoved(n)))
  {
    hide Usable, AllAnswered;
    StepContinues(h, QuestionsRemoved(n));
  }
}
