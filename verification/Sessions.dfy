/** What a round does with the directory, said outside any method: what sessions of development
    leave behind, and which questions the operator will hear. */
module Sessions {
  import opened Wrappers
  import opened Text
  import opened Snapshot
  import opened RunFiles
  import opened Protocol

  /** What development may do while it is in control: files of the current round, and edits. */
  datatype DevAct =
    | LeaveOutcomes(text: string)
    | AskOperator(questions: seq<Question>)
    | EditDescription(text: string)
    | EditNote(text: string)
    | EditWork(path: string, files: Artifact)
    | DeleteWork(path: string)

  /** One session of development: its acts in order, and whether it ended well. */
  datatype DevSession = DevSession(acts: seq<DevAct>, ok: bool)

  /** What the world holds ready for one round. */
  datatype RoundEnv = RoundEnv(
    profileVersion: Option<string>,
    gitHead: Option<string>,
    critic: Option<string>,
    first: DevSession,
    second: DevSession)

  function WriteOf(act: DevAct, n: nat): Write {
    match act
    case LeaveOutcomes(text) => OutcomesMd(n, text)
    case AskOperator(questions) => RequestsJson(n, questions)
    case EditDescription(text) => DescriptionMd(text)
    case EditNote(text) => NoteMd(text)
    case EditWork(path, files) => WorkFiles(path, files)
    case DeleteWork(path) => WorkGone(path)
  }

  /** Development's side of the contract: outcomes are not blank, questions are distinct. */
  predicate KeepsContract(s: DevSession) {
    forall i :: 0 <= i < |s.acts| ==>
      && (s.acts[i].LeaveOutcomes? ==> !Blank(s.acts[i].text))
      && (s.acts[i].AskOperator? ==> DistinctQuestions(s.acts[i].questions))
  }

  /** The session files questions for the operator. */
  predicate Asks(acts: seq<DevAct>) {
    exists i :: 0 <= i < |acts| && acts[i].AskOperator?
  }

  /** The acts of a whole round: a second session follows exactly when the first one asked. */
  function RoundActs(env: RoundEnv): seq<DevAct> {
    env.first.acts + if Asks(env.first.acts) then env.second.acts else []
  }

  // --- what the acts leave behind ----------------------------------------------

  /** The events of a session that goes through these acts in round n. */
  function Writes(acts: seq<DevAct>, n: nat): seq<Event> {
    seq(|acts|, i requires 0 <= i < |acts| => DevWrote(n, WriteOf(acts[i], n)))
  }

  function AfterActs(d: Disk, acts: seq<DevAct>, n: nat): Disk {
    if acts == [] then d
    else Put(AfterActs(d, acts[..|acts| - 1], n), WriteOf(acts[|acts| - 1], n))
  }

  lemma WritesBoth(a: seq<DevAct>, b: seq<DevAct>, n: nat)
    ensures Writes(a + b, n) == Writes(a, n) + Writes(b, n)
  {
  }

  /** What the sessions of a round write, session by session. */
  lemma WritesOfRound(env: RoundEnv, n: nat)
    ensures Writes(env.first.acts, n) <= Writes(RoundActs(env), n)
    ensures if Asks(env.first.acts) then
              && |RoundActs(env)| == |env.first.acts| + |env.second.acts|
              && Writes(RoundActs(env), n) == Writes(env.first.acts, n) + Writes(env.second.acts, n)
            else
              |RoundActs(env)| == |env.first.acts| && Writes(RoundActs(env), n) == Writes(env.first.acts, n)
  {
    hide Asks;
    WritesBoth(env.first.acts, if Asks(env.first.acts) then env.second.acts else [], n);
    assert env.first.acts + [] == env.first.acts;
  }

  lemma PrefixesAdd<T>(a: seq<T>, b: seq<T>, c: seq<T>)
    requires b <= c
    ensures a + b <= a + c
  {
  }

  lemma ActsTogether(d: Disk, acts: seq<DevAct>, act: DevAct, n: nat)
    ensures AfterActs(d, acts + [act], n) == Put(AfterActs(d, acts, n), WriteOf(act, n))
  {
    hide Put, WriteOf;
    assert (acts + [act])[..|acts|] == acts;
  }

  lemma {:induction false} ActsInTurn(d: Disk, a: seq<DevAct>, b: seq<DevAct>, n: nat)
    ensures AfterActs(d, a + b, n) == AfterActs(AfterActs(d, a, n), b, n)
  {
    hide Put, WriteOf;
    if b == [] {
      assert a + b == a;
    } else {
      ActsInTurn(d, a, b[..|b| - 1], n);
      assert (a + b)[..|a + b| - 1] == a + b[..|b| - 1];
    }
  }

  /** One act of development: one thing changes, and nothing else. */
  predicate Changes(before: Disk, after: Disk, act: DevAct, n: nat) {
    match act
    case LeaveOutcomes(text) => after == before.(outcomes := before.outcomes[n := text])
    case AskOperator(questions) => after == before.(requests := before.requests[n := Good(questions)])
    case EditDescription(text) => after == before.(description := Some(text))
    case EditNote(text) => after == before.(note := Some(text))
    case EditWork(path, files) => after == before.(work := before.work[path := files])
    case DeleteWork(path) => after == before.(work := before.work - {path})
  }

  lemma WritesChange(d: Disk, act: DevAct, n: nat)
    ensures Changes(d, Put(d, WriteOf(act, n)), act, n)
  {
  }

  /** Each act changes one thing, and nothing else. */
  lemma OneActMore(d: Disk, acts: seq<DevAct>, act: DevAct, n: nat)
    ensures Changes(AfterActs(d, acts, n), AfterActs(d, acts + [act], n), act, n)
  {
    hide AfterActs, Changes, Put, WriteOf;
    ActsTogether(d, acts, act, n);
    WritesChange(AfterActs(d, acts, n), act, n);
  }

  /** Development reaches outcomes, questions and what is judged, and nothing else. */
  predicate OnlyDevelopment(d: Disk, e: Disk) {
    && e == d.(outcomes := e.outcomes, requests := e.requests,
               description := e.description, note := e.note, work := e.work)
    && (d.description.Some? ==> e.description.Some?) && (d.note.Some? ==> e.note.Some?)
  }

  lemma {:induction false} ActsReachLittle(d: Disk, acts: seq<DevAct>, n: nat)
    ensures OnlyDevelopment(d, AfterActs(d, acts, n))
  {
    if acts != [] {
      ActsReachLittle(d, acts[..|acts| - 1], n);
    }
  }

  /** The text is the one that the last of the acts to leave outcomes left. */
  predicate LastLeft(acts: seq<DevAct>, text: string) {
    exists i :: 0 <= i < |acts| && acts[i] == LeaveOutcomes(text)
                && forall j :: i < j < |acts| ==> !acts[j].LeaveOutcomes?
  }

  predicate Leaves(acts: seq<DevAct>) {
    exists i :: 0 <= i < |acts| && acts[i].LeaveOutcomes?
  }

  /** The questions are those that the last of the acts to ask filed. */
  predicate LastFiled(acts: seq<DevAct>, questions: seq<Question>) {
    exists i :: 0 <= i < |acts| && acts[i] == AskOperator(questions)
                && forall j :: i < j < |acts| ==> !acts[j].AskOperator?
  }

  lemma LeavesOneMore(front: seq<DevAct>, act: DevAct)
    ensures act.LeaveOutcomes? ==> LastLeft(front + [act], act.text)
    ensures !act.LeaveOutcomes? ==> forall text :: LastLeft(front, text) ==> LastLeft(front + [act], text)
    ensures Leaves(front + [act]) <==> Leaves(front) || act.LeaveOutcomes?
  {
    var acts := front + [act];
    assert acts[|front|] == act;
    assert forall i :: 0 <= i < |front| ==> acts[i] == front[i];
  }

  lemma OutcomesOneMore(d: Disk, front: seq<DevAct>, act: DevAct, n: nat)
    ensures var before, after := AfterActs(d, front, n).outcomes, AfterActs(d, front + [act], n).outcomes;
            after == if act.LeaveOutcomes? then before[n := act.text] else before
  {
    hide AfterActs;
    OneActMore(d, front, act, n);
  }

  /** The outcomes that acts leave are the last ones left. */
  lemma {:induction false} OutcomesLeft(d: Disk, acts: seq<DevAct>, n: nat)
    ensures var e := AfterActs(d, acts, n);
            if Leaves(acts)
            then n in e.outcomes && LastLeft(acts, e.outcomes[n]) && e.outcomes == d.outcomes[n := e.outcomes[n]]
            else e.outcomes == d.outcomes
  {
    if acts == [] {
      assert !Leaves(acts);
    } else {
      hide WriteOf, Put, LastLeft, Leaves, AfterActs;
      var front, act := acts[..|acts| - 1], acts[|acts| - 1];
      assert acts == front + [act];
      OutcomesLeft(d, front, n);
      OutcomesOneMore(d, front, act, n);
      LeavesOneMore(front, act);
    }
  }

  lemma AsksOneMore(front: seq<DevAct>, act: DevAct)
    ensures act.AskOperator? ==> LastFiled(front + [act], act.questions)
    ensures !act.AskOperator? ==> forall questions :: LastFiled(front, questions) ==> LastFiled(front + [act], questions)
    ensures Asks(front + [act]) <==> Asks(front) || act.AskOperator?
    ensures !Asks([])
  {
    var acts := front + [act];
    assert acts[|front|] == act;
    assert forall i :: 0 <= i < |front| ==> acts[i] == front[i];
  }

  lemma RequestsOneMore(d: Disk, front: seq<DevAct>, act: DevAct, n: nat)
    ensures var before, after := AfterActs(d, front, n).requests, AfterActs(d, front + [act], n).requests;
            after == if act.AskOperator? then before[n := Good(act.questions)] else before
    ensures AfterActs(d, [], n).requests == d.requests
  {
    hide AfterActs;
    OneActMore(d, front, act, n);
    NoActs(d, n);
  }

  lemma NoActs(d: Disk, n: nat)
    ensures AfterActs(d, [], n) == d
  {
  }

  /** The questions that acts file are the last ones filed. */
  lemma {:induction false} QuestionsFiled(d: Disk, acts: seq<DevAct>, n: nat)
    ensures var e := AfterActs(d, acts, n);
            if Asks(acts) then ValidRequests(e, n) && LastFiled(acts, e.requests[n].value)
            else e.requests == d.requests
  {
    hide LastFiled, Asks, AfterActs;
    if acts == [] {
      AsksOneMore([], LeaveOutcomes(""));
      NoActs(d, n);
    } else {
      var front, act := acts[..|acts| - 1], acts[|acts| - 1];
      assert acts == front + [act];
      QuestionsFiled(d, front, n);
      RequestsOneMore(d, front, act, n);
      AsksOneMore(front, act);
    }
  }

  /** The questions a session leaves to be asked: the last ones it filed. */
  function Filed(acts: seq<DevAct>): seq<Question> {
    if acts == [] then []
    else
      var act := acts[|acts| - 1];
      if act.AskOperator? then act.questions else Filed(acts[..|acts| - 1])
  }

  lemma {:induction false} LastOnesFiled(acts: seq<DevAct>)
    ensures if Asks(acts) then LastFiled(acts, Filed(acts)) else Filed(acts) == []
  {
    hide LastFiled, Asks;
    if acts == [] {
      AsksOneMore([], LeaveOutcomes(""));
    } else {
      var front, act := acts[..|acts| - 1], acts[|acts| - 1];
      assert acts == front + [act];
      LastOnesFiled(front);
      AsksOneMore(front, act);
    }
  }

  lemma FiledIsLast(acts: seq<DevAct>, questions: seq<Question>)
    requires LastFiled(acts, questions)
    ensures questions == Filed(acts)
  {
    LastOnesFiled(acts);
    assert Asks(acts);
    var i :| 0 <= i < |acts| && acts[i] == AskOperator(questions)
             && forall j :: i < j < |acts| ==> !acts[j].AskOperator?;
    var k :| 0 <= k < |acts| && acts[k] == AskOperator(Filed(acts))
             && forall j :: k < j < |acts| ==> !acts[j].AskOperator?;
    assert i == k;
  }

  /** What development works on, and the outcomes: the same in both directories. */
  predicate SameWork(d: Disk, e: Disk) {
    && e.outcomes == d.outcomes
    && e.description == d.description && e.note == d.note && e.work == d.work
  }

  lemma {:induction false} ActsKeepSame(d: Disk, e: Disk, acts: seq<DevAct>, n: nat)
    requires SameWork(d, e)
    ensures SameWork(AfterActs(d, acts, n), AfterActs(e, acts, n))
  {
    if acts != [] {
      ActsKeepSame(d, e, acts[..|acts| - 1], n);
    }
  }

  /** No act touches an artefact, the description or the note. */
  predicate EditsNothing(acts: seq<DevAct>) {
    forall i :: 0 <= i < |acts| ==> acts[i].LeaveOutcomes? || acts[i].AskOperator?
  }

  lemma {:induction false} NothingEdited(d: Disk, acts: seq<DevAct>, n: nat)
    requires EditsNothing(acts)
    ensures var e := AfterActs(d, acts, n);
            e.description == d.description && e.note == d.note && e.work == d.work
  {
    if acts != [] {
      NothingEdited(d, acts[..|acts| - 1], n);
    }
  }

  // --- what the operator will hear -----------------------------------------------

  /** The questions without an answer among these, in their order. */
  function Unanswered(questions: seq<Question>, asked: set<string>): seq<Question> {
    if questions == [] then []
    else
      var k := |questions| - 1;
      Unanswered(questions[..k], asked) + if questions[k].text in asked then [] else [questions[k]]
  }

  lemma {:induction false} UnansweredSoFar(questions: seq<Question>, i: nat, asked: set<string>)
    requires i <= |questions|
    ensures Unanswered(questions[..i], asked) <= Unanswered(questions, asked)
  {
    var k := |questions| - 1;
    if i <= k {
      UnansweredSoFar(questions[..k], i, asked);
      assert questions[..k][..i] == questions[..i];
    } else {
      assert questions[..i] == questions;
    }
  }

  lemma {:induction false} NoneAnswered(questions: seq<Question>)
    ensures Unanswered(questions, {}) == questions
  {
    if questions != [] {
      NoneAnswered(questions[..|questions| - 1]);
    }
  }

  /** Questions of the round that hang, without their answers, in the order they will be put. */
  function Hanging(d: Disk, n: nat): seq<Question> {
    if ValidRequests(d, n) then Unanswered(d.requests[n].value, RunFiles.Asked(AnswersOf(d, n))) else []
  }

  /** Everything the operator will be asked about in round n: what hangs, then what the first
      session files. */
  function WillBeAsked(d: Disk, n: nat, env: RoundEnv): seq<Question> {
    Hanging(d, n) + Filed(env.first.acts)
  }

  /** The operator's words to these questions, verbatim and in order. */
  function Verbatim(questions: seq<Question>, replies: seq<string>): seq<Answer>
    requires |questions| <= |replies|
  {
    seq(|questions|, i requires 0 <= i < |questions| => Answer(questions[i].text, replies[i]))
  }

  function ForkRecords(questions: seq<Question>, replies: seq<string>): seq<GateRecord>
    requires |questions| <= |replies|
  {
    seq(|questions|, i requires 0 <= i < |questions| =>
      GateRecord(questions[i].text, replies[i], questions[i].kind))
  }

  /** These questions were put once each and in order; what the operator said to them stands verbatim
      in the answers of round n and in the journal. */
  predicate Told(d: Disk, e: Disk, n: nat, asked: seq<Question>, replies: seq<string>, left: seq<string>) {
    && |asked| <= |replies| && left == replies[|asked|..]
    && AnswersOf(e, n) == AnswersOf(d, n) + Verbatim(asked, replies)
    && JournalOf(e) == JournalOf(d) + ForkRecords(asked, replies)
  }

  lemma NothingTold(d: Disk, n: nat, replies: seq<string>)
    ensures Told(d, d, n, [], replies, replies)
  {
  }

  lemma OneAnswerMore(d: Disk, e: Disk, f: Disk, n: nat, asked: seq<Question>, q: Question,
                      replies: seq<string>, left: seq<string>)
    requires Told(d, e, n, asked, replies, left) && left != []
    requires AnswersOf(f, n) == AnswersOf(e, n) + [Answer(q.text, left[0])]
    requires JournalOf(f) == JournalOf(e) + [GateRecord(q.text, left[0], q.kind)]
    ensures Told(d, f, n, asked + [q], replies, left[1..])
  {
    assert Verbatim(asked + [q], replies) == Verbatim(asked, replies) + [Answer(q.text, left[0])];
    assert ForkRecords(asked + [q], replies)
        == ForkRecords(asked, replies) + [GateRecord(q.text, left[0], q.kind)];
  }

  lemma ToldBoth(d: Disk, e: Disk, f: Disk, n: nat, a: seq<Question>, b: seq<Question>,
                 replies: seq<string>, rest: seq<string>, left: seq<string>)
    requires Told(d, e, n, a, replies, rest) && Told(e, f, n, b, rest, left)
    ensures Told(d, f, n, a + b, replies, left)
  {
    assert Verbatim(a + b, replies) == Verbatim(a, replies) + Verbatim(b, rest);
    assert ForkRecords(a + b, replies) == ForkRecords(a, replies) + ForkRecords(b, rest);
    assert replies[|a|..][|b|..] == replies[|a + b|..];
  }

  lemma ToldStays(d: Disk, e: Disk, f: Disk, g: Disk, n: nat, asked: seq<Question>,
                  replies: seq<string>, left: seq<string>)
    requires Told(d, e, n, asked, replies, left)
    requires f.answers == d.answers && f.journal == d.journal && g.answers == e.answers && g.journal == e.journal
    ensures Told(f, g, n, asked, replies, left)
  {
  }
}
