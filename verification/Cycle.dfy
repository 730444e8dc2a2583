/** The cycle: one round from the entry gate to its completion mark, over any crash, and the
    automatic running of rounds while what is judged keeps changing. */
module Cycle {
  import opened Wrappers
  import opened Text
  import opened Snapshot
  import opened RunFiles
  import opened Outcomes
  import opened Protocol
  import opened RunCatalogs
  import opened Gates
  import opened Safety
  import opened Stretches
  import opened Sessions
  import opened EntryGates
  import opened Forks
  import opened RoundParts

  // --- one round ---------------------------------------------------------------------------

  /** Why the analysis of a round is refused: damaged questions, a session that failed, or questions
      where none may be filed any more. */
  predicate AnalysisRefused(d: Disk, n: nat, env: RoundEnv) {
    || (n in d.requests && d.requests[n].Corrupt?)
    || !env.first.ok
    || (Asks(env.first.acts) && (HasAnswers(d, n) || !env.second.ok || Asks(env.second.acts)))
  }

  /** Whatever development wrote came after the questions that were left over had gone. */
  ghost predicate LeftoversFirst(h: History, g: History, n: nat) {
    forall i :: |h.events| <= i < |g.events| && g.events[i].DevWrote? ==>
      exists j :: |h.events| <= j < i && g.events[j] == QuestionsRemoved(n)
  }

  lemma NothingBefore(h: History, g: History, n: nat)
    requires Continues(h, g) && Developed(h, g) == []
    ensures NoDevelopment(h, g) && LeftoversFirst(h, g, n)
  {
    hide IsLegal, Apply, LegalFrom, Developed;
    NothingDeveloped(h, g);
  }

  lemma LeftoversWereFirst(h: History, g: History, f: History, n: nat)
    requires Continues(h, g) && Continues(g, f) && NoDevelopment(h, g) && |h.events| < |g.events|
    requires LastEvent(g, QuestionsRemoved(n))
    ensures LeftoversFirst(h, f, n)
  {
    hide IsLegal, Apply, LegalFrom;
    assert f.events[|g.events| - 1] == QuestionsRemoved(n);
  }

  /** The analysis came to its end: what development works on is as all of its acts left it, no
      question hangs any more, and what the operator was asked stands answered, verbatim. */
  predicate Analysed(d: Disk, e: Disk, n: nat, env: RoundEnv, replies: seq<string>, left: seq<string>) {
    && SameWork(AfterActs(d, RoundActs(env), n), e) && n !in e.requests
    && Told(d, e, n, WillBeAsked(d, n, env), replies, left)
  }

  lemma OneSessionAnalysed(d: Disk, n: nat, env: RoundEnv, replies: seq<string>)
    requires !Asks(env.first.acts) && n !in d.requests
    ensures RoundActs(env) == env.first.acts
    ensures var e := AfterActs(d, env.first.acts, n);
            n !in e.requests && Analysed(d, e, n, env, replies, replies)
  {
    hide Asks, AfterActs;
    LastOnesFiled(env.first.acts);
    QuestionsFiled(d, env.first.acts, n);
    ActsReachLittle(d, env.first.acts, n);
    assert env.first.acts + [] == env.first.acts;
  }

  lemma FirstBatch(d: Disk, n: nat, acts: seq<DevAct>)
    requires Asks(acts)
    ensures var e := AfterActs(d, acts, n);
            && OnlyDevelopment(d, e) && ValidRequests(e, n) && e.requests[n].value == Filed(acts)
            && (n !in d.answers ==> Hanging(e, n) == Filed(acts))
  {
    hide Asks, AfterActs, LastFiled;
    QuestionsFiled(d, acts, n);
    ActsReachLittle(d, acts, n);
    FiledIsLast(acts, AfterActs(d, acts, n).requests[n].value);
    NoneAnswered(Filed(acts));
    assert RunFiles.Asked([]) == {};
  }

  lemma BothSessionsAnalysed(d: Disk, n: nat, env: RoundEnv, e: Disk, replies: seq<string>, left: seq<string>)
    requires Asks(env.first.acts) && !Asks(env.second.acts) && n !in d.requests && n !in d.answers
    requires OnlyGateFiles(AfterActs(d, env.first.acts, n), e) && n !in e.requests
    requires Served(AfterActs(d, env.first.acts, n), e, n, replies, left)
    ensures var f := AfterActs(e, env.second.acts, n);
            n !in f.requests && Analysed(d, f, n, env, replies, left)
  {
    hide Asks, AfterActs, Unanswered, Filed, Told;
    FirstBatch(d, n, env.first.acts);
    QuestionsFiled(e, env.second.acts, n);
    ActsReachLittle(e, env.second.acts, n);
    ActsInTurn(d, env.first.acts, env.second.acts, n);
    var filed := AfterActs(d, env.first.acts, n);
    ActsKeepSame(filed, e, env.second.acts, n);
    ToldStays(filed, e, d, AfterActs(e, env.second.acts, n), n, Filed(env.first.acts), replies, left);
    assert WillBeAsked(d, n, env) == Filed(env.first.acts);
  }

  lemma AnalysedAfterServing(d: Disk, e: Disk, f: Disk, n: nat, env: RoundEnv,
                             replies: seq<string>, rest: seq<string>, left: seq<string>)
    requires OnlyGateFiles(d, e) && n !in e.requests && Served(d, e, n, replies, rest)
    requires Analysed(e, f, n, env, rest, left)
    ensures Analysed(d, f, n, env, replies, left)
  {
    hide AfterActs, Unanswered, Filed, RoundActs, Told;
    ActsKeepSame(d, e, RoundActs(env), n);
    assert [] + Filed(env.first.acts) == Filed(env.first.acts);
    ToldBoth(d, e, f, n, Hanging(d, n), Filed(env.first.acts), replies, rest, left);
  }

  /** How many durable steps the analysis can need. */
  function AnalysisSteps(d: Disk, n: nat, env: RoundEnv): nat {
    |RoundActs(env)| + 2 * |WillBeAsked(d, n, env)| + 2
  }

  /** Forks left hanging are answered before development gets control; one batch of forks is
      served during the round; a question filed after the answers is refused. */
  method Analyse(catalog: RunCatalog, gate: Gate, n: nat, env: RoundEnv) returns (r: Outcome<()>)
    requires catalog.Valid() && gate.catalog == catalog
    requires Consistent(catalog.disk) && DistinctBatches(catalog.disk) && OpenRound(catalog.disk, n)
    requires KeepsContract(env.first) && KeepsContract(env.second)
    modifies gate, catalog
    ensures r.Crashed? ==>
              || catalog.power == 0
              || (gate.replies == [] && |old(gate.replies)| < |WillBeAsked(old(catalog.disk), n, env)|)
    ensures catalog.power <= old(catalog.power) <= catalog.power + AnalysisSteps(old(catalog.disk), n, env)
    ensures |old(gate.replies)| <= |gate.replies| + |WillBeAsked(old(catalog.disk), n, env)|
    ensures !r.Crashed? ==> (r.Refused? <==> AnalysisRefused(old(catalog.disk), n, env))
    ensures n in old(catalog.disk).requests ==> LeftoversFirst(old(catalog.history), catalog.history, n)
    ensures catalog.Valid()
    ensures var wrote := Developed(old(catalog.history), catalog.history);
            && Stretch(old(catalog.history), catalog.history, old(gate.replies), gate.replies, wrote)
            && wrote <= Writes(RoundActs(env), n) && (r.Fine? ==> wrote == Writes(RoundActs(env), n))
    ensures catalog.disk.passes == old(catalog.disk).passes && catalog.disk.passMeta == old(catalog.disk).passMeta
    ensures catalog.disk.meta == old(catalog.disk).meta
    ensures r.Fine? ==> Analysed(old(catalog.disk), catalog.disk, n, env, old(gate.replies), gate.replies)
  {
    hide Consistent, DistinctBatches, Continues, KeepsContract, NoDevelopment, LeftoversFirst, Developed, Heard;
    hide Analysed, Served, Unanswered, Filed, Writes, RoundActs, Asks;
    ghost var start, said, d := catalog.history, gate.replies, catalog.disk;
    StretchItself(start, said);
    assert [] <= Writes(RoundActs(env), n);
    if n in catalog.disk.requests {
      var served := ServeGateRequests(catalog, gate, n);
      SessionsStayRecoverable(start, catalog.history);
      NothingBefore(start, catalog.history, n);
      var _ :- served;
    }
    ghost var settled, rest := catalog.history, gate.replies;
    r := AnalyseAfter(catalog, gate, n, env);
    ghost var wrote := Developed(settled, catalog.history);
    StretchOn(start, settled, catalog.history, said, rest, gate.replies, [], wrote);
    assert [] + wrote == wrote;
    if n in d.requests {
      RemovalIsNew(start, settled, n);
      LeftoversWereFirst(start, settled, catalog.history, n);
      if r.Fine? {
        AnalysedAfterServing(d, settled.Now(), catalog.disk, n, env, said, rest, gate.replies);
      }
    }
  }

  lemma RemovalIsNew(h: History, g: History, n: nat)
    requires Continues(h, g) && n in h.Now().requests && n !in g.Now().requests
    ensures |h.events| < |g.events|
  {
    hide IsLegal, Apply;
  }

  /** The sessions of development, once no question hangs on the round. */
  method AnalyseAfter(catalog: RunCatalog, gate: Gate, n: nat, env: RoundEnv) returns (r: Outcome<()>)
    requires catalog.Valid() && gate.catalog == catalog
    requires Consistent(catalog.disk) && DistinctBatches(catalog.disk)
    requires OpenRound(catalog.disk, n) && n !in catalog.disk.requests
    requires KeepsContract(env.first) && KeepsContract(env.second)
    modifies gate, catalog
    ensures r.Crashed? ==>
              catalog.power == 0 || (gate.replies == [] && |old(gate.replies)| < |Filed(env.first.acts)|)
    ensures catalog.power <= old(catalog.power) <= catalog.power + |RoundActs(env)| + 2 * |Filed(env.first.acts)| + 1
    ensures |old(gate.replies)| <= |gate.replies| + |Filed(env.first.acts)|
    ensures !r.Crashed? ==> (r.Refused? <==> AnalysisRefused(old(catalog.disk), n, env))
    ensures catalog.Valid()
    ensures var wrote := Developed(old(catalog.history), catalog.history);
            && Stretch(old(catalog.history), catalog.history, old(gate.replies), gate.replies, wrote)
            && wrote <= Writes(RoundActs(env), n) && (r.Fine? ==> wrote == Writes(RoundActs(env), n))
    ensures catalog.disk.passes == old(catalog.disk).passes && catalog.disk.passMeta == old(catalog.disk).passMeta
    ensures catalog.disk.meta == old(catalog.disk).meta
    ensures r.Fine? ==> Analysed(old(catalog.disk), catalog.disk, n, env, old(gate.replies), gate.replies)
  {
    hide Consistent, DistinctBatches, Continues, KeepsContract, Asks, Developed, Heard, AfterActs;
    hide Analysed, Served, Unanswered, Writes, Filed, RoundActs;
    ghost var start, said, d := catalog.history, gate.replies, catalog.disk;
    StretchItself(start, said);
    WritesOfRound(env, n);
    var first := Develop(catalog, start, n, env.first);
    ghost var filed, wrote := catalog.history, Developed(start, catalog.history);
    ThenUnasked(start, start, filed, said, said, [], wrote);
    assert [] + wrote == wrote;
    var _ :- first;
    if Asks(env.first.acts) {
      FirstBatch(d, n, env.first.acts);
    } else {
      OneSessionAnalysed(d, n, env, said);
    }
    if n in catalog.disk.requests {
      if n in catalog.disk.answers {
        return Refused(QuestionsAfterAnswers);
      }
      var served := ServeGateRequests(catalog, gate, n);
      ghost var told, rest := catalog.history, gate.replies;
      StretchOn(start, filed, told, said, said, rest, wrote, []);
      assert wrote + [] == wrote;
      SessionsStayRecoverable(start, told);
      var _ :- served;
      ghost var e := catalog.disk;
      var second := Develop(catalog, start, n, env.second);
      ghost var more := Developed(told, catalog.history);
      ThenUnasked(start, told, catalog.history, said, rest, wrote, more);
      PrefixesAdd(wrote, more, Writes(env.second.acts, n));
      var _ :- second;
      if n in catalog.disk.requests {
        return Refused(QuestionsAfterAnswers);
      }
      BothSessionsAnalysed(d, n, env, e, said, rest);
    }
    return Fine(());
  }

  /** A session of development, seen from the start of the analysis. */
  method Develop(catalog: RunCatalog, ghost start: History, n: nat, session: DevSession) returns (r: Outcome<()>)
    requires catalog.Valid() && Continues(start, catalog.history)
    requires Consistent(start.Now()) && DistinctBatches(start.Now())
    requires Consistent(catalog.disk) && OpenRound(catalog.disk, n) && KeepsContract(session)
    requires n !in catalog.disk.requests
    modifies catalog
    ensures r.Crashed? ==> catalog.power == 0
    ensures catalog.power <= old(catalog.power) <= catalog.power + |session.acts|
    ensures !r.Crashed? ==> (r.Fine? <==> session.ok)
    ensures !r.Crashed? ==> catalog.disk == AfterActs(old(catalog.disk), session.acts, n)
    ensures !r.Crashed? ==> (n in catalog.disk.requests <==> Asks(session.acts))
    ensures catalog.Valid() && Continues(start, catalog.history)
    ensures var wrote := Developed(old(catalog.history), catalog.history);
            && Stretch(old(catalog.history), catalog.history, [], [], wrote)
            && wrote <= Writes(session.acts, n) && (!r.Crashed? ==> wrote == Writes(session.acts, n))
    ensures Consistent(catalog.disk) && DistinctBatches(catalog.disk)
    ensures OnlyDevelopment(old(catalog.disk), catalog.disk)
  {
    hide PassesInOrder, OutcomesInOrder, CompletionInOrder, GatesInOrder, DistinctBatches, Continues;
    hide KeepsContract, Asks, AfterActs, Writes, Developed, Heard;
    ghost var before, d := catalog.history, catalog.disk;
    QuestionsFiled(d, session.acts, n);
    r := RunDevelopment(catalog, n, session);
    ContinuesIsTransitive(start, before, catalog.history);
    SessionsStayRecoverable(start, catalog.history);
  }

  /** A round can be taken up: there is a profile, everything judged is there, and a pass of the
      critic can land where a new round begins. */
  predicate CanBegin(d: Disk, env: RoundEnv) {
    && env.profileVersion.Some? && CanJudge(d)
    && (AllClosed(d) ==> PassCanLand(env, env.profileVersion.value))
  }

  /** A round can be carried to its end: it can be taken up, no session fails, no questions come
      where none may come, and outcomes are left, now or before. */
  predicate RoundCanEnd(d: Disk, env: RoundEnv) {
    var n := ClosedRounds(d) + 1;
    && CanBegin(d, env) && !AnalysisRefused(d, n, env)
    && (n in d.outcomes || Leaves(RoundActs(env)))
  }

  /** Gate, journal and the files of the pass differ, and nothing else. */
  predicate OnlyBegun(d: Disk, e: Disk) {
    e == d.(meta := e.meta, journal := e.journal, passes := e.passes, passMeta := e.passMeta)
  }

  /** The pass the round works from: the critic's new one, or the recorded one. */
  predicate PassInHand(d: Disk, e: Disk, n: nat, env: RoundEnv) {
    && env.profileVersion.Some? && CanJudge(d)
    && if AllClosed(d) then PassLanded(d, e, n, env, env.profileVersion.value)
       else PassTaken(d, e, n, env.profileVersion.value)
  }

  /** The entry gate, and the round to work on with its pass. */
  method BeginRound(catalog: RunCatalog, gate: Gate, env: RoundEnv) returns (r: Outcome<nat>)
    requires catalog.Valid() && gate.catalog == catalog && DistinctBatches(catalog.disk)
    modifies gate, catalog
    ensures !Consistent(old(catalog.disk)) ==>
              r.Refused? && catalog.history == old(catalog.history) && gate.replies == old(gate.replies)
    ensures r.Crashed? ==>
              catalog.power == 0 || (gate.replies == [] && !HeardAtGate(old(catalog.disk), old(gate.replies)))
    ensures Consistent(old(catalog.disk)) ==>
              var spoken := |EntryTalk(old(catalog.disk), old(gate.replies))|;
              && old(catalog.power) <= catalog.power + spoken + 3
              && |old(gate.replies)| <= |gate.replies| + spoken
              && (!r.Crashed? ==> gate.replies == old(gate.replies)[spoken..])
    ensures catalog.power <= old(catalog.power)
    ensures Consistent(old(catalog.disk)) && !r.Crashed? ==>
              (r.Fine? <==> GateOpens(old(catalog.disk), old(gate.replies)) && CanBegin(old(catalog.disk), env))
    ensures catalog.Valid()
    ensures Stretch(old(catalog.history), catalog.history, old(gate.replies), gate.replies, [])
    ensures Consistent(old(catalog.disk)) ==> Consistent(catalog.disk) && DistinctBatches(catalog.disk)
    ensures OnlyBegun(old(catalog.disk), catalog.disk)
    ensures r.Fine? ==> r.value == ClosedRounds(old(catalog.disk)) + 1 && OpenRound(catalog.disk, r.value)
    ensures r.Fine? ==> PassInHand(old(catalog.disk), catalog.disk, r.value, env)
    ensures Consistent(old(catalog.disk)) && !AllClosed(old(catalog.disk)) ==>
              catalog.disk.passes == old(catalog.disk).passes
    ensures Consistent(old(catalog.disk)) ==>
              Run(catalog.disk).artifactPaths == Run(old(catalog.disk)).artifactPaths
  {
    hide PassesInOrder, OutcomesInOrder, CompletionInOrder, GatesInOrder, DistinctBatches, Continues;
    hide Usable, Digests, Dialogue, PassCanLand, CanJudge, JudgedOf, Complete, Developed, Heard;
    ghost var start, said, d := catalog.history, gate.replies, catalog.disk;
    StretchItself(start, said);
    var _ :- catalog.Restore();
    var entered := EnsureEntryGate(catalog, gate);
    SessionsStayRecoverable(start, catalog.history);
    var _ :- entered;
    ghost var admitted := catalog.history;
    GateKeepsTheRest(d, catalog.disk);
    if env.profileVersion.None? {
      return Refused(NoProfile);
    }
    r := ObtainPass(catalog, env, env.profileVersion.value);
    ThenQuiet(start, admitted, catalog.history, said, gate.replies, []);
    SessionsStayRecoverable(start, catalog.history);
  }

  /** How many durable steps a round can need. */
  function RoundSteps(d: Disk, replies: seq<string>, env: RoundEnv): nat
    requires HasRun(d)
  {
    |EntryTalk(d, replies)| + 3 + AnalysisSteps(d, ClosedRounds(d) + 1, env) + 2
  }

  /** The operator has said enough for everything the round will ask. */
  predicate EnoughSaid(d: Disk, replies: seq<string>, env: RoundEnv)
    requires HasRun(d)
  {
    HeardAtGate(d, replies) && RepliesNeeded(d, replies, env) <= |replies|
  }

  /** How many replies a round takes: those of the gate, and one for every question. */
  function RepliesNeeded(d: Disk, replies: seq<string>, env: RoundEnv): nat
    requires HasRun(d)
  {
    |EntryTalk(d, replies)| + |WillBeAsked(d, ClosedRounds(d) + 1, env)|
  }

  /** Nothing stands in the way of the round: enough power, enough said, a gate that opens, a round
      that can end. */
  predicate RunsThrough(d: Disk, power: nat, replies: seq<string>, env: RoundEnv)
    requires HasRun(d)
  {
    && RoundSteps(d, replies, env) < power && EnoughSaid(d, replies, env)
    && GateOpens(d, replies) && RoundCanEnd(d, env)
  }

  /** The gate was passed, no question hangs on the round, and the first session files none. */
  predicate AsksNothing(d: Disk, env: RoundEnv) {
    HasRun(d) && Run(d).entryConfirmed && ClosedRounds(d) + 1 !in d.requests && !Asks(env.first.acts)
  }

  lemma NothingToSay(d: Disk, replies: seq<string>, env: RoundEnv)
    requires AsksNothing(d, env)
    ensures RepliesNeeded(d, replies, env) == 0 && EnoughSaid(d, replies, env)
  {
    hide Asks;
    LastOnesFiled(env.first.acts);
  }

  /** What the operator said in a round that needs no word of his: nothing. */
  lemma QuietRound(d: Disk, h: History, g: History, before: seq<string>, after: seq<string>,
                   wrote: seq<Event>, env: RoundEnv)
    requires HasRun(d) && Stretch(h, g, before, after, wrote)
    requires |before| <= |after| + RepliesNeeded(d, before, env)
    ensures AsksNothing(d, env) ==> after == before && Heard(h, g) == [] && EnoughSaid(d, before, env)
  {
    hide Heard, Developed, Stretch, RepliesNeeded, EnoughSaid, AsksNothing;
    if AsksNothing(d, env) {
      NothingToSay(d, before, env);
      NothingSaid(h, g, before, after, wrote);
    }
  }

  /** What a finished round leaves: development's last word on everything it works on, the last
      outcomes left, no hanging question, the operator's words as answers, and the pass marked
      complete. */
  predicate RoundDone(d: Disk, e: Disk, env: RoundEnv, replies: seq<string>, left: seq<string>) {
    var n := ClosedRounds(d) + 1;
    && HasRun(d) && SameWork(AfterActs(d, RoundActs(env), n), e)
    && n in e.outcomes && (Leaves(RoundActs(env)) ==> LastLeft(RoundActs(env), e.outcomes[n]))
    && n !in e.requests
    && var talk, asked := EntryTalk(d, replies), WillBeAsked(d, n, env);
       && |talk| + |asked| <= |replies| && left == replies[|talk| + |asked|..]
       && AnswersOf(e, n) == AnswersOf(d, n) + Verbatim(asked, replies[|talk|..])
  }

  lemma WorkIsDone(d: Disk, e: Disk, env: RoundEnv, replies: seq<string>, left: seq<string>)
    requires RoundDone(d, e, env, replies, left)
    ensures SameWork(AfterActs(d, RoundActs(env), ClosedRounds(d) + 1), e)
  {
    hide AfterActs, RoundActs, SameWork, Filed, Unanswered, Dialogue, LastLeft, Leaves;
  }

  /** The pass of a finished round. */
  predicate PassClosed(d: Disk, e: Disk, env: RoundEnv) {
    var n := ClosedRounds(d) + 1;
    && CanJudge(d) && env.profileVersion.Some? && n in e.passes && n in e.passMeta && e.passMeta[n].Good?
    && e.passMeta[n].value.completed
    && if AllClosed(d) then
         && env.critic.Some? && env.gitHead.Some? && e.passes == d.passes[n := env.critic.value]
         && e.passMeta[n].value
            == PassMeta(env.profileVersion.value, env.gitHead.value, Digests(JudgedOf(d)), true, None)
       else
         && e.passes == d.passes && n in d.passMeta && d.passMeta[n].Good?
         && var m := d.passMeta[n].value;
            e.passMeta[n].value
            == m.(completed := true,
                  versionAtResume := if m.profileVersion == env.profileVersion.value then m.versionAtResume
                                     else env.profileVersion)
  }

  lemma RoundEnds(d: Disk, e: Disk, f: Disk, g: Disk, env: RoundEnv,
                  replies: seq<string>, rest: seq<string>, left: seq<string>)
    requires var n := ClosedRounds(d) + 1;
             && HasRun(d) && OnlyBegun(d, e) && |EntryTalk(d, replies)| <= |replies|
             && rest == replies[|EntryTalk(d, replies)|..]
             && Analysed(e, f, n, env, rest, left) && n in f.outcomes
             && g == f.(passMeta := g.passMeta)
    ensures RoundDone(d, g, env, replies, left)
  {
    hide AfterActs, Asks, Filed, Unanswered, Dialogue, Usable, LastLeft, Leaves, RoundActs;
    var n := ClosedRounds(d) + 1;
    ActsKeepSame(d, e, RoundActs(env), n);
    OutcomesLeft(d, RoundActs(env), n);
  }

  lemma PassEnds(d: Disk, e: Disk, g: Disk, n: nat, env: RoundEnv)
    requires n == ClosedRounds(d) + 1 && PassInHand(d, e, n, env) && n in e.passes
    requires n in e.passMeta && e.passMeta[n].Good?
    requires g.passes == e.passes && g.passMeta == e.passMeta[n := Good(e.passMeta[n].value.(completed := true))]
    ensures PassClosed(d, g, env)
  {
    hide Digests, JudgedOf, CanJudge, ClosedRounds;
  }

  lemma ClosedAfterwards(d: Disk, e: Disk, n: nat)
    requires OpenRound(d, n) && e == d.(passMeta := e.passMeta)
    requires n in d.passMeta && d.passMeta[n].Good?
    requires e.passMeta == d.passMeta[n := Good(d.passMeta[n].value.(completed := true))]
    ensures n == |e.passes| && AllClosed(e)
  {
  }

  lemma SameQuestions(d: Disk, e: Disk, n: nat, env: RoundEnv)
    requires e.requests == d.requests && e.answers == d.answers
    ensures WillBeAsked(e, n, env) == WillBeAsked(d, n, env) && AnalysisSteps(e, n, env) == AnalysisSteps(d, n, env)
    ensures AnalysisRefused(e, n, env) == AnalysisRefused(d, n, env)
  {
    hide Asks, Filed, Unanswered;
  }

  lemma OutcomesThere(e: Disk, f: Disk, n: nat, env: RoundEnv, replies: seq<string>, left: seq<string>)
    requires Analysed(e, f, n, env, replies, left)
    ensures n !in f.requests && (n in f.outcomes <==> n in e.outcomes || Leaves(RoundActs(env)))
  {
    hide AfterActs, Filed, Unanswered, LastLeft, Leaves, RoundActs;
    OutcomesLeft(e, RoundActs(env), n);
  }

  /** One round, from whatever a previous session left behind. It comes to its end exactly when the
      gate opens and it can end; then development's acts were all carried out, in order. However it
      ends, everything it did obeys the protocol, so the next session can take over from the files
      alone. */
  method OneRound(catalog: RunCatalog, gate: Gate, env: RoundEnv) returns (r: Outcome<nat>)
    requires catalog.Valid() && gate.catalog == catalog && DistinctBatches(catalog.disk)
    requires KeepsContract(env.first) && KeepsContract(env.second)
    modifies gate, catalog
    ensures !Consistent(old(catalog.disk)) ==>
              r.Refused? && catalog.history == old(catalog.history) && gate.replies == old(gate.replies)
    ensures r.Crashed? ==>
              catalog.power == 0 || (gate.replies == [] && !EnoughSaid(old(catalog.disk), old(gate.replies), env))
    ensures Consistent(old(catalog.disk)) ==>
              && old(catalog.power) <= catalog.power + RoundSteps(old(catalog.disk), old(gate.replies), env)
              && |old(gate.replies)| <= |gate.replies| + RepliesNeeded(old(catalog.disk), old(gate.replies), env)
    ensures if r.Fine? then catalog.power < old(catalog.power) else catalog.power <= old(catalog.power)
    ensures Consistent(old(catalog.disk)) && !r.Crashed? ==>
              (r.Fine? <==> GateOpens(old(catalog.disk), old(gate.replies)) && RoundCanEnd(old(catalog.disk), env))
    ensures Consistent(old(catalog.disk)) && RunsThrough(old(catalog.disk), old(catalog.power), old(gate.replies), env)
            ==> r == Fine(ClosedRounds(old(catalog.disk)) + 1)
    ensures Consistent(old(catalog.disk)) && AsksNothing(old(catalog.disk), env) ==>
              && gate.replies == old(gate.replies) && Heard(old(catalog.history), catalog.history) == []
              && (r.Crashed? ==> catalog.power == 0)
    ensures catalog.Valid()
    ensures var wrote := Developed(old(catalog.history), catalog.history);
            var acts := Writes(RoundActs(env), ClosedRounds(old(catalog.disk)) + 1);
            && Stretch(old(catalog.history), catalog.history, old(gate.replies), gate.replies, wrote)
            && wrote <= acts && (r.Fine? ==> wrote == acts)
    ensures Consistent(old(catalog.disk)) ==> Consistent(catalog.disk) && DistinctBatches(catalog.disk)
    ensures r.Fine? ==>
              && r.value == ClosedRounds(old(catalog.disk)) + 1
              && r.value == |catalog.disk.passes| && AllClosed(catalog.disk)
    ensures r.Fine? ==> RoundDone(old(catalog.disk), catalog.disk, env, old(gate.replies), gate.replies)
    ensures r.Fine? ==> PassClosed(old(catalog.disk), catalog.disk, env)
    ensures Consistent(old(catalog.disk)) && !AllClosed(old(catalog.disk)) ==>
              catalog.disk.passes == old(catalog.disk).passes
    ensures Consistent(old(catalog.disk)) ==>
              Run(catalog.disk).artifactPaths == Run(old(catalog.disk)).artifactPaths
  {
    hide PassesInOrder, OutcomesInOrder, CompletionInOrder, GatesInOrder, DistinctBatches, Continues, KeepsContract;
    hide Usable, Digests, PassCanLand, CanJudge, JudgedOf, AnalysisRefused, LeftoversFirst, Developed, Heard;
    hide Analysed, Filed, Unanswered, Dialogue, AfterActs, Asks, Leaves, LastLeft, RoundDone, Writes, RoundActs;
    hide PassInHand, PassClosed, HeardAtGate, GateOpens, CanBegin, Hanging, AsksNothing, Told;
    hide ClosedRounds, AllClosed, IsCompleted, Complete;
    ghost var start, said, d := catalog.history, gate.replies, catalog.disk;
    assert [] <= Writes(RoundActs(env), ClosedRounds(d) + 1);
    var begun := BeginRound(catalog, gate, env);
    if HasRun(d) {
      QuietRound(d, start, catalog.history, said, gate.replies, [], env);
    }
    var n :- begun;
    ghost var received, rest, e := catalog.history, gate.replies, catalog.disk;
    SameQuestions(d, e, n, env);
    var analysed := Analyse(catalog, gate, n, env);
    ghost var done, left, f := catalog.history, gate.replies, catalog.disk;
    ghost var wrote := Developed(received, done);
    StretchOn(start, received, done, said, rest, left, [], wrote);
    assert [] + wrote == wrote;
    SessionsStayRecoverable(start, done);
    QuietRound(d, start, done, said, left, wrote, env);
    var _ :- analysed;
    OutcomesThere(e, f, n, env, rest, left);
    var closed := CloseRound(catalog, n);
    ThenQuiet(start, done, catalog.history, said, left, wrote);
    SessionsStayRecoverable(start, catalog.history);
    QuietRound(d, start, catalog.history, said, left, wrote, env);
    var _ :- closed;
    RoundEnds(d, e, f, catalog.disk, env, said, rest, left);
    PassEnds(d, e, catalog.disk, n, env);
    ClosedAfterwards(f, catalog.disk, n);
    return Fine(n);
  }

  // --- running by itself --------------------------------------------------------------------

  predicate RecordedAs(d: Disk, n: nat, snapshot: map<string, Digest>) {
    n in d.passMeta && d.passMeta[n].Good? && d.passMeta[n].value.snapshot == snapshot
  }

  /** Consecutive rounds judged different things. */
  predicate JudgedAnew(d: Disk, n: nat) {
    && n - 1 in d.passMeta && n in d.passMeta && d.passMeta[n - 1].Good? && d.passMeta[n].Good?
    && d.passMeta[n].value.snapshot != d.passMeta[n - 1].value.snapshot
  }

  lemma SnapshotsOutliveSessions(h: History, g: History, n: nat)
    requires Continues(h, g) && Consistent(h.Now()) && n in h.Now().passes
    ensures n in g.Now().passes && n in h.Now().passMeta && n in g.Now().passMeta
    ensures h.Now().passMeta[n].Good? && g.Now().passMeta[n].Good?
    ensures g.Now().passMeta[n].value.snapshot == h.Now().passMeta[n].value.snapshot
  {
    hide Consistent, IsLegal;
    SnapshotsArePermanent(g, |h.events|, |h.events|, |g.events|, n);
  }

  lemma AllRoundsPresent(d: Disk, n: nat)
    requires Consistent(d)
    ensures n in d.passes <==> 1 <= n <= |d.passes|
  {
    hide Complete, Blank;
  }

  /** Every round after `first` judged something else than the round before it. */
  ghost predicate Chain(d: Disk, first: nat) {
    forall n :: first < n <= |d.passes| ==> JudgedAnew(d, n)
  }

  /** The newest round is closed, and what is judged has changed since its pass. */
  predicate Edited(d: Disk) {
    && AllClosed(d) && CanJudge(d)
    && !RecordedAs(d, |d.passes|, Digests(JudgedOf(d)))
  }

  lemma ContinuesRecorded(h: History, g: History)
    requires Continues(h, g)
    ensures g.Recorded()
  {
  }

  lemma ChainGrows(h: History, g: History, first: nat)
    requires Continues(h, g) && Consistent(h.Now()) && Consistent(g.Now())
    requires 1 <= first <= |h.Now().passes| && Chain(h.Now(), first) && Edited(h.Now())
    requires |g.Now().passes| == |h.Now().passes| + 1
    requires RecordedAs(g.Now(), |g.Now().passes|, Digests(JudgedOf(h.Now())))
    ensures Chain(g.Now(), first)
  {
    hide Consistent, LegalFrom, Digests, JudgedOf;
    assert g.Recorded() by {
      ContinuesRecorded(h, g);
    }
    var d, e := h.Now(), g.Now();
    forall n | first < n <= |e.passes|
      ensures JudgedAnew(e, n)
    {
      AllRoundsPresent(d, n - 1);
      SnapshotsOutliveSessions(h, g, n - 1);
      if n <= |d.passes| {
        assert JudgedAnew(d, n);
        AllRoundsPresent(d, n);
        SnapshotsOutliveSessions(h, g, n);
      }
    }
  }

  /** One round, and the comparison of what is judged with what its pass judged. */
  method RoundAndCompare(catalog: RunCatalog, gate: Gate, env: RoundEnv, ghost first: nat, ghost started: bool)
    returns (r: Outcome<(nat, bool)>)
    requires catalog.Valid() && gate.catalog == catalog && Consistent(catalog.disk) && DistinctBatches(catalog.disk)
    requires KeepsContract(env.first) && KeepsContract(env.second)
    requires if started then 1 <= first <= |catalog.disk.passes| && Chain(catalog.disk, first) && Edited(catalog.disk)
             else first == ClosedRounds(catalog.disk) + 1
    modifies gate, catalog
    ensures r.Crashed? ==>
              catalog.power == 0 || (gate.replies == [] && !EnoughSaid(old(catalog.disk), old(gate.replies), env))
    ensures old(catalog.power) <= catalog.power + RoundSteps(old(catalog.disk), old(gate.replies), env)
    ensures if r.Fine? then catalog.power < old(catalog.power) else catalog.power <= old(catalog.power)
    ensures !r.Crashed? ==>
              (r.Fine? <==> && GateOpens(old(catalog.disk), old(gate.replies)) && RoundCanEnd(old(catalog.disk), env)
                            && CanJudge(catalog.disk))
    ensures catalog.Valid()
    ensures var wrote := Developed(old(catalog.history), catalog.history);
            var acts := Writes(RoundActs(env), ClosedRounds(old(catalog.disk)) + 1);
            && Stretch(old(catalog.history), catalog.history, old(gate.replies), gate.replies, wrote)
            && wrote <= acts && (r.Fine? ==> wrote == acts)
    ensures Consistent(catalog.disk) && DistinctBatches(catalog.disk)
    ensures r.Fine? ==> RoundDone(old(catalog.disk), catalog.disk, env, old(gate.replies), gate.replies)
    ensures r.Fine? ==> PassClosed(old(catalog.disk), catalog.disk, env)
    ensures r.Fine? ==>
              && r.value.0 == |catalog.disk.passes| == ClosedRounds(old(catalog.disk)) + 1
              && first <= r.value.0 && AllClosed(catalog.disk)
              && Chain(catalog.disk, first) && CanJudge(catalog.disk)
              && (r.value.1 <==> RecordedAs(catalog.disk, r.value.0, Digests(JudgedOf(catalog.disk))))
    ensures !r.Crashed? && GateOpens(old(catalog.disk), old(gate.replies)) && RoundCanEnd(old(catalog.disk), env)
            && ChangesNothing(old(catalog.disk), env) ==>
              r.Fine? && r.value.1
  {
    hide PassesInOrder, OutcomesInOrder, CompletionInOrder, GatesInOrder, DistinctBatches, Continues, KeepsContract;
    hide Usable, Digests, Complete, CanJudge, Chain, JudgedOf, RoundDone, Developed, Heard, RoundCanEnd, Writes;
    hide EnoughSaid, GateOpens, RoundSteps, EditsNothing, RoundActs, Stretch;
    ghost var before, said, d := catalog.history, gate.replies, catalog.disk;
    var n :- OneRound(catalog, gate, env);
    StretchContinues(before, catalog.history, said, gate.replies, Developed(before, catalog.history));
    assert Chain(catalog.disk, first) by {
      if started {
        ChainGrows(before, catalog.history, first);
      } else {
        NoChainYet(catalog.disk, first);
      }
    }
    var state := catalog.Restore();
    assert state.Fine?;
    NewestIsReadable(catalog.disk);
    var meta := catalog.ReadRoundMeta(n);
    assert meta.Fine?;
    if ChangesNothing(d, env) {
      WorkIsDone(d, catalog.disk, env, said, gate.replies);
      JudgedTheSame(d, catalog.disk, env);
    }
    var current :- JudgedSnapshot(catalog.disk);
    return Fine((n, meta.value.snapshot == current));
  }

  /** A new round in which development touches nothing that is judged. */
  predicate ChangesNothing(d: Disk, env: RoundEnv) {
    AllClosed(d) && EditsNothing(RoundActs(env))
  }

  lemma JudgedTheSame(d: Disk, e: Disk, env: RoundEnv)
    requires SameWork(AfterActs(d, RoundActs(env), ClosedRounds(d) + 1), e) && EditsNothing(RoundActs(env))
    requires CanJudge(d) && HasRun(e) && Run(e).artifactPaths == Run(d).artifactPaths
    ensures CanJudge(e) && JudgedOf(e) == JudgedOf(d)
  {
    hide AfterActs, RoundActs, Usable, EditsNothing;
    NothingEdited(d, RoundActs(env), ClosedRounds(d) + 1);
  }

  lemma NewestIsReadable(d: Disk)
    requires Consistent(d) && |d.passes| > 0
    ensures MetaReadable(d.passMeta, Run(d).artifactPaths, |d.passes|)
  {
    hide Complete, Blank, OutcomesInOrder, CompletionInOrder, GatesInOrder;
  }

  lemma NoChainYet(d: Disk, first: nat)
    requires |d.passes| <= first
    ensures Chain(d, first)
  {
  }

  /** What the world holds ready for every round there may be; development keeps its contract. */
  ghost predicate KeepContracts(envs: nat -> RoundEnv) {
    forall i: nat :: KeepsContract(envs(i).first) && KeepsContract(envs(i).second)
  }

  /** What development writes over k rounds of one call, beginning with round `first`. */
  ghost function CycleWrites(envs: nat -> RoundEnv, first: nat, k: nat): seq<Event> {
    if k == 0 then []
    else CycleWrites(envs, first, k - 1) + Writes(RoundActs(envs(k - 1)), first + k - 1)
  }

  /** Rounds follow one another as long as what is judged changes: every round after the first
      of a call judged something else than the round before it, and the call returns exactly
      when the files equal the snapshot that the last pass judged. */
  method RunCycle(catalog: RunCatalog, gate: Gate, envs: nat -> RoundEnv) returns (r: Outcome<nat>)
    requires catalog.Valid() && gate.catalog == catalog && Consistent(catalog.disk) && DistinctBatches(catalog.disk)
    requires KeepContracts(envs)
    modifies gate, catalog
    ensures r.Crashed? ==> catalog.power == 0 || gate.replies == []
    ensures catalog.power <= old(catalog.power)
    ensures catalog.Valid()
    ensures Continues(old(catalog.history), catalog.history)
    ensures Consistent(catalog.disk) && DistinctBatches(catalog.disk)
    ensures r.Fine? ==>
              && r.value == |catalog.disk.passes| && AllClosed(catalog.disk)
              && CanJudge(catalog.disk) && RecordedAs(catalog.disk, r.value, Digests(JudgedOf(catalog.disk)))
    ensures r.Fine? ==> Chain(catalog.disk, ClosedRounds(old(catalog.disk)) + 1)
    ensures r.Fine? ==>
              var first := ClosedRounds(old(catalog.disk)) + 1;
              && first <= r.value
              && Stretch(old(catalog.history), catalog.history, old(gate.replies), gate.replies,
                         CycleWrites(envs, first, r.value - first + 1))
    ensures !GateOpens(old(catalog.disk), old(gate.replies)) || !RoundCanEnd(old(catalog.disk), envs(0)) ==> !r.Fine?
    ensures RunsThrough(old(catalog.disk), old(catalog.power), old(gate.replies), envs(0))
            && ChangesNothing(old(catalog.disk), envs(0)) ==>
              r == Fine(ClosedRounds(old(catalog.disk)) + 1)
  {
    hide Consistent, DistinctBatches, Continues, KeepsContract, Digests, CanJudge, Chain, JudgedOf, Heard, Developed;
    hide Writes, RoundActs, RoundCanEnd, GateOpens, EnoughSaid, RoundSteps, RoundDone, PassClosed, ChangesNothing;
    hide Stretch, ClosedRounds, CycleWrites;
    ghost var start, said, first := catalog.history, gate.replies, ClosedRounds(catalog.disk) + 1;
    StretchItself(start, said);
    NoWritesYet(envs, first);
    assert Consistent(catalog.disk) ==> HasRun(catalog.disk) by {
      AcceptedHasRun(catalog.disk);
    }
    var i: nat := 0;
    while true
      invariant catalog.Valid() && catalog.power <= old(catalog.power)
      invariant Stretch(start, catalog.history, said, gate.replies, CycleWrites(envs, first, i))
      invariant Consistent(catalog.disk) && DistinctBatches(catalog.disk)
      invariant i == 0 ==>
                  catalog.disk == old(catalog.disk) && gate.replies == said && catalog.power == old(catalog.power)
      invariant i > 0 ==>
                  && first + i - 1 == |catalog.disk.passes| && Chain(catalog.disk, first) && Edited(catalog.disk)
                  && GateOpens(old(catalog.disk), said) && RoundCanEnd(old(catalog.disk), envs(0))
                  && !ChangesNothing(old(catalog.disk), envs(0))
      decreases catalog.power
    {
      ghost var before, ready := catalog.history, gate.replies;
      var finished := RoundAndCompare(catalog, gate, envs(i), first, i > 0);
      ghost var wrote := Developed(before, catalog.history);
      StretchOn(start, before, catalog.history, said, ready, gate.replies, CycleWrites(envs, first, i), wrote);
      StretchContinues(start, catalog.history, said, gate.replies, CycleWrites(envs, first, i) + wrote);
      OneRoundMore(envs, first, i);
      var round :- finished;
      if round.1 {
        return Fine(round.0);
      }
      i := i + 1;
    }
  }

  lemma NoWritesYet(envs: nat -> RoundEnv, first: nat)
    ensures CycleWrites(envs, first, 0) == []
  {
  }

  lemma OneRoundMore(envs: nat -> RoundEnv, first: nat, k: nat)
    ensures CycleWrites(envs, first, k + 1)
            == CycleWrites(envs, first, k) + Writes(RoundActs(envs(k)), first + k)
  {
  }

  lemma AcceptedHasRun(d: Disk)
    requires Consistent(d)
    ensures HasRun(d)
  {
  }

  /** One life of the machine: how long it lasts, what the operator says, what the roles do. */
  datatype Session = Session(edits: seq<Write>, power: nat, replies: seq<string>, envs: nat -> RoundEnv)

  /** The operator edits what is judged, and every session of development keeps its contract. */
  ghost predicate IsSession(s: Session) {
    && (forall i :: 0 <= i < |s.edits| ==> EditsSubject(s.edits[i]))
    && KeepContracts(s.envs)
  }

  /** What the operator changes before a session begins. */
  method EditBefore(catalog: RunCatalog, edits: seq<Write>)
    requires catalog.Valid() && HasRun(catalog.disk)
    requires forall i :: 0 <= i < |edits| ==> EditsSubject(edits[i])
    modifies catalog
    ensures catalog.Valid() && Continues(old(catalog.history), catalog.history)
  {
    hide Continues, IsLegal, Usable;
    ghost var start := catalog.history;
    ContinuesItself(start);
    for i := 0 to |edits|
      invariant catalog.Valid() && Continues(start, catalog.history) && HasRun(catalog.disk)
    {
      ghost var before := catalog.history;
      catalog.EditSubject(edits[i]);
      EditIsLegal(before, edits[i]);
      ContinuesIsTransitive(start, before, catalog.history);
    }
  }

  lemma EditIsLegal(h: History, w: Write)
    requires h.Recorded() && HasRun(h.Now()) && EditsSubject(w)
    ensures Continues(h, h.Extended(OperatorWrote(w))) && HasRun(h.Extended(OperatorWrote(w)).Now())
  {
    hide Usable;
    StepContinues(h, OperatorWrote(w));
  }

  /** Any number of sessions over one run directory, each cut off wherever the machine dies. */
  method AnyRun(catalog: RunCatalog, sessions: seq<Session>) returns (last: Outcome<nat>)
    requires catalog.Valid() && Consistent(catalog.disk) && DistinctBatches(catalog.disk)
    requires forall i :: 0 <= i < |sessions| ==> IsSession(sessions[i])
    modifies catalog
    ensures catalog.Valid()
    ensures Continues(old(catalog.history), catalog.history)
    ensures Consistent(catalog.disk) && DistinctBatches(catalog.disk)
  {
    hide DistinctBatches, Continues, KeepsContract, PassesInOrder, OutcomesInOrder, CompletionInOrder;
    hide GatesInOrder, Usable;
    ghost var start := catalog.history;
    ContinuesItself(start);
    last := Crashed;
    for i := 0 to |sessions|
      invariant catalog.Valid() && Continues(start, catalog.history)
      invariant Consistent(catalog.disk) && DistinctBatches(catalog.disk)
    {
      ghost var left := catalog.history;
      EditBefore(catalog, sessions[i].edits);
      ContinuesIsTransitive(start, left, catalog.history);
      SessionsStayRecoverable(left, catalog.history);
      catalog.power := sessions[i].power;
      var gate := new Gate(catalog, sessions[i].replies);
      ghost var before := catalog.history;
      last := RunCycle(catalog, gate, sessions[i].envs);
      ContinuesIsTransitive(start, before, catalog.history);
    }
  }

  lemma NoQuestionsYet(d: Disk)
    requires Consistent(d) && d.passes == map[]
    ensures DistinctBatches(d)
  {
    hide Complete, Blank, OutcomesInOrder, CompletionInOrder;
  }

  /** A run from its creation on: if creation was finished, then after any sessions, each cut off
      anywhere, recovery succeeds, and it reads exactly the passes that were written and the rounds
      that were marked complete. */
  method WholeLife(work: map<string, Artifact>, power: nat, artifactPaths: seq<string>, criticModel: string,
                   description: string, note: string, sessions: seq<Session>)
    returns (catalog: RunCatalog, created: Outcome<()>, restored: Outcome<RunState>, ghost born: nat)
    requires forall i :: 0 <= i < |sessions| ==> IsSession(sessions[i])
    ensures fresh(catalog) && catalog.Valid()
    ensures created.Fine? ==>
              && born <= |catalog.history.events| && LegalFrom(catalog.history, born)
              && restored.Fine? && HasRun(catalog.disk) && Describes(restored.value, catalog.disk)
              && |restored.value.roundsWithPass| == PassesWritten(catalog.history, born, |catalog.history.events|)
              && |restored.value.roundsWithOutcomes| == RoundsClosed(catalog.history, born, |catalog.history.events|)
              && restored.value.artifactPaths == artifactPaths
              && forall i :: born <= i <= |catalog.history.events| ==> ClosedAreQuiet(catalog.history.states[i])
  {
    hide PassesInOrder, OutcomesInOrder, CompletionInOrder, GatesInOrder, DistinctBatches, KeepsContract;
    hide PassesWritten, RoundsClosed, IsLegal, Apply, LegalAt, ClosedAreQuiet, IsSession;
    catalog := new RunCatalog(work, power);
    created := catalog.Create(artifactPaths, criticModel, description, note);
    restored := Crashed;
    born := |catalog.history.events|;
    if created.Fine? {
      NoQuestionsYet(catalog.disk);
      ghost var start := catalog.history;
      var _ := AnyRun(catalog, sessions);
      restored := catalog.Restore();
      ghost var h := catalog.history;
      LegalSince(start, h);
      DirectoryTellsHistory(h, born, |h.events|);
      NothingHappenedYet(start.Now());
      forall i | born <= i <= |h.events|
        ensures ClosedAreQuiet(h.states[i])
      {
        ClosedStayQuiet(h, born, i);
      }
      PathsArePermanent(h, born, born, |h.events|);
    }
  }

  lemma NothingHappenedYet(d: Disk)
    requires d.passes == map[]
    ensures |d.passes| == 0 && ClosedRounds(d) == 0 && ClosedAreQuiet(d)
  {
  }

  lemma LegalSince(h: History, g: History)
    requires Continues(h, g) && h.Recorded()
    ensures g.Recorded() && |h.events| <= |g.events| && LegalFrom(g, |h.events|) && g.states[|h.events|] == h.Now()
  {
    hide IsLegal, Apply;
  }
}
