/** The files of one review run, what recovery accepts, and what it reads out of them. */
module RunFiles {
  import opened Wrappers
  import opened Text
  import opened Names
  import opened Snapshot

  /** A structured file either parses to a value of the right shape or is damaged. */
  datatype Doc<+T> = Good(value: T) | Corrupt

  datatype RunMeta = RunMeta(
    artifactPaths: seq<string>,
    criticModel: string,
    entryConfirmed: bool,
    entryAnswer: string,
    entryPrompt: string)

  datatype PassMeta = PassMeta(
    profileVersion: string,
    gitHead: string,
    snapshot: map<string, Digest>,
    completed: bool,
    versionAtResume: Option<string>)

  datatype Question = Question(text: string, kind: string)

  datatype Answer = Answer(question: string, answer: string)

  datatype GateRecord = GateRecord(question: string, answer: string, kind: string)

  /** The run directory, file by file, and beside it the working copy that is judged.
      Round files are keyed by their round; an absent key is an absent file. */
  datatype Disk = Disk(
    meta: Option<Doc<RunMeta>>,
    description: Option<string>,
    note: Option<string>,
    journal: Option<seq<GateRecord>>,
    passes: map<nat, string>,
    passMeta: map<nat, Doc<PassMeta>>,
    outcomes: map<nat, string>,
    requests: map<nat, Doc<seq<Question>>>,
    answers: map<nat, Doc<seq<Answer>>>,
    foreign: set<ForeignName>,
    work: map<string, Artifact>)

  // --- the metadata contracts ----------------------------------------------

  /** A confirmed flag carries both halves of its evidence. */
  predicate Usable(meta: RunMeta) {
    meta.entryConfirmed ==> !Blank(meta.entryAnswer) && !Blank(meta.entryPrompt)
  }

  function PathSet(paths: seq<string>): set<string> {
    set path | path in paths
  }

  function SnapshotKeys(paths: seq<string>): set<string> {
    PathSet(paths) + {DESCRIPTION_KEY, NOTE_KEY}
  }

  /** Provenance is there, and the snapshot covers exactly the subject of the run. */
  predicate Complete(meta: PassMeta, paths: seq<string>) {
    && !Blank(meta.profileVersion)
    && !Blank(meta.gitHead)
    && (meta.gitHead != [] ==> meta.gitHead[0] != '<')
    && meta.snapshot.Keys == SnapshotKeys(paths)
  }

  predicate HasRun(d: Disk) {
    d.meta.Some? && d.meta.value.Good? && Usable(d.meta.value.value)
  }

  function Run(d: Disk): RunMeta
    requires HasRun(d)
  {
    d.meta.value.value
  }

  type MetaFiles = map<nat, Doc<PassMeta>>

  predicate MetaReadable(metas: MetaFiles, paths: seq<string>, n: nat) {
    n in metas && metas[n].Good? && Complete(metas[n].value, paths)
  }

  predicate IsCompleted(metas: MetaFiles, n: nat) {
    n in metas && metas[n].Good? && metas[n].value.completed
  }

  // --- what is judged ------------------------------------------------------

  predicate CanJudge(d: Disk) {
    HasRun(d) && d.description.Some? && d.note.Some? && PathSet(Run(d).artifactPaths) <= d.work.Keys
  }

  function JudgedOf(d: Disk): (j: Judged)
    requires CanJudge(d)
    ensures j.artifacts.Keys == PathSet(Run(d).artifactPaths)
  {
    Judged(map path | path in PathSet(Run(d).artifactPaths) :: d.work[path], d.description.value, d.note.value)
  }

  // --- questions to the operator -------------------------------------------

  function Asked(answers: seq<Answer>): set<string> {
    set a | a in answers :: a.question
  }

  predicate DistinctQuestions(questions: seq<Question>) {
    forall i, j :: 0 <= i < j < |questions| ==> questions[i].text != questions[j].text
  }

  predicate AnsweredOnce(answers: seq<Answer>) {
    forall i, j :: 0 <= i < j < |answers| ==> answers[i].question != answers[j].question
  }

  function AnswersOf(d: Disk, n: nat): seq<Answer> {
    if n in d.answers && d.answers[n].Good? then d.answers[n].value else []
  }

  predicate AllAnswered(questions: seq<Question>, answers: seq<Answer>) {
    forall q :: q in questions ==> q.text in Asked(answers)
  }

  type RequestFiles = map<nat, Doc<seq<Question>>>
  type AnswerFiles = map<nat, Doc<seq<Answer>>>

  /** Questions hang while their answers are missing or incomplete. */
  predicate IsPending(requests: RequestFiles, answers: AnswerFiles, n: nat) {
    && n in requests
    && (n in answers && requests[n].Good? && answers[n].Good? ==>
          !AllAnswered(requests[n].value, answers[n].value))
  }

  // --- the state that recovery accepts -------------------------------------

  /** The rounds of a family of files are exactly 1..n. */
  ghost predicate Rounds<V>(files: map<nat, V>, n: nat) {
    forall k: nat :: k in files <==> 1 <= k <= n
  }

  /** Passes 1..n, each with its text and with complete metadata. */
  ghost predicate PassesInOrder(passes: map<nat, string>, metas: MetaFiles, paths: seq<string>) {
    && Rounds(passes, |passes|)
    && forall n :: n in passes ==> MetaReadable(metas, paths, n) && !Blank(passes[n])
  }

  ghost predicate OutcomesInOrder(outcomes: map<nat, string>) {
    && Rounds(outcomes, |outcomes|)
    && forall n :: n in outcomes ==> !Blank(outcomes[n])
  }

  /** Every round but the newest is completed, and a completed round has its outcomes. */
  predicate CompletionInOrder(passes: map<nat, string>, metas: MetaFiles, outcomes: map<nat, string>) {
    && outcomes.Keys <= passes.Keys
    && (forall n :: n in passes && n < |passes| ==> IsCompleted(metas, n))
    && (forall n :: n in passes && IsCompleted(metas, n) ==> n in outcomes)
  }

  /** Gate files parse, belong to rounds of the history, and do not hang on a completed round. */
  predicate GatesInOrder(passes: map<nat, string>, metas: MetaFiles, requests: RequestFiles, answers: AnswerFiles) {
    && (forall n :: n in answers ==> answers[n].Good? && n in passes)
    && (forall n :: n in requests ==> n in passes)
    && (forall n :: n in requests && n in answers ==> requests[n].Good?)
    && (forall n :: n in passes && IsCompleted(metas, n) ==> !IsPending(requests, answers, n))
  }

  /** What recovery asks of a directory: run metadata, and every family of files in order. */
  ghost predicate Consistent(d: Disk) {
    && HasRun(d) && d.description.Some? && d.note.Some?
    && PassesInOrder(d.passes, d.passMeta, Run(d).artifactPaths)
    && OutcomesInOrder(d.outcomes)
    && CompletionInOrder(d.passes, d.passMeta, d.outcomes)
    && GatesInOrder(d.passes, d.passMeta, d.requests, d.answers)
  }

  /** The state of the cycle as it is restored from the files. */
  datatype RunState = RunState(
    artifactPaths: seq<string>,
    criticModel: string,
    roundsWithPass: seq<nat>,
    roundsWithOutcomes: seq<nat>,
    entryGateConfirmed: bool,
    pendingGateRounds: seq<nat>)
  {
    /** Rounds whose pass has no completed outcomes yet, in the order of the passes. */
    function Waiting(): seq<nat> {
      Without(roundsWithPass, roundsWithOutcomes)
    }

    /** The round to carry on with after a crash of development, if there is one. */
    function ResumeRound(): Option<nat> {
      if Waiting() == [] then None else Some(Waiting()[0])
    }

    function CurrentRound(): nat {
      Maximum(roundsWithPass) + if Waiting() == [] then 1 else 0
    }
  }

  function Without(s: seq<nat>, t: seq<nat>): seq<nat> {
    if s == [] then []
    else (if s[0] in t then [] else [s[0]]) + Without(s[1..], t)
  }

  function Maximum(s: seq<nat>): nat {
    if s == [] then 0
    else var rest := Maximum(s[1..]); if s[0] > rest then s[0] else rest
  }

  function Ascending(n: nat): (s: seq<nat>)
    ensures |s| == n && forall i :: 0 <= i < n ==> s[i] == i + 1
  {
    seq(n, i => i + 1)
  }

  predicate StrictlyAscending(s: seq<nat>) {
    forall i, j :: 0 <= i < j < |s| ==> s[i] < s[j]
  }

  /** The round still running, if any: at most the newest pass can be unfinished. */
  function ClosedRounds(d: Disk): nat {
    if |d.passes| > 0 && !IsCompleted(d.passMeta, |d.passes|) then |d.passes| - 1 else |d.passes|
  }

  /** What a directory means, as an abstract history: passes 1..P, rounds 1..C closed. */
  ghost predicate Describes(state: RunState, d: Disk)
    requires HasRun(d)
  {
    && state.artifactPaths == Run(d).artifactPaths
    && state.criticModel == Run(d).criticModel
    && state.entryGateConfirmed == Run(d).entryConfirmed
    && state.roundsWithPass == Ascending(|d.passes|)
    && state.roundsWithOutcomes == Ascending(ClosedRounds(d))
    && StrictlyAscending(state.pendingGateRounds)
    && forall n :: n in state.pendingGateRounds <==> IsPending(d.requests, d.answers, n)
  }

  /** The rounds 1..n, as a set. */
  function Upto(n: nat): (s: set<nat>)
    ensures forall i: nat :: i in s <==> 1 <= i <= n
    ensures |s| == n
  {
    if n == 0 then {} else Upto(n - 1) + {n}
  }

  // --- round numbers -------------------------------------------------------

  /** The state read out of an accepted directory names the open round, and only it. */
  lemma RoundNumbers(state: RunState, d: Disk)
    requires Consistent(d) && Describes(state, d)
    ensures state.ResumeRound() == if ClosedRounds(d) < |d.passes| then Some(|d.passes|) else None
    ensures state.CurrentRound() == ClosedRounds(d) + 1
  {
    var p, c := |d.passes|, ClosedRounds(d);
    MaximumOfAscending(p, 0);
    WithoutPrefix(p, c, 0);
    assert Ascending(p)[0..] == Ascending(p);
  }

  lemma {:induction false} MaximumOfAscending(n: nat, k: nat)
    requires k <= n
    ensures Maximum(Ascending(n)[k..]) == if k < n then n else 0
    decreases n - k
  {
    if k < n {
      assert Ascending(n)[k..][1..] == Ascending(n)[k + 1..];
      MaximumOfAscending(n, k + 1);
    }
  }

  lemma {:induction false} WithoutPrefix(n: nat, c: nat, k: nat)
    requires k <= n && c <= n <= c + 1
    ensures Without(Ascending(n)[k..], Ascending(c)) == if k < n && c < n then [n] else []
    decreases n - k
  {
    if k < n {
      var s := Ascending(n)[k..];
      assert s[0] == k + 1 && s[1..] == Ascending(n)[k + 1..];
      assert k + 1 in Ascending(c) <==> k < c by {
        if k < c {
          assert Ascending(c)[k] == k + 1;
        }
      }
      WithoutPrefix(n, c, k + 1);
    }
  }
}
