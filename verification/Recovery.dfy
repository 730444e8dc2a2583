/** Recovery: the whole state of a cycle is rebuilt from the directory, and a directory that is not
    consistent is refused. */
module Recovery {
  import opened Wrappers
  import opened Text
  import opened Names
  import opened Sequences
  import opened RunFiles
  import opened Lists
  import opened Outcomes

  method LoadMeta(d: Disk) returns (r: Outcome<RunMeta>)
    ensures !r.Crashed?
    ensures r.Fine? <==> HasRun(d)
    ensures r.Fine? ==> r.value == Run(d)
  {
    match d.meta
    case None => return Refused(NoRunJson);
    case Some(Corrupt) => return Refused(CorruptRunJson);
    case Some(Good(meta)) =>
      if !Usable(meta) {
        return Refused(CorruptRunJson);
      }
      return Fine(meta);
  }

  method ReadRoundMeta(d: Disk, n: nat) returns (r: Outcome<PassMeta>)
    ensures !r.Crashed?
    ensures r.Fine? <==> HasRun(d) && MetaReadable(d.passMeta, Run(d).artifactPaths, n)
    ensures r.Fine? ==> r.value == d.passMeta[n].value
  {
    hide Complete;
    if n !in d.passMeta {
      return Refused(NoMetadata);
    }
    if d.passMeta[n].Corrupt? {
      return Refused(CorruptMetadata);
    }
    var run :- LoadMeta(d);
    if !Complete(d.passMeta[n].value, run.artifactPaths) {
      return Refused(CorruptMetadata);
    }
    return Fine(d.passMeta[n].value);
  }

  // --- the directory listing ---------------------------------------------------

  predicate Present(d: Disk, kind: Kind, n: nat) {
    match kind
    case PassFile => n in d.passes
    case OutcomesFile => n in d.outcomes
    case RequestsFile => n in d.requests
    case AnswersFile => n in d.answers
  }

  /** A listing in some order, without repetition: the round files and the foreign ones. */
  ghost predicate Listing(children: seq<string>, d: Disk) {
    && NoDuplicates(children)
    && (forall i :: 0 <= i < |children| ==> ProperName(children[i]))
    && (forall kind, n :: Name(kind, n) in children <==> Present(d, kind, n))
  }

  method Enumerate<T(==)>(s: set<T>) returns (l: seq<T>)
    ensures NoDuplicates(l) && forall x :: x in l <==> x in s
  {
    l := [];
    var rest := s;
    while rest != {}
      invariant rest <= s && NoDuplicates(l)
      invariant forall x :: x in l <==> x in s && x !in rest
      decreases rest
    {
      var x :| x in rest;
      l := l + [x];
      rest := rest - {x};
    }
  }

  ghost predicate FamilyListed(before: seq<string>, after: seq<string>, kind: Kind, files: set<nat>) {
    && NoDuplicates(after) && before <= after
    && (forall i :: 0 <= i < |after| ==> ProperName(after[i]))
    && (forall other, n :: other != kind ==> (Name(other, n) in after <==> Name(other, n) in before))
    && (forall n :: Name(kind, n) in after <==> n in files)
  }

  lemma NamesAreProper(kind: Kind, n: nat)
    ensures ProperName(Name(kind, n))
  {
    hide Parse, Name;
    forall other | Parse(other, Name(kind, n)).Some?
      ensures Name(kind, n) == Name(other, Parse(other, Name(kind, n)).value)
    {
      ParseOfName(kind, other, n);
    }
  }

  method ListFamily(children: seq<string>, kind: Kind, files: set<nat>) returns (r: seq<string>)
    requires NoDuplicates(children) && forall i :: 0 <= i < |children| ==> ProperName(children[i])
    requires forall n :: Name(kind, n) !in children
    ensures FamilyListed(children, r, kind, files)
  {
    hide Parse, Name, ProperName;
    var rounds := Enumerate(files);
    r := children;
    for i := 0 to |rounds|
      invariant FamilyListed(children, r, kind, set j | 0 <= j < i :: rounds[j])
    {
      var n := rounds[i];
      NamesAreProper(kind, n);
      forall other, m
        ensures Name(other, m) == Name(kind, n) ==> other == kind && m == n
      {
        if Name(other, m) == Name(kind, n) {
          NameIsInjective(other, m, kind, n);
        }
      }
      assert n !in set j | 0 <= j < i :: rounds[j];
      r := r + [Name(kind, n)];
      assert (set j | 0 <= j < i + 1 :: rounds[j]) == (set j | 0 <= j < i :: rounds[j]) + {n};
    }
    assert (set j | 0 <= j < |rounds| :: rounds[j]) == files;
  }

  method IterDir(d: Disk) returns (children: seq<string>)
    ensures Listing(children, d)
  {
    hide Parse, Name, ProperName;
    var foreign := Enumerate(d.foreign);
    forall i | 0 <= i < |foreign|
      ensures ProperName(foreign[i])
    {
      ForeignIsProper(foreign[i]);
    }
    forall kind, n, i | 0 <= i < |foreign|
      ensures foreign[i] != Name(kind, n)
    {
      NamesAreNotForeign(kind, n, foreign[i]);
    }
    var a := ListFamily(foreign, PassFile, d.passes.Keys);
    var b := ListFamily(a, OutcomesFile, d.outcomes.Keys);
    var c := ListFamily(b, RequestsFile, d.requests.Keys);
    children := ListFamily(c, AnswersFile, d.answers.Keys);
  }

  lemma ForeignIsProper(name: ForeignName)
    ensures ProperName(name)
  {
  }

  lemma NamesAreNotForeign(kind: Kind, n: nat, s: ForeignName)
    ensures s != Name(kind, n)
  {
    hide Parse, Name;
    ParseOfName(kind, kind, n);
  }

  // --- the checks, in the order recovery makes them ---------------------------

  /** The round numbers a listing holds for each family. */
  datatype Buckets = Buckets(passes: seq<nat>, outcomes: seq<nat>, requests: seq<nat>, answers: seq<nat>)

  ghost predicate ListsExactly<V>(rounds: seq<nat>, files: map<nat, V>) {
    NoDuplicates(rounds) && |rounds| == |files| && forall n: nat :: n in rounds <==> n in files
  }

  ghost predicate Sorts(b: Buckets, d: Disk) {
    && ListsExactly(b.passes, d.passes) && ListsExactly(b.outcomes, d.outcomes)
    && ListsExactly(b.requests, d.requests) && ListsExactly(b.answers, d.answers)
  }

  lemma BucketListsExactly<V>(children: seq<string>, kind: Kind, files: map<nat, V>)
    requires NoDuplicates(children) && forall i :: 0 <= i < |children| ==> ProperName(children[i])
    requires forall n :: Name(kind, n) in children <==> n in files
    ensures ListsExactly(Bucket(kind, children), files)
  {
    hide Parse, Name, ProperName, Bucket;
    var rounds := Bucket(kind, children);
    BucketHasNoDuplicates(kind, children);
    forall n: nat
      ensures n in rounds <==> n in files
    {
      BucketMembers(kind, children, n);
    }
    ListLength(rounds, files.Keys);
    assert |files.Keys| == |files|;
  }

  /** Every child is matched against the four patterns; the first match takes it. */
  method SortChildren(children: seq<string>, d: Disk) returns (b: Buckets)
    requires Listing(children, d)
    ensures Sorts(b, d)
  {
    hide Parse, Name, ProperName;
    var passes, outcomes, requests, answers := [], [], [], [];
    for i := 0 to |children|
      invariant passes == Bucket(PassFile, children[..i])
      invariant outcomes == Bucket(OutcomesFile, children[..i])
      invariant requests == Bucket(RequestsFile, children[..i])
      invariant answers == Bucket(AnswersFile, children[..i])
    {
      var child := children[i];
      assert children[..i + 1][..i] == children[..i];
      forall k1, k2 | Parse(k1, child).Some? && Parse(k2, child).Some?
        ensures k1 == k2
      {
        FamiliesAreDisjoint(k1, k2, child);
      }
      var pass, outcome := Parse(PassFile, child), Parse(OutcomesFile, child);
      var request, answer := Parse(RequestsFile, child), Parse(AnswersFile, child);
      if pass.Some? {
        passes := passes + [pass.value];
      } else if outcome.Some? {
        outcomes := outcomes + [outcome.value];
      } else if request.Some? {
        requests := requests + [request.value];
      } else if answer.Some? {
        answers := answers + [answer.value];
      }
    }
    assert children[..|children|] == children;
    forall kind, n
      ensures Name(kind, n) in children <==> Present(d, kind, n)
    {
    }
    BucketListsExactly(children, PassFile, d.passes);
    BucketListsExactly(children, OutcomesFile, d.outcomes);
    BucketListsExactly(children, RequestsFile, d.requests);
    BucketListsExactly(children, AnswersFile, d.answers);
    b := Buckets(passes, outcomes, requests, answers);
  }

  method AllFull(rounds: seq<nat>, files: map<nat, string>) returns (full: bool)
    requires ListsExactly(rounds, files)
    ensures full <==> forall n :: n in files ==> !Blank(files[n])
  {
    hide Blank;
    for i := 0 to |rounds|
      invariant forall j :: 0 <= j < i ==> !Blank(files[rounds[j]])
    {
      assert rounds[i] in files;
      if Blank(files[rounds[i]]) {
        return false;
      }
    }
    return true;
  }

  /** The completed rounds among the listed ones. */
  method SelectCompleted(rounds: seq<nat>, metas: MetaFiles) returns (completed: seq<nat>)
    requires NoDuplicates(rounds)
    ensures NoDuplicates(completed)
    ensures forall n :: n in completed <==> n in rounds && IsCompleted(metas, n)
  {
    completed := [];
    for i := 0 to |rounds|
      invariant NoDuplicates(completed)
      invariant forall n :: n in completed <==> n in rounds[..i] && IsCompleted(metas, n)
    {
      assert rounds[i] !in rounds[..i];
      assert rounds[..i + 1] == rounds[..i] + [rounds[i]];
      if IsCompleted(metas, rounds[i]) {
        completed := completed + [rounds[i]];
      }
    }
    assert rounds[..|rounds|] == rounds;
  }

  lemma RangeMeansRounds<V>(rounds: seq<nat>, files: map<nat, V>)
    requires ListsExactly(rounds, files)
    ensures Sorted(rounds) == Ascending(|rounds|) <==> Rounds(files, |files|)
  {
    hide Sorted;
    SortsToRange(rounds);
    assert forall x: nat :: x in rounds <==> x in files;
  }

  /** The metadata and the text of every pass. */
  method PassesAreWhole(rounds: seq<nat>, d: Disk) returns (r: Outcome<()>)
    requires HasRun(d) && ListsExactly(rounds, d.passes)
    ensures !r.Crashed?
    ensures r.Fine? <==> forall n :: n in d.passes ==>
              MetaReadable(d.passMeta, Run(d).artifactPaths, n) && !Blank(d.passes[n])
  {
    hide Blank, Complete;
    for i := 0 to |rounds|
      invariant forall j :: 0 <= j < i ==>
                  MetaReadable(d.passMeta, Run(d).artifactPaths, rounds[j]) && !Blank(d.passes[rounds[j]])
    {
      assert rounds[i] in d.passes;
      var _ :- ReadRoundMeta(d, rounds[i]);
      if Blank(d.passes[rounds[i]]) {
        return Refused(BlankPass);
      }
    }
    return Fine(());
  }

  method CompletedHaveOutcomes(rounds: seq<nat>, d: Disk) returns (whole: bool)
    requires ListsExactly(rounds, d.passes)
    ensures whole <==> forall n :: n in d.passes && IsCompleted(d.passMeta, n) ==> n in d.outcomes
  {
    for i := 0 to |rounds|
      invariant forall j :: 0 <= j < i ==> IsCompleted(d.passMeta, rounds[j]) ==> rounds[j] in d.outcomes
    {
      if IsCompleted(d.passMeta, rounds[i]) && rounds[i] !in d.outcomes {
        return false;
      }
    }
    return true;
  }

  /** Rounds with questions whose answers are missing or incomplete; damaged files refuse. */
  method FindPending(rounds: seq<nat>, d: Disk) returns (r: Outcome<seq<nat>>)
    requires ListsExactly(rounds, d.requests)
    ensures !r.Crashed?
    ensures r.Fine? <==> forall n :: n in d.requests && n in d.answers ==> d.requests[n].Good? && d.answers[n].Good?
    ensures r.Fine? ==> NoDuplicates(r.value) && forall n :: n in r.value <==> IsPending(d.requests, d.answers, n)
  {
    hide AllAnswered;
    var pending := [];
    for i := 0 to |rounds|
      invariant NoDuplicates(pending)
      invariant forall n :: n in pending <==> n in rounds[..i] && IsPending(d.requests, d.answers, n)
      invariant forall n :: n in rounds[..i] && n in d.answers ==> d.requests[n].Good? && d.answers[n].Good?
    {
      var n := rounds[i];
      assert n !in rounds[..i];
      assert rounds[..i + 1] == rounds[..i] + [n];
      if n !in d.answers {
        pending := pending + [n];
      } else if d.requests[n].Corrupt? || d.answers[n].Corrupt? {
        assert n in rounds;
        return Refused(CorruptGateFiles);
      } else if !AllAnswered(d.requests[n].value, d.answers[n].value) {
        pending := pending + [n];
      }
    }
    assert rounds[..|rounds|] == rounds;
    return Fine(pending);
  }

  method Disjoint(a: seq<nat>, b: seq<nat>) returns (disjoint: bool)
    ensures disjoint <==> forall n :: n in a ==> n !in b
  {
    for i := 0 to |a|
      invariant forall j :: 0 <= j < i ==> a[j] !in b
    {
      if a[i] in b {
        return false;
      }
    }
    return true;
  }

  method Within(a: seq<nat>, b: seq<nat>) returns (within: bool)
    ensures within <==> forall n :: n in a ==> n in b
  {
    for i := 0 to |a|
      invariant forall j :: 0 <= j < i ==> a[j] in b
    {
      if a[i] !in b {
        return false;
      }
    }
    return true;
  }

  /** Answers that outlived their questions must parse by themselves. */
  method LoneAnswersParse(rounds: seq<nat>, d: Disk) returns (parse: bool)
    requires ListsExactly(rounds, d.answers)
    ensures parse <==> forall n :: n in d.answers && n !in d.requests ==> d.answers[n].Good?
  {
    for i := 0 to |rounds|
      invariant forall j :: 0 <= j < i ==> rounds[j] !in d.requests ==> d.answers[rounds[j]].Good?
    {
      assert rounds[i] in d.answers;
      if rounds[i] !in d.requests && d.answers[rounds[i]].Corrupt? {
        return false;
      }
    }
    return true;
  }

  lemma CompletedAreAPrefix(completed: seq<nat>, done: nat)
    requires NoDuplicates(completed) && forall n: nat :: n in completed <==> 1 <= n <= done
    ensures Sorted(completed) == Ascending(done) && |completed| == done
  {
    hide Sorted;
    ListLength(completed, Upto(done));
    SortsToRange(completed);
  }

  lemma PrefixMembers(completed: seq<nat>, n: nat)
    requires NoDuplicates(completed) && Sorted(completed) == Ascending(|completed|)
    ensures n in completed <==> 1 <= n <= |completed|
  {
    hide Sorted;
    SortsToRange(completed);
  }

  /** With the files in order, the prefix and the count of the completed rounds say the same
      as the rule that only the newest round may be unfinished. */
  lemma CompletedPrefix(completed: seq<nat>, d: Disk)
    requires NoDuplicates(completed) && Rounds(d.passes, |d.passes|)
    requires forall n :: n in completed <==> n in d.passes && IsCompleted(d.passMeta, n)
    ensures Sorted(completed) == Ascending(|completed|) && |d.passes| <= |completed| + 1 <==>
            forall n :: n in d.passes && n < |d.passes| ==> IsCompleted(d.passMeta, n)
    ensures (forall n :: n in d.passes && n < |d.passes| ==> IsCompleted(d.passMeta, n)) ==>
            |completed| == ClosedRounds(d)
  {
    hide Sorted, IsCompleted, NoDuplicates;
    if forall n :: n in d.passes && n < |d.passes| ==> IsCompleted(d.passMeta, n) {
      CompletedAreAPrefix(completed, ClosedRounds(d));
    } else if Sorted(completed) == Ascending(|completed|) {
      var n :| n in d.passes && n < |d.passes| && !IsCompleted(d.passMeta, n);
      PrefixMembers(completed, n);
    }
  }

  lemma SameLists(b: Buckets, d: Disk)
    requires Sorts(b, d)
    ensures |b.passes| == |d.passes| && (forall n :: n in b.passes <==> n in d.passes)
    ensures |b.outcomes| == |d.outcomes| && NoDuplicates(b.outcomes)
            && (forall n :: n in b.outcomes <==> n in d.outcomes)
  {
  }

  /** Passes, outcomes and completion marks; yields the completed rounds. */
  method CheckRounds(b: Buckets, d: Disk) returns (r: Outcome<seq<nat>>)
    requires HasRun(d) && Sorts(b, d)
    ensures !r.Crashed?
    ensures r.Fine? <==>
            && PassesInOrder(d.passes, d.passMeta, Run(d).artifactPaths)
            && OutcomesInOrder(d.outcomes)
            && CompletionInOrder(d.passes, d.passMeta, d.outcomes)
    ensures r.Fine? ==> Sorted(b.passes) == Ascending(|d.passes|) && Sorted(r.value) == Ascending(ClosedRounds(d))
    ensures r.Fine? ==> forall n :: n in r.value <==> n in d.passes && IsCompleted(d.passMeta, n)
  {
    hide Blank, Complete, MetaReadable, IsCompleted, Sorted, ListsExactly;
    SameLists(b, d);
    RangeMeansRounds(b.passes, d.passes);
    RangeMeansRounds(b.outcomes, d.outcomes);
    var full := AllFull(b.outcomes, d.outcomes);
    if !full {
      return Refused(BlankOutcomes);
    }
    var owned := Within(b.outcomes, b.passes);
    if !owned {
      return Refused(OrphanOutcomes);
    }
    if Sorted(b.passes) != Ascending(|b.passes|) {
      return Refused(PassHoles);
    }
    if Sorted(b.outcomes) != Ascending(|b.outcomes|) {
      return Refused(OutcomeHoles);
    }
    var _ :- PassesAreWhole(b.passes, d);
    var whole := CompletedHaveOutcomes(b.passes, d);
    if !whole {
      return Refused(CompletedWithoutOutcomes);
    }
    var completed := SelectCompleted(b.outcomes, d.passMeta);
    CompletedPrefix(completed, d);
    if Sorted(completed) != Ascending(|completed|) {
      return Refused(CompletedNotPrefix);
    }
    if |b.passes| > |completed| + 1 {
      return Refused(TwoOpenRounds);
    }
    return Fine(completed);
  }

  /** Questions and answers; yields the rounds with hanging questions. */
  method CheckGates(b: Buckets, completed: seq<nat>, d: Disk) returns (r: Outcome<seq<nat>>)
    requires Sorts(b, d) && forall n :: n in completed <==> n in d.passes && IsCompleted(d.passMeta, n)
    ensures !r.Crashed?
    ensures r.Fine? <==> GatesInOrder(d.passes, d.passMeta, d.requests, d.answers)
    ensures r.Fine? ==> NoDuplicates(r.value) && forall n :: n in r.value <==> IsPending(d.requests, d.answers, n)
  {
    hide IsPending, IsCompleted;
    var pending :- FindPending(b.requests, d);
    var calm := Disjoint(pending, completed);
    if !calm {
      return Refused(StaleQuestions);
    }
    var ownQuestions := Within(b.requests, b.passes);
    var ownAnswers := Within(b.answers, b.passes);
    if !ownQuestions || !ownAnswers {
      return Refused(AlienGateFiles);
    }
    var parse := LoneAnswersParse(b.answers, d);
    if !parse {
      return Refused(CorruptAnswers);
    }
    return Fine(pending);
  }

  /** A directory is accepted exactly when it is consistent, and the state read out of it is
      the one its files describe. */
  method Restore(d: Disk) returns (r: Outcome<RunState>)
    ensures !r.Crashed?
    ensures r.Fine? <==> Consistent(d)
    ensures r.Fine? ==> Describes(r.value, d)
  {
    hide PassesInOrder, OutcomesInOrder, CompletionInOrder, GatesInOrder, Sorted, Listing, IsPending, IsCompleted;
    var meta :- LoadMeta(d);
    if d.description.None? || d.note.None? {
      return Refused(MissingFile);
    }
    var children := IterDir(d);
    var b := SortChildren(children, d);
    var completed :- CheckRounds(b, d);
    var pending :- CheckGates(b, completed, d);
    SortedIsStrict(pending);
    forall n: nat
      ensures n in Sorted(pending) <==> n in pending
    {
      SortedMembers(pending, n);
    }
    return Fine(RunState(
      meta.artifactPaths, meta.criticModel, Sorted(b.passes), Sorted(completed), meta.entryConfirmed, Sorted(pending)));
  }
}
