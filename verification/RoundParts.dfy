/** The parts of a round: a session of development, what is judged, the pass of the critic and the
    completion mark. */
module RoundParts {
  import opened Wrappers
  import opened Text
  import opened Snapshot
  import opened RunFiles
  import opened Outcomes
  import opened Protocol
  import opened RunCatalogs
  import opened Safety
  import opened Stretches
  import opened Sessions

  // --- development -------------------------------------------------------------------

  /** A session of development goes through its acts in order, each of them durable at once. */
  method RunDevelopment(catalog: RunCatalog, n: nat, session: DevSession) returns (r: Outcome<()>)
    requires catalog.Valid() && HasRun(catalog.disk) && OpenRound(catalog.disk, n) && KeepsContract(session)
    modifies catalog
    ensures r.Crashed? ==> catalog.power == 0
    ensures catalog.power <= old(catalog.power) <= catalog.power + |session.acts|
    ensures catalog.Valid()
    ensures var wrote := Developed(old(catalog.history), catalog.history);
            && Stretch(old(catalog.history), catalog.history, [], [], wrote)
            && wrote <= Writes(session.acts, n) && (!r.Crashed? ==> wrote == Writes(session.acts, n))
    ensures OnlyDevelopment(old(catalog.disk), catalog.disk)
    ensures !r.Crashed? ==> (r.Fine? <==> session.ok)
    ensures !r.Crashed? ==> catalog.disk == AfterActs(old(catalog.disk), session.acts, n)
  {
    hide Usable, Blank, AllClosed, MetaReadable, CanJudge, DistinctQuestions, Continues, Heard, Developed;
    hide Put, WriteOf;
    ghost var start := catalog.history;
    StretchItself(start, []);
    for i := 0 to |session.acts|
      invariant catalog.power <= old(catalog.power) <= catalog.power + i
      invariant catalog.Valid() && Stretch(start, catalog.history, [], [], Writes(session.acts[..i], n))
      invariant catalog.disk == AfterActs(start.Now(), session.acts[..i], n)
    {
      ghost var before := catalog.history;
      ghost var done, act := session.acts[..i], session.acts[i];
      assert session.acts[..i + 1] == done + [act];
      ActsReachLittle(start.Now(), done, n);
      WritesBoth(done, [act], n);
      WritesBoth(session.acts[..i], session.acts[i..], n);
      assert session.acts[..i] + session.acts[i..] == session.acts;
      var w := WriteOf(session.acts[i], n);
      var wrote := catalog.DevelopmentWrites(n, w);
      if wrote.Fine? {
        DevelopmentIsLegal(before, n, act);
        StepStretch(before, DevWrote(n, w), []);
        ThenUnasked(start, before, catalog.history, [], [], Writes(done, n), [DevWrote(n, w)]);
        ActsTogether(start.Now(), done, act, n);
        assert Writes([act], n) == [DevWrote(n, w)];
      }
      var _ :- wrote;
    }
    assert session.acts[..|session.acts|] == session.acts;
    ActsReachLittle(start.Now(), session.acts, n);
    if !session.ok {
      return Refused(DevelopmentFailed);
    }
    return Fine(());
  }

  lemma DevelopmentIsLegal(h: History, n: nat, act: DevAct)
    requires h.Recorded() && HasRun(h.Now()) && OpenRound(h.Now(), n)
    requires act.LeaveOutcomes? ==> !Blank(act.text)
    requires act.AskOperator? ==> DistinctQuestions(act.questions)
    ensures Continues(h, h.Extended(DevWrote(n, WriteOf(act, n))))
    ensures OnlyDevelopment(h.Now(), Put(h.Now(), WriteOf(act, n)))
  {
    hide Usable, Blank, DistinctQuestions, AllClosed, OpenRound, AsksAbout, AllAnswered, WriteIsLegal, CanJudge;
    StepContinues(h, DevWrote(n, WriteOf(act, n)));
  }

  // --- what is judged ------------------------------------------------------------------

  /** The hashes of the artefacts; one that is not there is a refusal. */
  method HashArtifacts(paths: seq<string>, work: map<string, Artifact>) returns (r: Outcome<map<string, Digest>>)
    ensures !r.Crashed?
    ensures r.Fine? <==> PathSet(paths) <= work.Keys
    ensures r.Fine? ==> r.value == map path | path in PathSet(paths) && path in work :: Sha256(Encode(work[path]))
  {
    hide Encode;
    var snapshot: map<string, Digest> := map[];
    for i := 0 to |paths|
      invariant forall j :: 0 <= j < i ==> paths[j] in work
      invariant forall path :: path in snapshot <==> path in paths[..i]
      invariant forall path :: path in snapshot ==> path in work && snapshot[path] == Sha256(Encode(work[path]))
    {
      if paths[i] !in work {
        assert paths[i] in PathSet(paths);
        return Refused(NoArtifact);
      }
      var digest := HashFiles(work[paths[i]]);
      snapshot := snapshot[paths[i] := digest];
      assert paths[..i + 1] == paths[..i] + [paths[i]];
    }
    assert paths[..|paths|] == paths;
    return Fine(snapshot);
  }

  /** Hashes of what is judged: the artefacts, then the description and the note. */
  method JudgedSnapshot(d: Disk) returns (r: Outcome<map<string, Digest>>)
    requires HasRun(d) && d.description.Some? && d.note.Some?
    ensures !r.Crashed?
    ensures r.Fine? <==> CanJudge(d)
    ensures r.Fine? ==> r.value == Digests(JudgedOf(d))
  {
    hide Usable, Encode;
    var artifacts :- HashArtifacts(d.meta.value.value.artifactPaths, d.work);
    assert artifacts == map path | path in JudgedOf(d).artifacts :: Sha256(Encode(JudgedOf(d).artifacts[path]));
    var described := artifacts[DESCRIPTION_KEY := Sha256OfText(d.description.value)];
    return Fine(described[NOTE_KEY := Sha256OfText(d.note.value)]);
  }

  // --- the parts of a round --------------------------------------------------------------

  /** Only the pass of round n and its metadata differ. */
  predicate OnlyPass(d: Disk, e: Disk) {
    e == d.(passes := e.passes, passMeta := e.passMeta)
  }

  lemma CriticMayRun(earlier: Option<Event>, before: Option<Event>, d: Disk, n: nat, text: string)
    requires HasRun(d) && Run(d).entryConfirmed && CanJudge(d) && AllClosed(d) && n == |d.passes| + 1
    ensures IsLegal(earlier, before, d, CriticRan(n, text))
  {
    hide CanJudge, AllClosed, OpenRound, AsksAbout, AllAnswered, WriteIsLegal, DevelopmentMay, HasRun;
  }

  lemma CriticIsLegal(h: History, n: nat, text: string)
    requires h.Recorded() && HasRun(h.Now()) && Run(h.Now()).entryConfirmed && CanJudge(h.Now())
    requires AllClosed(h.Now()) && n == |h.Now().passes| + 1
    ensures Continues(h, h.Extended(CriticRan(n, text)))
  {
    hide IsLegal, CanJudge, AllClosed, HasRun;
    CriticMayRun(EventAt(h.events, |h.events| - 2), EventAt(h.events, |h.events| - 1), h.Now(), n, text);
    StepContinues(h, CriticRan(n, text));
  }

  lemma NewMetaIsLegal(h: History, n: nat, text: string, m: PassMeta)
    requires h.Recorded() && HasRun(h.Now()) && IsNewMeta(h.Now(), n, m)
    requires LastEvent(h, CriticRan(n, text))
    ensures Continues(h, h.Extended(Wrote(PassMetaJson(n, m))))
  {
    hide Usable, IsNewMeta;
    StepContinues(h, Wrote(PassMetaJson(n, m)));
  }

  lemma NewMetaStays(d: Disk, n: nat, m: PassMeta)
    requires HasRun(d) && Consistent(d) && IsNewMeta(d, n, m)
    ensures var e := Put(d, PassMetaJson(n, m));
            HasRun(e) && IsNewMeta(e, n, m) && MetaReadable(e.passMeta, Run(e).artifactPaths, n)
  {
    hide Usable, Complete, Digests;
    PassesInOrderMeansRounds(d.passes, d.passMeta, Run(d).artifactPaths);
  }

  lemma PassIsLegal(h: History, n: nat, text: string, m: PassMeta)
    requires h.Recorded() && HasRun(h.Now()) && Consistent(h.Now()) && IsNewMeta(h.Now(), n, m) && !Blank(text)
    requires LastEvent(h, CriticRan(n, text))
    ensures var g := h.Extended(Wrote(PassMetaJson(n, m)));
            Continues(g, g.Extended(Wrote(PassMd(n, text))))
  {
    hide Usable, IsNewMeta, Blank, MetaReadable, AllClosed;
    NewMetaStays(h.Now(), n, m);
    assert AllClosed(Put(h.Now(), PassMetaJson(n, m))) && n == |h.Now().passes| + 1 by {
      NewMetaMeansClosed(Put(h.Now(), PassMetaJson(n, m)), n, m);
    }
    StepContinues(h.Extended(Wrote(PassMetaJson(n, m))), Wrote(PassMd(n, text)));
  }

  lemma NewMetaMeansClosed(d: Disk, n: nat, m: PassMeta)
    requires HasRun(d) && IsNewMeta(d, n, m)
    ensures AllClosed(d) && n == |d.passes| + 1
  {
    hide Usable, Complete, Digests, CanJudge;
  }

  /** What the two writes of a new pass leave behind. */
  lemma PassOnDisk(d: Disk, n: nat, text: string, m: PassMeta)
    requires Consistent(d) && n == |d.passes| + 1 && Complete(m, Run(d).artifactPaths) && !m.completed
    ensures var first := Put(d, PassMetaJson(n, m));
            var e := Put(first, PassMd(n, text));
            && OnlyPass(d, first) && OnlyPass(d, e)
            && e.passes == d.passes[n := text] && e.passMeta == d.passMeta[n := Good(m)]
            && OpenRound(e, n) && MetaReadable(e.passMeta, Run(d).artifactPaths, n) && e.passMeta[n] == Good(m)
  {
    hide Complete, Usable, OutcomesInOrder, CompletionInOrder, GatesInOrder, Blank;
    PassesInOrderMeansRounds(d.passes, d.passMeta, Run(d).artifactPaths);
  }

  /** The pass lands verbatim, after its metadata. */
  method LandPass(catalog: RunCatalog, n: nat, text: string, meta: PassMeta) returns (r: Outcome<()>)
    requires catalog.Valid() && Consistent(catalog.disk) && CanJudge(catalog.disk)
    requires AllClosed(catalog.disk) && n == |catalog.disk.passes| + 1
    requires meta.snapshot == Digests(JudgedOf(catalog.disk)) && !meta.completed && meta.versionAtResume.None?
    requires LastEvent(catalog.history, CriticRan(n, text))
    modifies catalog
    ensures r.Crashed? ==> catalog.power == 0
    ensures catalog.power <= old(catalog.power) <= catalog.power + 2
    ensures catalog.Valid()
    ensures Stretch(old(catalog.history), catalog.history, [], [], [])
    ensures OnlyPass(old(catalog.disk), catalog.disk)
    ensures r.Refused? <==> Blank(text) || !Complete(meta, Run(old(catalog.disk)).artifactPaths)
    ensures r.Refused? ==> catalog.disk == old(catalog.disk)
    ensures r.Fine? ==>
              && OpenRound(catalog.disk, n) && catalog.disk.outcomes == old(catalog.disk).outcomes
              && MetaReadable(catalog.disk.passMeta, Run(catalog.disk).artifactPaths, n)
              && catalog.disk.passes == old(catalog.disk).passes[n := text]
              && catalog.disk.passMeta == old(catalog.disk).passMeta[n := Good(meta)]
  {
    hide Usable, Complete, Digests, Blank, Stretch, IsLegal, CompletionInOrder, OutcomesInOrder;
    hide GatesInOrder, CanJudge;
    hide Put, OpenRound, MetaReadable;
    ghost var judged, d := catalog.history, catalog.disk;
    StretchItself(judged, []);
    PassesInOrderMeansRounds(d.passes, d.passMeta, Run(d).artifactPaths);
    r := catalog.WritePass(n, text, meta);
    if !r.Refused? {
      PassOnDisk(d, n, text, meta);
      NewMetaIsLegal(judged, n, text, meta);
      PassIsLegal(judged, n, text, meta);
      StepStretch(judged, Wrote(PassMetaJson(n, meta)), []);
      ghost var first := judged.Extended(Wrote(PassMetaJson(n, meta)));
      if r.Fine? {
        StepStretch(first, Wrote(PassMd(n, text)), []);
        ThenQuiet(judged, first, catalog.history, [], [], []);
        NewMetaStays(d, n, meta);
      }
    }
  }

  /** Where the judged version comes from: a profile version and a commit, both really there. */
  predicate Provenance(version: string, head: string) {
    !Blank(version) && !Blank(head) && (head != [] ==> head[0] != '<')
  }

  lemma ProvenanceCompletes(d: Disk, version: string, head: string)
    requires CanJudge(d)
    ensures Complete(PassMeta(version, head, Digests(JudgedOf(d)), false, None), Run(d).artifactPaths) <==>
              Provenance(version, head)
  {
    hide Usable, Blank;
  }

  /** The critic and what is known of the version he judged are good for a pass. */
  predicate PassCanLand(env: RoundEnv, version: string) {
    env.critic.Some? && !Blank(env.critic.value) && env.gitHead.Some? && Provenance(version, env.gitHead.value)
  }

  /** The critic's text stands verbatim as the pass of round n, under metadata that name the profile,
      the commit and the snapshot of what he judged. */
  predicate PassLanded(d: Disk, e: Disk, n: nat, env: RoundEnv, version: string)
    requires CanJudge(d)
  {
    && env.critic.Some? && env.gitHead.Some?
    && e.passes == d.passes[n := env.critic.value]
    && e.passMeta
       == d.passMeta[n := Good(PassMeta(version, env.gitHead.value, Digests(JudgedOf(d)), false, None))]
  }

  /** A new round: the critic runs, and his pass lands at once, after its metadata. */
  method NewPass(catalog: RunCatalog, env: RoundEnv, version: string) returns (r: Outcome<nat>)
    requires catalog.Valid() && HasRun(catalog.disk)
    requires Run(catalog.disk).entryConfirmed && AllClosed(catalog.disk)
    modifies catalog
    ensures r.Crashed? ==> catalog.power == 0
    ensures catalog.power <= old(catalog.power) <= catalog.power + 2
    ensures catalog.Valid()
    ensures Stretch(old(catalog.history), catalog.history, [], [], [])
    ensures OnlyPass(old(catalog.disk), catalog.disk)
    ensures r.Refused? <==>
              !Consistent(old(catalog.disk)) || !CanJudge(old(catalog.disk)) || !PassCanLand(env, version)
    ensures r.Refused? ==> catalog.disk == old(catalog.disk)
    ensures r.Fine? ==>
              && r.value == |old(catalog.disk).passes| + 1
              && OpenRound(catalog.disk, r.value) && r.value !in catalog.disk.requests
              && r.value !in catalog.disk.outcomes
              && CanJudge(old(catalog.disk))
              && MetaReadable(catalog.disk.passMeta, Run(catalog.disk).artifactPaths, r.value)
              && PassLanded(old(catalog.disk), catalog.disk, r.value, env, version)
  {
    hide Usable, Complete, Digests, Blank, Stretch, IsLegal, PassesInOrder, CompletionInOrder;
    hide OutcomesInOrder, GatesInOrder;
    hide CanJudge, Provenance;
    ghost var start, d := catalog.history, catalog.disk;
    StretchItself(start, []);
    var state :- catalog.Restore();
    RoundNumbers(state, d);
    var n := state.CurrentRound();
    NothingForTheNextRound(d);
    var snapshot :- JudgedSnapshot(catalog.disk);
    if env.critic.None? {
      return Refused(CriticFailed);
    }
    var text := env.critic.value;
    catalog.Note(CriticRan(n, text));
    CriticIsLegal(start, n, text);
    StepStretch(start, CriticRan(n, text), []);
    ghost var judged := catalog.history;
    if env.gitHead.None? {
      return Refused(NoHead);
    }
    ProvenanceCompletes(d, version, env.gitHead.value);
    var landed := LandPass(catalog, n, text, PassMeta(version, env.gitHead.value, snapshot, false, None));
    ThenQuiet(start, judged, catalog.history, [], [], []);
    var _ :- landed;
    return Fine(n);
  }

  lemma NothingForTheNextRound(d: Disk)
    requires Consistent(d)
    ensures |d.passes| + 1 !in d.passes && |d.passes| + 1 !in d.outcomes && |d.passes| + 1 !in d.requests
  {
    hide Complete, Blank;
    PassesInOrderMeansRounds(d.passes, d.passMeta, Run(d).artifactPaths);
  }

  /** The metadata of the round names the profile it was carried on with, and says what it said. */
  predicate ResumeNoted(d: Disk, e: Disk, n: nat, version: string) {
    && n in d.passMeta && d.passMeta[n].Good? && d.passMeta[n].value.profileVersion != version
    && e == d.(passMeta := d.passMeta[n := Good(d.passMeta[n].value.(versionAtResume := Some(version)))])
  }

  /** The recorded pass of round n is carried on with under this profile: metadata recorded under
      another one name it beside their own, and nothing else changes. */
  predicate PassTaken(d: Disk, e: Disk, n: nat, version: string) {
    && e.passes == d.passes && n in d.passMeta && d.passMeta[n].Good?
    && var m := d.passMeta[n].value;
       e.passMeta == if m.profileVersion == version then d.passMeta
                     else d.passMeta[n := Good(m.(versionAtResume := Some(version)))]
  }

  /** An interrupted round: its pass is taken as it stands, the critic is not replayed. */
  method ResumePass(catalog: RunCatalog, n: nat, version: string) returns (r: Outcome<()>)
    requires catalog.Valid() && HasRun(catalog.disk) && OpenRound(catalog.disk, n)
    requires catalog.disk.description.Some? && catalog.disk.note.Some?
    modifies catalog
    ensures r.Crashed? ==> catalog.power == 0
    ensures old(catalog.power) - 1 <= catalog.power <= old(catalog.power)
    ensures !r.Crashed? ==>
              (r.Fine? <==> && MetaReadable(old(catalog.disk).passMeta, Run(old(catalog.disk)).artifactPaths, n)
                            && CanJudge(old(catalog.disk)))
    ensures catalog.Valid()
    ensures Stretch(old(catalog.history), catalog.history, [], [], [])
    ensures OpenRound(catalog.disk, n)
    ensures catalog.disk == old(catalog.disk) || ResumeNoted(old(catalog.disk), catalog.disk, n, version)
    ensures r.Fine? ==> PassTaken(old(catalog.disk), catalog.disk, n, version)
  {
    hide Usable, Complete, Digests, Blank, Stretch, IsLegal, CompletionInOrder, OutcomesInOrder;
    hide GatesInOrder, CanJudge;
    ghost var start, d := catalog.history, catalog.disk;
    StretchItself(start, []);
    var meta :- catalog.ReadRoundMeta(n);
    if meta.profileVersion != version {
      var noted := meta.(versionAtResume := Some(version));
      var _ :- catalog.WriteDurably(PassMetaJson(n, noted));
      ResumeNoteIsLegal(start, n, noted);
      StepStretch(start, Wrote(PassMetaJson(n, noted)), []);
    }
    SameSubjectJudged(d, catalog.disk);
    var _ :- JudgedSnapshot(catalog.disk);
    return Fine(());
  }

  lemma SameSubjectJudged(d: Disk, e: Disk)
    requires e == d.(passMeta := e.passMeta)
    ensures CanJudge(e) == CanJudge(d)
  {
    hide Usable;
  }

  lemma ResumeNoteIsLegal(h: History, n: nat, m: PassMeta)
    requires h.Recorded() && HasRun(h.Now()) && IsResumeNote(h.Now(), n, m)
    ensures Continues(h, h.Extended(Wrote(PassMetaJson(n, m))))
  {
    hide Usable, IsNewMeta, IsCompletion, OpenRound, MetaReadable;
    StepContinues(h, Wrote(PassMetaJson(n, m)));
  }

  /** Outcomes are made durable again, and only then is the round marked complete. */
  method CloseRound(catalog: RunCatalog, n: nat) returns (r: Outcome<()>)
    requires catalog.Valid() && Consistent(catalog.disk)
    requires OpenRound(catalog.disk, n) && n !in catalog.disk.requests
    modifies catalog
    ensures r.Crashed? ==> catalog.power == 0
    ensures catalog.power <= old(catalog.power) <= catalog.power + 2 && (r.Fine? ==> catalog.power < old(catalog.power))
    ensures catalog.Valid()
    ensures Stretch(old(catalog.history), catalog.history, [], [], [])
    ensures catalog.disk == old(catalog.disk).(passMeta := catalog.disk.passMeta)
    ensures r.Fine? ==>
              && MetaReadable(old(catalog.disk).passMeta, Run(old(catalog.disk)).artifactPaths, n)
              && catalog.disk.passMeta
                 == old(catalog.disk).passMeta[n := Good(old(catalog.disk).passMeta[n].value.(completed := true))]
    ensures r.Refused? <==> n !in old(catalog.disk).outcomes
    ensures r.Refused? ==> catalog.disk == old(catalog.disk)
  {
    hide Usable, Complete, Blank, Stretch, IsLegal, CompletionInOrder, GatesInOrder;
    ghost var start, d := catalog.history, catalog.disk;
    StretchItself(start, []);
    var body := if n in catalog.disk.outcomes then catalog.disk.outcomes[n] else "";
    if Blank(body) {
      BlankMeansNone(d, n);
      return Refused(NoOutcomes);
    }
    assert n in d.outcomes by {
      NothingIsBlank();
    }
    var _ :- catalog.WriteDurably(OutcomesMd(n, body));
    RewriteIsLegal(start, n);
    StepStretch(start, Wrote(OutcomesMd(n, body)), []);
    assert catalog.disk == d;
    ghost var middle := catalog.history;
    var closed := catalog.MarkRoundCompleted(n);
    if closed.Fine? {
      CompletionIsLegal(middle, n);
      StepStretch(middle, Wrote(PassMetaJson(n, middle.Now().passMeta[n].value.(completed := true))), []);
      ThenQuiet(start, middle, catalog.history, [], [], []);
    }
    r := closed;
  }

  lemma NothingIsBlank()
    ensures Blank("")
  {
  }

  lemma BlankMeansNone(d: Disk, n: nat)
    requires Consistent(d) && Blank(if n in d.outcomes then d.outcomes[n] else "")
    ensures n !in d.outcomes
  {
    hide Blank;
  }

  lemma RewriteIsLegal(h: History, n: nat)
    requires h.Recorded() && HasRun(h.Now()) && OpenRound(h.Now(), n) && n in h.Now().outcomes
    ensures var w := OutcomesMd(n, h.Now().outcomes[n]);
            Continues(h, h.Extended(Wrote(w))) && h.Extended(Wrote(w)).Now() == h.Now()
  {
    hide Usable, OpenRound;
    assert h.Now().outcomes[n := h.Now().outcomes[n]] == h.Now().outcomes;
    StepContinues(h, Wrote(OutcomesMd(n, h.Now().outcomes[n])));
  }

  lemma CompletionIsLegal(h: History, n: nat)
    requires h.Recorded() && Consistent(h.Now()) && OpenRound(h.Now(), n)
    requires n in h.Now().outcomes && n !in h.Now().requests
    ensures MetaReadable(h.Now().passMeta, Run(h.Now()).artifactPaths, n)
    ensures Continues(h, h.Extended(Wrote(PassMetaJson(n, h.Now().passMeta[n].value.(completed := true)))))
  {
    hide Usable, Complete, Blank, CompletionInOrder, GatesInOrder, IsNewMeta, IsResumeNote;
    StepContinues(h, Wrote(PassMetaJson(n, h.Now().passMeta[n].value.(completed := true))));
  }

  // --- the pass in hand ------------------------------------------------------------------

  /** The round to work on: the interrupted one with its recorded pass, or a new one. */
  method ObtainPass(catalog: RunCatalog, env: RoundEnv, version: string) returns (r: Outcome<nat>)
    requires catalog.Valid() && HasRun(catalog.disk) && Run(catalog.disk).entryConfirmed
    modifies catalog
    ensures r.Crashed? ==> catalog.power == 0
    ensures catalog.power <= old(catalog.power) <= catalog.power + 2
    ensures !r.Crashed? ==>
              (r.Refused? <==> || !Consistent(old(catalog.disk)) || !CanJudge(old(catalog.disk))
                               || (AllClosed(old(catalog.disk)) && !PassCanLand(env, version)))
    ensures catalog.Valid()
    ensures Stretch(old(catalog.history), catalog.history, [], [], [])
    ensures OnlyPass(old(catalog.disk), catalog.disk)
    ensures r.Fine? ==>
              && r.value == ClosedRounds(old(catalog.disk)) + 1
              && OpenRound(catalog.disk, r.value)
    ensures r.Fine? && AllClosed(old(catalog.disk)) ==>
              && CanJudge(old(catalog.disk))
              && MetaReadable(catalog.disk.passMeta, Run(catalog.disk).artifactPaths, r.value)
              && PassLanded(old(catalog.disk), catalog.disk, r.value, env, version)
    ensures !AllClosed(old(catalog.disk)) ==> catalog.disk.passes == old(catalog.disk).passes
    ensures r.Fine? && !AllClosed(old(catalog.disk)) ==>
              PassTaken(old(catalog.disk), catalog.disk, r.value, version)
  {
    hide Usable, Complete, Digests, Blank, Stretch, IsLegal, CompletionInOrder, OutcomesInOrder;
    hide GatesInOrder, CanJudge;
    ghost var d := catalog.disk;
    StretchItself(catalog.history, []);
    var state :- catalog.Restore();
    PassesInOrderMeansRounds(d.passes, d.passMeta, Run(d).artifactPaths);
    RoundNumbers(state, d);
    var resume := state.ResumeRound();
    if resume.Some? {
      var n := resume.value;
      var _ :- ResumePass(catalog, n, version);
      return Fine(n);
    }
    r := NewPass(catalog, env, version);
  }
}
