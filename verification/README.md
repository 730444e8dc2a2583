# Review harness and graph memory: a verified model

A Dafny model of the protocols and algorithms that the repository rests on, with proofs of what
they keep. `dafny verify dfyconfig.toml` checks all of it.

**The crash-recoverable review run.** A run is a directory of small files, each replaced in one
atomic step. The model keeps the directory as the state of a class, gives the machine a finite
number of durable steps before it dies, and records everything that happens as a history of states
and events: durable writes, what the operator replied, what the critic was given. The rules of the
protocol say when each event is legal; the methods of the cycle are proved to obey them wherever
they are cut off, and the theorems about runs are proved over all legal histories. Development and
the operator are the environment. The outbox of exchange pairs is a second protocol of the same
kind, down to the characters of its lines.

**The append-only evidence channel.** Reading with annulment, the gate's conditions against
contradiction, the check of a canary and its reading, the launch journal under any interleaving of
launchers, and the blind pass of a round as the machine that produces the messages.

**Identity and sign-off.** Permanent numbers over whole histories, claims whose status is bound to
the content that was signed, and a report validator whose acceptance makes a partition that always
publishes.

**Algorithms.** Ordering staged changes and applying them to a containment forest, packing
paragraphs into chunks, and counting the returns of terms that come too late.

## How the files depend on each other

- `Wrappers`, `Outcomes`, `Sequences`, `Text`, `TextOrder`: result types, lists, and text as the
  code reads and sorts it.
- `Names`, `Snapshot`, `RunFiles`, `Lists`, `Recovery`: the run directory and what recovery accepts.
- `Protocol`, `Safety`: legal histories and what every one of them keeps.
- `Stretches`, `Sessions`: what is said and written in a stretch of a history, and what a round asks
  and leaves behind.
- `GateJournal`, `YesNo`, `Gates`, `RunCatalogs`, `EntryGates`, `Forks`, `RoundParts`, `Cycle`: the
  operations, proved against the protocol.
- `Outbox`, `OutboxLines`: the outbox and the spelling of its file.
- `Ledger`, `ClaimMap`, `BlindReport`: identity and sign-off.
- `Evidence`, `Channel`, `Integrity`, `PairCheck`, `Driver`, `Carry`, `Journal`, `LaunchOrder`: the
  evidence channel, and the launches behind its numbers.
- `Proposals`, `Paragraphing`, `Chunking`, `Mechanical`: the algorithms.

## Where the code and its own words part

- The error at `src/review_harness/cycle.py:475-486` tells the user to start the round again after
  an empty outcomes file, but recovery refuses such a file (`src/review_harness/runcat.py:598-611`):
  `Safety.BlankOutcomesBlockRecovery`. The rules therefore ask non-blank outcomes of development.
- An artefact path spelled like a reserved key of the snapshot is overwritten by it
  (`src/review_harness/cycle.py:277-283`): `Snapshot.SnapshotIsFaithfulExactly`.
- Repairing the gate journal settles only pairs of single lines, because the journal is compared
  line by line: `GateJournal.RepairSettlesExactly`.
- Outbox lines are written without escaping all line boundaries and read by splitting at all of
  them (section 7 of RFC 8259 allows U+2028 and the like to stand): `OutboxLines.ReadsBackExactly`.
- The driver judges a canary by the markers as declared, the gate by the markers as published,
  stripped: `PairCheck.RescanAgreesExactly` says for which markers the two agree, and for those
  every reading that a round credits passes the gate: `Driver.AudienceRound.LaunchBlind`.
- The triple that a signature is bound to is the hash of four parts joined by bars
  (`src/assistant_memory/audience/claim_map.py:158-163`). Neither a row nor its signature nor its
  publication asks for a canonical identifier, which only `validate_rows` does; an identifier that
  holds bars can carry a signature over to another quote: `ClaimMap.BarsCarrySignaturesOver`, and
  `ClaimMap.ToldApartExactly` for which identifiers. Canonical ones are safe.
- A blocked planning decision (`src/assistant_memory/audience/planner.py:162-163`) is not told apart
  from a fresh run by `src/assistant_memory/audience/driver.py:402-405`; and after an annulment that
  went to the operator no first attempt at the same version and fingerprint can be credited again:
  `Driver.CreditedFirstAttempt`.
- The integrity conditions bind phases that name one record; a newer phase that names another
  record replaces the findings the gate reads: `Integrity.AnotherReadingMayReplace`.
- A carry re-publishes its anchors each once, so a source that was posted by hand with an anchor
  twice contradicts its own carry (`Carry.CarryAgreesExactly`); the publisher lists each once.
- A reading is credited before the publisher checks its findings; findings that it does not take
  make a credited round raise: `Driver.AudienceRound.PublishFindings`.
- A negative chunk limit loses the whole text, and zero fails: `Chunking.ChunkText`.

## Model

| member | source | states |
|---|---|---|
| `Cycle.WholeLife` | src/review_harness/runcat.py:557-817 | From creation on, after any sessions each cut off anywhere and any edits of what is judged in between, recovery succeeds and reads exactly the passes that were written and the rounds that were marked complete; and at no moment does a question file lie beside a completed round |
| `Cycle.AnyRun` | src/review_harness/cycle.py:490-521 | Any number of sessions over one run directory, each cut off between any two durable writes, with any operator, any edits between sessions and any development that keeps its contract: every step obeys the protocol, and the directory left behind is one that recovery accepts |
| `Cycle.RunCycle` | src/review_harness/cycle.py:490-521 | Every round of a call after the first judged something else than the round before it, and the call returns exactly when artefacts, description and note equal the snapshot the last pass judged; at least one round is run, and over the call development writes exactly the acts of each round in turn; with enough power and replies a call whose development edits nothing ends after exactly one round; cut off it is only by the machine or the operator, and then the files can be taken over |
| `Cycle.OneRound` | src/review_harness/cycle.py:320-487 | One round from any accepted directory, in full: unless the machine dies or the operator leaves, it comes to its end exactly when the gate opens and the round can end, a condition on files, environment and replies; then development has written exactly the acts of its first session, and those of the second one exactly if the first asked, in order; the files it works on and the outcomes are as its last acts left them, every question of the round is answered by the reply it got, and the pass is the critic's text or the recorded one, marked complete; enough power and replies, counted, suffice; a round at a passed gate without questions asks nothing; and however it ends, the directory left behind is accepted |
| `Cycle.BeginRound` | src/review_harness/cycle.py:320-407 | The entry gate and the round to work on: fine exactly when the gate opens and there is a profile, everything judged is there and, for a new round, a pass of the critic can land; the pass in hand is the critic's text verbatim under its metadata, or the recorded one, carried on under the present profile |
| `Cycle.RoundAndCompare` | src/review_harness/cycle.py:506-517 | One turn of the automatic loop: the round, and whether what is judged now is what its pass judged; a new round in which development touches nothing that is judged compares equal |
| `EntryGates.EnsureEntryGate` | src/review_harness/cycle.py:166-199 | A passed gate asks nothing, takes no reply and is cut off only when the machine dies; any other gate takes exactly the replies of one conversation, journals exactly that conversation, each unrecognised exchange against the text that was shown, and opens exactly on a yes; a no leaves the flag unset |
| `Forks.ServeGateRequests` | src/review_harness/cycle.py:83-139 | Every question of the batch that has no durable answer is put once, in order, and its answer is the reply it got, durable before it is journalled with the same words; as many replies are taken as questions hang; the question file goes only when every question in it is answered, and development writes nothing meanwhile |
| `Forks.AnswerOne` | src/review_harness/cycle.py:125-137 | One fork: asked, its answer durable at once in the answers file, then journalled with the same words |
| `RoundParts.NewPass` | src/review_harness/cycle.py:379-406 | A new round is numbered after all closed ones; the critic's text lands verbatim after metadata that name profile, commit and the snapshot of the files he was given; it is refused exactly when the directory, the files to judge, the critic's text or the provenance are not there |
| `RoundParts.LandPass` | src/review_harness/cycle.py:393-406 | Metadata first, then the pass, each by a legal step; refused exactly for a blank text or incomplete metadata |
| `RoundParts.ResumePass` | src/review_harness/cycle.py:346-378 | An interrupted round is carried on exactly when its metadata reads and its files are there; its pass stays, and its metadata gains the delivered profile version exactly when that has changed, and nothing else |
| `RoundParts.CloseRound` | src/review_harness/cycle.py:456-487 | The completion mark follows outcomes that are durable and not blank, and is refused exactly when there are none |
| `RoundParts.JudgedSnapshot` | src/review_harness/cycle.py:228-284 | The snapshot exists exactly when every artefact is there, and holds the digest of each, of the description and of the note |
| `Cycle.Analyse` | src/review_harness/cycle.py:409-438 | Whatever development writes comes after the left-over questions have gone; a fine end means that development wrote exactly the acts of its sessions, the second one following exactly a first that asked, and that all questions stand answered; the analysis is refused exactly for damaged questions, a session that failed, or questions filed where answers stand already |
| `Recovery.Restore` | src/review_harness/runcat.py:557-817 | A directory is accepted exactly when it is consistent, and the state read out of it is the one its files describe |
| `Recovery.CheckRounds` | src/review_harness/runcat.py:598-702 | Passes and outcomes without holes, outcomes only with passes and not blank, complete metadata, completed rounds a prefix with at most one open round: accepted exactly then |
| `Recovery.CheckGates` | src/review_harness/runcat.py:706-811 | Question and answer files parse, belong to rounds with passes and do not hang on a completed round; the pending rounds are exactly those with unanswered questions |
| `Recovery.SortChildren` | src/review_harness/runcat.py:567-592 | A directory listing in any order is sorted into the four families without loss, repetition or confusion |
| `Recovery.ReadRoundMeta` | src/review_harness/runcat.py:399-438 | Round metadata is readable exactly when it is there, parses and is complete for the run's artefacts |
| `Recovery.FindPending` | src/review_harness/runcat.py:706-752 | The rounds with questions whose answers are missing or incomplete, or a refusal exactly when a file of a pair is damaged |
| `RunFiles.RoundNumbers` | src/review_harness/runcat.py:158-181 | From an accepted directory the resume round is the open round if there is one, and the current round follows the closed ones |
| `Safety.AlwaysRecoverable` | src/review_harness/runcat.py:557-817 | Over every history of legal steps, crashes anywhere, recovery never refuses |
| `Safety.StepKeepsConsistent` | src/review_harness/cycle.py:320-487 | Each single durable write leads from an accepted directory to an accepted one |
| `Safety.SessionsStayRecoverable` | src/review_harness/cycle.py:320-346 | What a session leaves behind after any crash can be restored by the next one, its question batches still distinct |
| `Safety.DirectoryTellsHistory` | src/review_harness/runcat.py:557-817 | What recovery reads is what happened: as many passes as were written, as many closed rounds as were marked complete |
| `Safety.PassesArePermanent` | src/review_harness/runcat.py:305-348 | A pass once on disk never changes and never disappears |
| `Safety.PassesAreWrittenInOrder` | src/review_harness/cycle.py:379-407 | A pass is written only for round N+1, when rounds 1..N are all completed and its metadata is complete on disk |
| `Safety.CriticIsNeverReplayed` | src/review_harness/cycle.py:346-356 | The critic never runs for a round whose pass is on disk |
| `Safety.RoundsAreWhole` | src/review_harness/runcat.py:305-348 | At every point of every history each pass has complete metadata, and each completed round has outcomes that are not blank and no question file, answered or not |
| `Safety.ClosedStayQuiet` | src/review_harness/cycle.py:421-474 | No legal step puts a question file beside a completed round |
| `Safety.SnapshotsArePermanent` | src/review_harness/runcat.py:440-455 | The snapshot a pass judged stays in its metadata for good |
| `Safety.PathsArePermanent` | src/review_harness/runcat.py:279-303 | Confirming the entry gate does not change what the run is about |
| `Safety.SameSnapshotSameSubject` | src/review_harness/cycle.py:490-521 | Equal snapshots, the recorded and the present one, mean that description, note and every artefact of the run are unchanged, byte for byte, and conversely |
| `Safety.PendingIsTheOpenRound` | src/review_harness/runcat.py:752-780 | Questions hang on the open round and on no other |
| `Safety.AnswersOnlyGrow` | src/review_harness/cycle.py:124-139 | Durable answers are never changed or dropped |
| `Safety.NeverAskedAgain` | src/review_harness/cycle.py:112-139 | A question with a durable answer is never put to the operator again, over any restarts |
| `Safety.AnswersAreTheOperators` | src/review_harness/cycle.py:125-137 | Every durable answer is what the operator replied to that very question |
| `Safety.QuestionsGoWhenAnswered` | src/review_harness/cycle.py:138-139 | A question file disappears only when every question in it has its durable answer |
| `Safety.JournalIsDerived` | src/review_harness/gates.py:41-84 | Every record of the gate journal was said: an entry exchange put to the operator, or a fork with its answer in the answers file |
| `Safety.ForkRecordsAreAnswered` | src/review_harness/cycle.py:129-137 | A journal record of words that were spoken neither at the entry gate nor in a confirmation is that of a fork, with its answer in the answers file |
| `Safety.ConfirmedByTheOperator` | src/review_harness/runcat.py:279-303 | The confirmed flag never exists without its question and an answer that reads yes, given at the gate |
| `Safety.CriticWaitsForTheOperator` | src/review_harness/cycle.py:334-391 | Over all crashes the critic never runs before a recorded yes |
| `Safety.BlankOutcomesBlockRecovery` | src/review_harness/runcat.py:598-611 | Development's outcomes keep the directory acceptable exactly when they are not blank: the exact side condition the error at the end of a round does not mention |
| `RunCatalogs.RunCatalog.Create` | src/review_harness/runcat.py:193-255 | A run is created only in an empty directory, one durable file after the other, and is accepted by recovery once it is whole |
| `RunCatalogs.RunCatalog.WritePass` | src/review_harness/runcat.py:305-348 | Metadata first, pass second; a second pass for a round is refused; a crash between the two leaves no pass without metadata |
| `RunCatalogs.RunCatalog.MarkEntryConfirmed` | src/review_harness/runcat.py:279-303 | Flag, question and answer land in one write |
| `RunCatalogs.RunCatalog.EntryJournalRepair` | src/review_harness/runcat.py:256-277 | A journal that lost the confirmed pair gets it back, and one that has it is left alone |
| `RunCatalogs.RunCatalog.MarkRoundCompleted` | src/review_harness/runcat.py:440-455 | Only the completion mark of the round's metadata changes |
| `RunCatalogs.RunCatalog.WriteDurably` | src/review_harness/runcat.py:108-143 | A file is replaced whole or not at all |
| `GateJournal.RepairSettlesExactly` | src/review_harness/runcat.py:256-277 | After the repair the journal text shows the pair, so that repairing again does nothing, exactly when question and answer are single lines |
| `Gates.Gate.AskYesNoVerbatim` | src/review_harness/gates.py:62-84 | The re-ask loop returns the first understood reply against the text shown for it, has journalled every exchange before it and not that one, and has taken exactly the replies of the conversation; it is cut off only when the machine dies or the replies run out unsettled |
| `Gates.Gate.AskYesNo` | src/review_harness/gates.py:86-97 | The recorded variant journals the whole conversation, the settling exchange included, and takes exactly its replies |
| `Gates.Gate.ConfirmUnconditional` | src/review_harness/gates.py:99-131 | An irreversible action is confirmed by a plain yes and by nothing else |
| `Gates.OnlyTheLastReplyDecides` | src/review_harness/gates.py:62-84 | In every conversation only the last reply can be understood, each earlier one was not, and each text shown answers the reply before it |
| `YesNo.ReadYesNo` | src/review_harness/gates.py:143-195 | A reply reads yes exactly when it asks nothing and is plain agreement, and no exactly when it asks nothing and some word outside the idioms of consent negates |
| `YesNo.Collapse` | src/review_harness/gates.py:162-171 | The index walk over the words turns exactly the idioms of consent into consent |
| `YesNo.YesIsPlainAgreement` | src/review_harness/gates.py:143-195 | A reply reads yes exactly when it asks nothing, consents, and consists of consent, its idioms and empty words only |
| `YesNo.NegationDominates` | src/review_harness/gates.py:172-182 | One negation outside an idiom of consent makes the verdict no, whatever stands around it |
| `YesNo.UnderstoodIsNotBlank` | src/review_harness/gates.py:143-157 | A blank reply is never understood |
| `Names.ParseOfName` | src/review_harness/runcat.py:583-592 | A round file's name is read back as its family and its number, and as no other |
| `Names.NameIsInjective` | src/review_harness/runcat.py:583-592 | Different families or rounds have different file names |
| `Names.FamiliesAreDisjoint` | src/review_harness/runcat.py:583-592 | No file name belongs to two families, so the order of the patterns does not matter |
| `Lists.SortsToRange` | src/review_harness/runcat.py:624-638 | The test of sorted rounds against 1..n holds for a list without repetitions exactly when it holds these numbers |
| `Snapshot.EncodeIsInjective` | src/review_harness/cycle.py:246-270 | The length-prefixed encoding of a file list is uniquely decodable |
| `Snapshot.HashFiles` | src/review_harness/cycle.py:246-270 | Four updates a file, in order, digest exactly that encoding |
| `Snapshot.EqualDigestsMeanEqualFiles` | src/review_harness/cycle.py:228-284 | Equal snapshots of one run mean that everything judged is equal, byte for byte |
| `Snapshot.SnapshotIsFaithfulExactly` | src/review_harness/cycle.py:228-284 | Snapshots tell all contents apart exactly when no artefact path is spelled like one of the two reserved keys |
| `Outbox.PairBuffer.Append` | src/review_harness/profile_sync.py:143-174 | A whole pair is recorded before any attempt at the graph; a pair is refused as a half exactly when a phrasing or signal is blank or an unfolding and its reaction are not both there; a crash or a disk error records nothing |
| `Outbox.PairBuffer.Pending` | src/review_harness/profile_sync.py:176-202 | The outbox reads as its pairs exactly when every line is blank or a whole pair |
| `Outbox.PairBuffer.SendHead` | src/review_harness/profile_sync.py:217-232 | A pair leaves the outbox durably right after its own success; a mishap is counted exactly when the pair arrived and stayed in the box |
| `Outbox.PairBuffer.Flush` | src/review_harness/profile_sync.py:204-232 | Sends in order and stops at the first failure: what left the box is the front of it, what arrived is that and at most one pair more, counted as a mishap exactly then; and a readable box is emptied when graph, disk and machine hold out |
| `Outbox.NothingLostNothingInvented` | src/review_harness/profile_sync.py:204-271 | After any appends, flushes, failures and crashes the deliveries with adjacent repeats collapsed, followed by the outbox less at most one shared pair, are exactly what was appended; repeats are no more than the mishaps between an arrival and its rewrite |
| `Outbox.FirstsAreAPrefix` | src/review_harness/profile_sync.py:204-232 | First deliveries are a prefix of what was appended: no pair overtakes or is skipped |
| `OutboxLines.ReadsBackExactly` | src/review_harness/profile_sync.py:165-202 | The file gives the pairs back exactly when no text holds U+0085, U+2028 or U+2029; with one such text every later reading is refused |
| `OutboxLines.QuotedRoundTrip` | src/review_harness/profile_sync.py:165 | Any string survives quoting and reading |
| `OutboxLines.LineRoundTrip` | src/review_harness/profile_sync.py:165-189 | Any pair survives its line |
| `OutboxLines.CutLineIsDamaged` | src/review_harness/profile_sync.py:183-202 | A line cut off anywhere does not read as a pair |
| `Channel.ReadPhases` | src/assistant_memory/audience/channel.py:702-762 | The channel reads exactly when no retraction is unfounded and every broken message was taken back, otherwise reasons are given; read, each notice that holds is one phase with its number, author, version and content, each phase is one of them, in the order of the channel, and the numbers ascend |
| `Channel.CollectRetractions` | src/assistant_memory/audience/channel.py:723-740 | The first pass finds exactly the founded retractions |
| `Channel.PhaseRetractionMessage` | src/assistant_memory/audience/channel.py:765-782 | The builder posts a retraction or refuses it with its problems |
| `Channel.BuilderAgreesWithReplay` | src/assistant_memory/audience/channel.py:662-782 | The builder accepts a retraction exactly when the replay accepts it after it is posted |
| `Channel.ReadingsGrow` | src/assistant_memory/audience/channel.py:702-762 | Later readings begin with everything any earlier reading showed: no valid phase is ever erased |
| `Channel.FoundedForGood` | src/assistant_memory/audience/channel.py:662-699 | Whether a retraction is founded is settled when it is posted |
| `Channel.UnfoundedRefusesForGood` | src/assistant_memory/audience/channel.py:715-719 | One unfounded retraction refuses the channel for good |
| `Channel.BrokenChannelsMend` | src/assistant_memory/audience/channel.py:702-782 | Without unfounded retractions, takings-back posted in any order are all accepted, and the channel becomes readable exactly when they cover the broken messages |
| `Integrity.IntegrityRefusals` | src/assistant_memory/audience/gate.py:269-359 | No refusal exactly when records, findings, declarations and claim rows of the channel do not contradict each other |
| `Integrity.Contradictions` | src/assistant_memory/audience/gate.py:283-338 | Holding every statement against the first one about its subject finds a contradiction exactly when any two disagree |
| `Integrity.VanishedRows` | src/assistant_memory/audience/gate.py:340-357 | No loss is found exactly when each row of a version and round stays in every later map of it |
| `Integrity.ContradictionsAreForGood` | src/assistant_memory/audience/gate.py:269-283 | No further publication mends a channel that contradicts itself |
| `Integrity.EvidenceCannotBeBuried` | src/assistant_memory/audience/gate.py:618-643 | The same on the wire, retractions included: once contradicting evidence was readable, every extension of the channel is still refused |
| `Integrity.NewestSpeaksForItsRecord` | src/assistant_memory/audience/gate.py:76-81 | The newest findings phase of a record says what every earlier one said |
| `Integrity.NewestMapHoldsAllRows` | src/assistant_memory/audience/gate.py:76-81 | The newest claim map of a version and round holds every row ever published for it |
| `Integrity.OnlyAnotherRecordReplaces` | src/assistant_memory/audience/gate.py:76-81 | Findings of a version can differ from the newest ones only under another record |
| `Integrity.AnotherReadingMayReplace` | src/assistant_memory/audience/gate.py:269-317 | and under another record they may: the limit of these conditions, by example |
| `PairCheck.RescanAgreesExactly` | src/assistant_memory/audience/gate.py:256-265 | A verdict judged by the declared markers survives the gate's scan by the published ones, for every answer, exactly when each published marker is itself hit by a declared one |
| `PairCheck.RescanFollows` | src/assistant_memory/audience/gate.py:256-265 | A verdict on the published answer that was honest under the declared markers holds under the published ones, if each of those is hit by a declared one |
| `PairCheck.StrippedMarkersAgree` | src/assistant_memory/audience/channel.py:294-315 | Markers without surrounding space are the ordinary case in which both scans agree |
| `PairCheck.PublishedAreDeclared` | src/assistant_memory/audience/channel.py:300-313 | Published markers are the declared ones, stripped, the empty ones left out |
| `PairCheck.NoneArePublished` | src/assistant_memory/audience/channel.py:300-307 | No marker is published exactly when every declared one is blank |
| `LaunchOrder.ReadingsHaveTheirOwnCanaries` | src/assistant_memory/audience/gate.py:165-189 | Over every interleaving of launchers: two readings that adjoin their canaries in numbers from the journal lean on two different ones, without the rule that a canary serves one reading |
| `LaunchOrder.NeighboursExactly` | src/assistant_memory/audience/journal.py:150-163 | Two records carry neighbouring launch numbers exactly when the one launch came before the other and no launch of anybody lay between |
| `LaunchOrder.NothingRanBetween` | src/assistant_memory/audience/gate.py:165-176 | Between a canary and the reading that leans on it nothing was launched, and the canary's launch was over when the reading began |
| `LaunchOrder.JournalledScriptsAreFresh` | src/assistant_memory/audience/launcher.py:91-138 | Runs that are later launches of the journal carry numbers that no published record has and no two of them share |
| `TextOrder.SortedSetIsSorted` | src/assistant_memory/audience/channel.py:308-313 | A published list is sorted and holds each text once |
| `Journal.OneLaunchAtATime` | src/assistant_memory/audience/journal.py:141-176 | Under every interleaving of launchers, deaths included, at most one is inside a launch |
| `Journal.NumbersAreOneToN` | src/assistant_memory/audience/journal.py:117-163 | The journal numbers are exactly 1, 2, 3 and so on in order |
| `Journal.NeighboursHaveNothingBetween` | src/assistant_memory/audience/journal.py:150-163 | Two launches have neighbouring numbers exactly when none began between them, and the first is over before the second begins |
| `Journal.JournalOnlyGrows` | src/assistant_memory/audience/journal.py:128-140 | A launch consumes its number for good, a crashed one included |
| `Journal.StolenLockRepeatsANumber` | src/assistant_memory/audience/journal.py:128-149 | Clearing the lock of a live launcher that has counted gives one number out twice: why the lock is never stolen |
| `Journal.LaunchJournal.Launch` | src/assistant_memory/audience/journal.py:124-176 | A launch with nobody about takes the next number and leaves the lock free; with the lock held it changes nothing |
| `Journal.LaunchJournal.Take` | src/assistant_memory/audience/journal.py:141-149 | Exclusive creation succeeds exactly when there is no lock |
| `Driver.AudienceRound.LaunchBlind` | src/assistant_memory/audience/driver.py:502-683 | For every outcome of the model calls: markers first, one or two blocks of answer, canary record and reading record, then findings only for a credited reading that the publisher takes; no reading after a dirty canary; a second attempt only after a transient annulment, which it names; at most four launches; the operator is asked exactly after a refused answer that is not repeated; credited exactly on the pair's conditions; beside an annulled reading of an earlier round only a second attempt is credited; launch numbers on the channel stay apart; and if every published marker is hit by a declared one, the credited reading passes the gate's pair check |
| `Driver.AudienceRound.Conclude` | src/assistant_memory/audience/driver.py:622-671 | A reading is credited exactly on the pair's own conditions; its findings are published exactly when the publisher takes them, else the round raises; and the credited pair passes the gate's check exactly when the published markers clear the published answer, as they do if each is hit by a declared one |
| `Driver.AudienceRound.RunCanary` | src/assistant_memory/audience/driver.py:711-744 | The answer is on the channel before the record that hashes it, and the verdict is about that answer |
| `Driver.AudienceRound.OneAttempt` | src/assistant_memory/audience/driver.py:520-601 | One canary and, when it is clean, one reading that leans on it |
| `Driver.AudienceRound.Run` | src/assistant_memory/audience/driver.py:746-769 | A launch carries exactly the version, canary, fingerprint and annulment it was made for, none for a canary, and a launch number that is new on the channel |
| `Driver.CreditedPairHolds` | src/assistant_memory/audience/gate.py:84-266 | What development credited from its own records the gate finds in order on the channel, the second scan of the answer aside |
| `Driver.CreditedFirstAttempt` | src/assistant_memory/audience/records.py:381-444 | A first attempt is not credited beside an annulled twin |
| `Carry.CarryForward` | src/assistant_memory/audience/driver.py:422-500 | A carry copies the findings of its record's newest phase and marks where they come from; it is refused exactly when the record was not handed over, the channel does not read, there is no source, the sources differ, or the publisher does not take it |
| `Carry.CarryAgreesExactly` | src/assistant_memory/audience/gate.py:287-317 | On a channel without contradictions a carry brings none exactly when the fingerprint has not moved and the source listed its anchors, each once |
| `Ledger.OneSpelling` | src/assistant_memory/audience/ledger.py:38-75 | An identifier is accepted exactly in its one spelling |
| `Ledger.IdLedger.Register` | src/assistant_memory/audience/ledger.py:181-212 | A version is registered as a whole or refused with nothing changed; number by number, what the version names lives on, what lived and is not named retires in it, and what was retired stays |
| `Ledger.IdLedger.Refusals` | src/assistant_memory/audience/ledger.py:167-179 | Refused exactly when the version does not grow or names a retired number |
| `Ledger.IdLedger.Load` | src/assistant_memory/audience/ledger.py:100-144 | A file loads exactly when its prefix is the asked one and every key is canonical |
| `Ledger.IdLedger.NextFree` | src/assistant_memory/audience/ledger.py:164-165 | The next identifier follows the largest number ever handed out |
| `Ledger.NumbersAreForever` | src/assistant_memory/audience/ledger.py:181-212 | Over any history of registrations, refused ones included, with the table written out and read back anywhere between, an issued number keeps its introducing version, a retired entry never changes, and versions only grow |
| `Ledger.RetiredStaysRetired` | src/assistant_memory/audience/ledger.py:87-94 | Over such a history a retired number is never live again, and a version that names one is refused |
| `Ledger.LiveAreTheLastVersions` | src/assistant_memory/audience/ledger.py:198-212 | Over such a history the live numbers and what they are for are exactly those of the last accepted version |
| `Ledger.NextWasNeverIssued` | src/assistant_memory/audience/ledger.py:164-165 | The next free number was issued at no point of such a history |
| `Ledger.ReadsBackExactly` | src/assistant_memory/audience/ledger.py:100-162 | Load after save is the identity, exactly on tables whose numbers are positive |
| `Ledger.ReopensAtAnyTime` | src/assistant_memory/audience/ledger.py:100-162 | A ledger that is handed positive numbers can be saved and loaded at any point of its history: the file loads, and it is the table |
| `ClaimMap.TerminalMeansSigned` | src/assistant_memory/audience/claim_map.py:158-193 | Over any edits and copies a terminal status counts only if the party entitled to it signed this very quote, form and step, as long as no identifier goes on after another one as the texts of their triples could |
| `ClaimMap.RoundedMeansSigned` | src/assistant_memory/audience/claim_map.py:195-202 | A rounded form counts only if the informed pass signed it for this claim, under the same condition |
| `ClaimMap.EditsVoidSignatures` | src/assistant_memory/audience/claim_map.py:158-202 | Editing any part of the claim under its identifier voids the status and narrows the form to exact; so does an edit of the identifier to one that is kept apart from it |
| `ClaimMap.SigningSettles` | src/assistant_memory/audience/claim_map.py:244-252 | A signature of what stands there settles the row exactly when the signer may and the rest is filled in |
| `ClaimMap.TriplesAreClaims` | src/assistant_memory/audience/claim_map.py:158-163 | Under identifiers without a bar two rows hash one text exactly when they make the same claim in the same form, quotes up to white space |
| `ClaimMap.ToldApartExactly` | src/assistant_memory/audience/claim_map.py:158-163 | Two identifiers keep all their claims apart exactly when neither is the other followed by a bar, the hash of a quote, a bar, a form, and either the end or a bar |
| `ClaimMap.NumberedRowsAreKeptApart` | src/assistant_memory/audience/claim_map.py:149-152 | Rows that carry canonical numbers are kept apart, and so is a row from its own edits |
| `ClaimMap.NumberedHistoriesAreSeparate` | src/assistant_memory/audience/claim_map.py:149-163 | Where every signed row carries a canonical number no signature strays to another row |
| `ClaimMap.BarsCarrySignaturesOver` | src/assistant_memory/audience/claim_map.py:158-193 | A row whose identifier holds bars counts as confirmed by a signature that was given for another quote |
| `ClaimMap.RealStepsAreBound` | src/assistant_memory/audience/claim_map.py:158-163 | A step other than the empty one and the literal dash is fixed by the triple, between rows that are kept apart |
| `ClaimMap.BlocksExactlyUntilTerminal` | src/assistant_memory/audience/claim_map.py:207-241 | The blocking reason is empty exactly for terminal rows, and the reason given is the true one |
| `ClaimMap.GatePassesExactly` | src/assistant_memory/audience/gate.py:362-414 | A published row passes the gate's recheck exactly when it is not terminal, or was signed with a basis and its form counts as recorded |
| `ClaimMap.AdmissibleRowsArePublishable` | src/assistant_memory/audience/claim_map.py:270-331 | An admissible row is readable once published, and a terminal one with a basis passes the gate exactly when its counting form is the recorded one |
| `ClaimMap.ValidateRows` | src/assistant_memory/audience/claim_map.py:270-331 | No problem exactly when identifiers are canonical and distinct and every row is admissible for the version |
| `ClaimMap.CheckPayload` | src/assistant_memory/audience/claim_map.py:409-453 | A message is read as a claim map exactly when it has the fields of one and every row has known fields only, says what it is about, and proves its reading if confirmed |
| `ClaimMap.ToPayload` | src/assistant_memory/audience/claim_map.py:367-406 | Every row is published in order with the status and form that count and with both signatures, under its round and version; each published field is the row's own or that of its signature |
| `ClaimMap.BlockingRows` | src/assistant_memory/audience/claim_map.py:334-336 | Nothing blocks exactly when every row is terminal |
| `BlindReport.ReportRefusals` | src/assistant_memory/audience/blind_report.py:118-327 | No refusal exactly for valid reports of the derivation |
| `BlindReport.FindingRefusals` | src/assistant_memory/audience/blind_report.py:166-224 | Findings are taken exactly when each names a section, a category, text and a resolving anchor, and no two are one |
| `BlindReport.TableRefusals` | src/assistant_memory/audience/blind_report.py:226-306 | The table is taken exactly when it names every section once and every finding once, in its own section |
| `BlindReport.AcceptedReportsArePartitions` | src/assistant_memory/audience/blind_report.py:226-306 | Acceptance makes the table a partition: rows and sections one to one, every finding in exactly one row, that of its section, and row sizes summing to the findings |
| `BlindReport.AcceptedReportsPublishExactly` | src/assistant_memory/audience/blind_report.py:330-354 | For sections of the artefact and categories of the table, the findings of an accepted report have distinct identities, and the publisher takes them exactly when the run is named and fingerprinted, anchors are declared, and there are no findings or the contract has a version other than zero and a fingerprint |
| `BlindReport.IdentitiesDiffer` | src/assistant_memory/audience/blind_report.py:65-75 | Findings with one identity are one finding, as long as names hold no separator, |
| `BlindReport.SourcesAreSeparable` | src/assistant_memory/audience/categories.py:40-90 | which no section number of an artefact and no category of the table does |
| `BlindReport.PublishRefusals` | src/assistant_memory/audience/channel.py:383-456 | The publisher sends exactly well-formed items with distinct identities whose anchors resolve into a declared list, for a named run |
| `Proposals.OrderProposals` | src/assistant_memory/proposals.py:118-156 | A batch is ordered exactly when nobody names a sibling outside it and there is no loop; the order holds each proposal once, parents first, generation by generation, and within a generation as the batch has them |
| `Proposals.EmitAll` | src/assistant_memory/proposals.py:146-156 | The loop gives up exactly on a loop; the result goes generation by generation in the order of the batch |
| `Proposals.StuckMeansLoop` | src/assistant_memory/proposals.py:149-151 | Changes that all wait for one another contain a parent chain that returns to its start |
| `Proposals.OrderedMeansNoLoops` | src/assistant_memory/proposals.py:118-135 | An order with parents first leaves no room for a loop |
| `Proposals.OrderedBatchesApply` | src/assistant_memory/proposals.py:159-193 | An ordered batch applies as a whole: containment stays a one-parent acyclic forest, every node hangs where it says, no older node is touched, and applying it again changes nothing |
| `Proposals.OrderingsAreApplicable` | src/assistant_memory/proposals.py:118-193 | What the ordering returns meets what applying needs |
| `Proposals.CreationKeepsForest` | src/assistant_memory/proposals.py:63-115 | Creating a node in a home that stands keeps the forest and hangs it there |
| `Proposals.CreationKeepsForestExactly` | src/assistant_memory/proposals.py:63-115 | By itself the create branch succeeds exactly when the home stands or the change is its own home, and it leaves a forest exactly when the change is not its own home |
| `Proposals.Session.ApplyCreate` | src/assistant_memory/proposals.py:174-193 | Node, mark and edge, or a refusal; a change applied before is left alone |
| `Proposals.Session.ApplyBatch` | src/assistant_memory/proposals.py:92-98 | Changes approved in one unit apply whole or leave the graph as it was |
| `Chunking.ChunkText` | src/assistant_memory/ingest.py:28-48 | For every limit: with room for a character the chunks are a packing of all paragraphs with the greedy count; zero fails and a negative limit loses everything; a new chunk is begun only for a paragraph that has no room in the one before |
| `Chunking.GreedyIsOptimal` | src/assistant_memory/ingest.py:37-48 | No packing that keeps the order, keeps short paragraphs whole and splits long ones by themselves uses fewer chunks |
| `Chunking.ChunksFit` | src/assistant_memory/ingest.py:37-48 | Every chunk holds something and none is longer than allowed |
| `Chunking.ChunksHoldTheText` | src/assistant_memory/ingest.py:34-48 | The chunks hold exactly the characters of the text, white space aside, in order |
| `Chunking.SplitLong` | src/assistant_memory/ingest.py:41-43 | A paragraph over the limit is cut into full pieces of the limit and one rest, which together are the paragraph, and no admissible cut has fewer |
| `Mechanical.StaleReturnsAreBounded` | src/assistant_memory/audience/mechanical.py:353-394 | A term's stale returns are at most its span over the distance limit plus one, plus the number of other terms over the limit on intruders |
| `Mechanical.TraceTerms` | src/assistant_memory/audience/mechanical.py:353-394 | Every term of the hits has the trace in which each hit is held against the previous one of its own term |
| `Mechanical.GapsSpanTheTrace` | src/assistant_memory/audience/mechanical.py:365-380 | The gaps of a term sum to last minus first position |
| `Mechanical.IntrusionsAreOtherTerms` | src/assistant_memory/audience/mechanical.py:368-377 | Intruding introductions over all returns of a term are no more than the other terms introduced by then |
| `Mechanical.Document` | src/assistant_memory/audience/mechanical.py:484-492 | Every hit is in exactly one trace, the estimate is at least the volume floor and exceeds it by exactly the priced stale returns |
| `RoundParts.ObtainPass` | src/review_harness/cycle.py:346-406 | The round to work on is the one after the closed rounds; an interrupted one keeps its pass and notes a profile that has changed, a new one gets the critic's text; refused exactly when files, text or provenance are missing |
| `EntryGates.ConfirmEntry` | src/review_harness/cycle.py:195-199 | State first in one write, then the journal, which gains exactly the confirmed pair |
| `EntryGates.RepairEntryJournal` | src/review_harness/cycle.py:168-173 | At a passed gate nothing but the journal can change: nothing at all when the pair is there, and otherwise exactly the pair of the run file is added; nobody is asked |
| `RoundParts.RunDevelopment` | src/review_harness/cycle.py:142-163 | Development writes exactly the acts of its session, in order, or a first part of them if the machine dies, and the directory is as they left it; it fails exactly when its session does |
| `Cycle.AnalyseAfter` | src/review_harness/cycle.py:419-438 | Once no question hangs, the first session runs, and exactly if it asked, its last batch is served and the second one runs; a fine end means that their acts are written, in order, and nothing else of development's |
| `Forks.FinishBatch` | src/review_harness/cycle.py:139 | The question file goes by itself, once its questions are answered |
| `Cycle.EditBefore` | src/review_harness/cycle.py:187-191 | What the operator changes between sessions are legal steps of the run |
| `RoundParts.HashArtifacts` | src/review_harness/cycle.py:240-274 | The hashes exist exactly when every artefact is there, one for each |
| `RunCatalogs.RunCatalog.AppendGateRecord` | src/review_harness/runcat.py:487-504 | The journal gains one record at its end and nothing else changes |
| `RunCatalogs.RunCatalog.RemoveQuestions` | src/review_harness/cycle.py:63-72 | Only the question file of the round goes |
| `Recovery.LoadMeta` | src/review_harness/runcat.py:512-555 | Run metadata loads exactly when it is there, parses, and a confirmed flag carries both halves of its evidence |
| `Recovery.IterDir` | src/review_harness/runcat.py:570-576 | Every file of the run is listed once, in no particular order, among foreign ones |
| `Recovery.AllFull` | src/review_harness/runcat.py:598-611 | No outcomes file is blank |
| `Recovery.PassesAreWhole` | src/review_harness/runcat.py:639-655 | Every pass has readable metadata and text |
| `Recovery.CompletedHaveOutcomes` | src/review_harness/runcat.py:656-671 | Every completed round has its outcomes |
| `Recovery.SelectCompleted` | src/review_harness/runcat.py:673 | The completed rounds, each once |
| `Recovery.CompletedPrefix` | src/review_harness/runcat.py:678-700 | The two tests on completed rounds accept exactly when only the newest round can be open |
| `Recovery.LoneAnswersParse` | src/review_harness/runcat.py:786-811 | Answers that outlived their questions parse by themselves |
| `Gates.Gate.Ask` | src/review_harness/gates.py:41-60 | The operator's next reply is returned as it stands, and only the conversation moves on |
| `Gates.Gate.AskRecorded` | src/review_harness/gates.py:41-60 | The recording variant journals question and reply at once |
| `Gates.RecordsGrow` | src/review_harness/gates.py:62-84 | The journal of a conversation grows by one record an exchange, clarifications marked as such |
| `GateJournal.EntryIsFound` | src/review_harness/runcat.py:262-277 | Whatever else stands in the journal, a single-line pair that was appended is found in its text |
| `Outbox.PairBuffer.Rewrite` | src/review_harness/profile_sync.py:234-271 | The box is replaced whole by the remaining pairs, or stays as it was |
| `Outbox.ArrivalConserves` | src/review_harness/profile_sync.py:217-232 | An arrival makes one repetition due until the pair is crossed out |
| `Outbox.CrossingOutConserves` | src/review_harness/profile_sync.py:231-232 | Crossing the pair out settles the repetition that was due |
| `OutboxLines.CutAtTheFirstBreak` | src/review_harness/profile_sync.py:183 | A line that contains a line boundary is cut at the first one |
| `Channel.AnnulledStays` | src/assistant_memory/audience/channel.py:702-740 | What was taken back once stays taken back |
| `Channel.TakeBackOne` | src/assistant_memory/audience/channel.py:765-782 | One accepted retraction annuls exactly its target |
| `Driver.Wire.Post` | src/assistant_memory/audience/channel.py:889-900 | A message gets a number larger than all before it, and nothing that was on the channel moves |
| `Driver.AudienceRound.PostRecord` | src/assistant_memory/audience/channel.py:336-349 | A complete record is published under its own identifier, an incomplete one is refused |
| `Driver.AudienceRound.Measure` | src/assistant_memory/audience/driver.py:520-526 | A canary's record on the channel is bound to the answer that is there before it |
| `Driver.AudienceRound.ReadAfter` | src/assistant_memory/audience/driver.py:537-597 | A reading is made only behind a clean canary, judged before its record is published, and annulled exactly when its answer is refused |
| `Driver.AudienceRound.TakeTurn` | src/assistant_memory/audience/driver.py:520-674 | The loop goes round once more only for a transient annulment on the first attempt |
| `Driver.AudienceRound.PublishFindings` | src/assistant_memory/audience/driver.py:633-671 | What has to be added to the measurement is posted first; the findings of the validated report follow under the reading, its fingerprint and its round exactly when the publisher takes them, with the anchors sorted and each once |
| `Driver.RetryHoldsOnWire` | src/assistant_memory/audience/gate.py:191-194 | The retry rule holds over what is published if it held over what the driver knew |
| `Integrity.RowsStayWithOneMore` | src/assistant_memory/audience/gate.py:340-357 | One more map loses no row exactly when it names every row seen before in a map of its version and round |
| `Journal.NumbersCountLaunches` | src/assistant_memory/audience/journal.py:117-163 | The numbers given out between two points are as many as the launches that began |
| `Journal.LaunchJournal.Count` | src/assistant_memory/audience/journal.py:145-153 | The number is read under the lock |
| `Journal.LaunchJournal.Append` | src/assistant_memory/audience/journal.py:159-163 | The entry is written when the run starts, under the number that was read |
| `Journal.LaunchJournal.Leave` | src/assistant_memory/audience/journal.py:164-176 | Leaving frees the lock whatever happened inside |
| `Ledger.IdLedger.Save` | src/assistant_memory/audience/ledger.py:146-162 | The file holds every number under its one spelling and nothing else; loading it gives the table back, exactly when every number is positive |
| `Ledger.HistoriesCompose` | src/assistant_memory/audience/ledger.py:181-212 | A history carried on is one history |
| `BlindReport.TextRefusals` | src/assistant_memory/audience/blind_report.py:150-164 | A derived section is taken exactly when it is text within its budget, empty only if it is the free valve |
| `BlindReport.QuestionRefusals` | src/assistant_memory/audience/blind_report.py:309-326 | Questions are taken exactly when each has text and a listed answer |
| `BlindReport.ClosingRefusals` | src/assistant_memory/audience/blind_report.py:274-306 | Nothing is missing, unknown or named twice |
| `Proposals.AncestorsStandBefore` | src/assistant_memory/proposals.py:118-135 | In such an order every ancestor stands earlier, one place at least for each generation |
| `Proposals.HangingKeepsAcyclic` | src/assistant_memory/proposals.py:109-115 | A new node may hang anywhere without closing a round |
| `Proposals.ReapplyingChangesNothing` | src/assistant_memory/proposals.py:174-176 | Changes that were applied before change nothing |
| `Chunking.FullerIsNoBetter` | src/assistant_memory/ingest.py:37-48 | A fuller chunk at hand never saves a chunk, and an empty one costs at most one more |
| `Chunking.GroupsPackTogether` | src/assistant_memory/ingest.py:37-46 | What fits into one chunk together is packed without a break |
| `Chunking.FewestPieces` | src/assistant_memory/ingest.py:41-43 | No way of splitting a long paragraph needs fewer pieces |
| `Mechanical.Spoken` | src/assistant_memory/audience/mechanical.py:469-481 | Spoken text costs its words at the speaker's pace and nothing for returns |
| `Mechanical.FarReturnsTakeRoom` | src/assistant_memory/audience/mechanical.py:371-377 | Every return beyond the distance limit uses up more than that distance |
| `Mechanical.CrowdedReturnsTakeTerms` | src/assistant_memory/audience/mechanical.py:368-385 | Every return behind too many new terms uses up that many |
| `Forks.AnswerBatch` | src/review_harness/cycle.py:122-137 | The loop over the batch puts exactly the questions without an answer, each once and in order, and is cut off only when the machine dies or the replies run out |
| `Sessions.OneActMore` | src/review_harness/cycle.py:142-163 | Each act of development changes exactly the one file it is about |
| `Sessions.OutcomesLeft` | src/review_harness/cycle.py:142-163 | The outcomes a session leaves are the last ones among its acts, and none if it leaves none |
| `Sessions.QuestionsFiled` | src/review_harness/cycle.py:142-163 | The question file a session leaves holds the last questions among its acts, and there is none if it asks nothing |
| `Cycle.JudgedTheSame` | src/review_harness/cycle.py:228-284 | Acts that touch no artefact, description or note leave what is judged as it was |
| `Gates.ComesToNothing` | src/review_harness/gates.py:86-97 | A conversation whose last reply is not understood, and after which nobody speaks, is not settled |
| `YesNo.NoIsRefusal` | src/review_harness/gates.py:172-182 | No is read exactly where a word negates outside the idioms of consent and nothing is asked |
| `YesNo.AskedAgainExactly` | src/review_harness/gates.py:143-195 | A reply is asked about again exactly when it is a question or empty, or refuses nothing and either does not consent or consents with a reservation |
| `YesNo.DocumentedAnswers` | src/review_harness/gates.py:123-128 | The replies named in the source read as it says: a reservation is asked about again, a negated stem refuses, an idiom consents |
| `YesNo.SpokenDivides` | src/review_harness/gates.py:155-157 | Punctuation and white space between two parts of a reply divide its words |
| `Channel.ReadableExactly` | src/assistant_memory/audience/channel.py:702-750 | A channel is readable exactly when each retraction is founded and each broken message is the target of one |
| `Channel.FoundedExactly` | src/assistant_memory/audience/channel.py:662-699 | A retraction is founded exactly when it names an earlier broken message of its own author and gives a reason |
| `Paragraphing.ParagraphsAreClear` | src/assistant_memory/ingest.py:34 | No paragraph holds two newlines with nothing but white space between |
| `Paragraphing.OneParagraph` | src/assistant_memory/ingest.py:34 | A text without such a pair is one paragraph, its stripped self, or none if it is blank |
| `Paragraphing.ParagraphsDivide` | src/assistant_memory/ingest.py:34 | A blank line anywhere divides: the paragraphs of both sides, one after the other |
| `Chunking.ChunksReadBack` | src/assistant_memory/ingest.py:34-48 | A chunk that is packed from whole paragraphs of the text reads back as exactly these paragraphs |
| `Integrity.WholeExactly` | src/assistant_memory/audience/gate.py:269-359 | A channel does not contradict itself exactly when any two phases about one thing say the same in every field and no later map lost a row |
| `PairCheck.HitsAnywhere` | src/assistant_memory/audience/gate.py:256-265 | A marker hits exactly the answers that hold it somewhere, letter case aside |
| `Driver.PairHoldsIsCredited` | src/assistant_memory/audience/driver.py:622-633 | What passes the gate's pair check is credited by the driver, exactly when no record but readings names its canary |
| `Driver.SecondAttemptIsARetry` | src/assistant_memory/audience/records.py:381-444 | The second attempt of a round always meets the retry rule |
| `Driver.RetryRuleExactly` | src/assistant_memory/audience/records.py:381-444 | The retry rule: a named annulled twin, or none beside the record |
| `Mechanical.TraceExactly` | src/assistant_memory/audience/mechanical.py:353-394 | Every hit of a term is one link of its trace; a return measures the way and the other terms introduced in between, and is stale exactly beyond either limit |
| `Mechanical.FirstUsesAreFirst` | src/assistant_memory/audience/mechanical.py:353-394 | A term is first used at its earliest hit |
| `Mechanical.StaleReturnsAreCounted` | src/assistant_memory/audience/mechanical.py:140-142 | Stale returns are the stale links of a trace, each counted once |
| `ClaimMap.SigningSettlesTheForm` | src/assistant_memory/audience/claim_map.py:194-201 | After a signature the recorded form counts, save a rounded one that the informed pass did not sign, for which the exact one stands in |
| `BlindReport.OneKeyOneIdentity` | src/assistant_memory/audience/blind_report.py:209-225 | Findings under one key have one identity |
| `GateJournal.PairIsFoundAnywhere` | src/review_harness/runcat.py:256-277 | A pair of single lines is found wherever in the journal it stands |
| `Proposals.OneGeneration` | src/assistant_memory/proposals.py:148-158 | A proposal belongs to one generation only |

## Left out

- Disk errors, git-ignore checks, encodings and the fsync of directories: a durable write happens or does not. A torn last line of an append, and a disk error reported after the data was written, are not modelled.
- Operating-system processes, machine profile, liveness, command lines, stream files and the copying of development's log: a role is one step that returns text or fails.
- Message texts and time stamps of the gate journal; a record is question, answer and kind.
- Python's quoting of a reply inside the re-ask text, non-ASCII digits in file names, universal newlines, and lower-casing outside the Latin and Cyrillic letters.
- SHA-256 is an injective constructor, and a digest is written out by any injective spelling in hexadecimal digits, whatever its length.
- BlindReport.IdentitiesDiffer: the shortening of a finding's identity to twelve digits is not modelled.
- Recovery.Restore: files that the round patterns match although the code never spells a name so, such as `round_001_pass.md`, are not among the directories of the model.
- Recovery.SortChildren: the same files are not in its listings.
- Recovery.IterDir: the same files are never listed.
- Development's contract in the cycle is assumed: outcomes that are not blank, distinct questions in a batch, files of the current round only, each written in one step, and no file of the run deleted.
- Safety.SameSnapshotSameSubject: the operator edits what is judged between sessions; edits made while the critic is reading, after the snapshot was taken, are no step of a legal history.
- RunCatalogs.RunCatalog.Create: a crash in the middle of creation leaves a directory that recovery refuses, and the next creation refuses too; the theorems about runs start from a created directory.
- Cycle.Analyse: one batch of questions a round holds within one call; after a restart a left-over batch is served first.
- Cycle.RunCycle: a crash between completion and comparison starts one further pass on restart.
- Outbox.PairBuffer.Flush: works from a snapshot of the box and has it to itself, as the code assumes.
- OutboxLines.ReadsBackExactly: the reader of lines is that of the lines the outbox writes; other spellings of the same JSON object are not read by it.
- Channel.ReadPhases: message numbers are whole numbers, and the ways in which one genre payload fails its own schema are a count.
- Integrity.IntegrityRefusals: the payloads of findings carry the fields that identity, anchors and comparison use.
- Journal.LaunchJournal.Launch: the text of the lock file and of the journal lines; a launcher that dies while writing leaves either the whole line or none.
- Driver.AudienceRound.LaunchBlind: the mechanical measurement before the pass, preparation and clean-up of the profile, rendering, and the reading of transcripts are the environment; identifiers and launch numbers of runs are new, as `LaunchOrder.JournalledScriptsAreFresh` shows of the journal's.
- LaunchOrder.ReadingsHaveTheirOwnCanaries: the records stem from one journal; a profile that is moved to another journal starts counting anew.
- The two further role passes (src/assistant_memory/audience/driver.py:855-1081): the same retry loop without a canary. The dispositions, waivers and role conditions of the convergence gate (src/assistant_memory/audience/gate.py:417-600, 733-1099).
- The transport of a run record: the channel does not carry the class of an annulment (src/assistant_memory/audience/channel.py:239-291), and no round trip of records is claimed.
- Ledger.IdLedger.Load: JSON itself; a file is its prefix, its last version and its keys.
- ClaimMap.CheckPayload: a status outside the four, which the gate refuses by itself; field values are of their types.
- ClaimMap.ValidateRows: the shape of typed evidence is a count of problems, as given by a module that is not part of this model.
- BlindReport.ReportRefusals: values other than text in the name fields are taken as their text.
- Proposals.Session.ApplyCreate: indexing, versions and access of the graph repository; the other operations on staged changes. A change that is its own parent is not staged (`src/assistant_memory/mcp/tools.py:1415-1430` takes stored changes only) and not ordered; the create branch itself does not look for one.
- Proposals.Session.ApplyBatch: the caller that applies a batch in one transaction is not in the repository; the model follows what the code says of the approval unit.
- Mechanical.TraceTerms: where terms stand in the text is given; the traces come in no particular order, and the longest-first order in which terms are searched has no bearing on the counts.
- Floating point: minutes are real numbers, without the rounding of the report.
