/** The run catalogue: immediate durable writing and recovery from the files alone. */
module RunCatalogs {
  import opened Wrappers
  import opened Text
  import opened Snapshot
  import opened RunFiles
  import opened Protocol
  import opened Outcomes
  import GateJournal
  import Recovery

  class RunCatalog {
    /** What is on disk. */
    var disk: Disk
    /** How many more durable steps the machine lives; nobody can see or rely on it. */
    var power: nat
    /** Everything that ever happened to the disk. */
    ghost var history: History

    ghost predicate Valid()
      reads this
    {
      history.Recorded() && history.Now() == disk
    }

    /** An empty directory beside a working copy. */
    constructor (work: map<string, Artifact>, power: nat)
      ensures Valid() && IsEmptyDir(disk) && disk.work == work && history.events == []
    {
      this.disk := EmptyDir(work);
      this.power := power;
      this.history := History([EmptyDir(work)], []);
    }

    // -- the atomic steps ---------------------------------------------------

    method WriteDurably(w: Write) returns (r: Outcome<()>)
      requires Valid()
      modifies this
      ensures r.Crashed? ==> power == 0
      ensures power == old(power) - if r.Fine? then 1 else 0
      ensures Valid() && !r.Refused?
      ensures r.Fine? ==> history == old(history).Extended(Wrote(w)) && disk == Put(old(disk), w)
      ensures r.Crashed? ==> history == old(history) && disk == old(disk)
    {
      if power == 0 {
        return Crashed;
      }
      power := power - 1;
      disk := Put(disk, w);
      history := history.Extended(Wrote(w));
      return Fine(());
    }

    /** Deleting the question file of a round that has been served. */
    method RemoveQuestions(n: nat) returns (r: Outcome<()>)
      requires Valid()
      modifies this
      ensures r.Crashed? ==> power == 0
      ensures power == old(power) - if r.Fine? then 1 else 0
      ensures Valid() && !r.Refused?
      ensures r.Fine? ==> history == old(history).Extended(QuestionsRemoved(n))
      ensures r.Crashed? ==> history == old(history) && disk == old(disk)
    {
      if power == 0 {
        return Crashed;
      }
      power := power - 1;
      disk := disk.(requests := disk.requests - {n});
      history := history.Extended(QuestionsRemoved(n));
      return Fine(());
    }

    /** Development puts a file down while it is in control of round n. */
    method DevelopmentWrites(n: nat, w: Write) returns (r: Outcome<()>)
      requires Valid()
      modifies this
      ensures r.Crashed? ==> power == 0
      ensures power == old(power) - if r.Fine? then 1 else 0
      ensures Valid() && !r.Refused?
      ensures r.Fine? ==> history == old(history).Extended(DevWrote(n, w))
      ensures r.Crashed? ==> history == old(history) && disk == old(disk)
    {
      if power == 0 {
        return Crashed;
      }
      power := power - 1;
      disk := Put(disk, w);
      history := history.Extended(DevWrote(n, w));
      return Fine(());
    }

    /** The operator edits what is judged, between two sessions. */
    method EditSubject(w: Write)
      requires Valid()
      modifies this
      ensures Valid() && history == old(history).Extended(OperatorWrote(w))
    {
      disk := Put(disk, w);
      history := history.Extended(OperatorWrote(w));
    }

    /** Something was said or judged that leaves no file by itself. */
    ghost method Note(e: Event)
      requires Valid() && (e.CriticRan? || e.Replied?)
      modifies this`history
      ensures Valid() && history == old(history).Extended(e)
    {
      history := history.Extended(e);
    }

    // -- creation -------------------------------------------------------------

    method Create(artifactPaths: seq<string>, criticModel: string, description: string, note: string)
      returns (r: Outcome<()>)
      requires Valid()
      modifies this
      ensures r.Crashed? ==> power == 0
      ensures if r.Fine? then power == old(power) - 3 else old(power) - 2 <= power <= old(power)
      ensures Valid()
      ensures r.Refused? <==> !IsEmptyDir(old(disk)) || Blank(criticModel) || Blank(description)
      ensures r.Refused? ==> disk == old(disk)
      ensures r.Fine? ==> Consistent(disk) && disk.passes == map[] && !Run(disk).entryConfirmed
      ensures r.Fine? ==> disk.description == Some(description) && disk.note == Some(note)
      ensures r.Fine? ==> Run(disk) == RunMeta(artifactPaths, criticModel, false, "", "")
      ensures r.Crashed? ==> !Consistent(disk)
    {
      if !IsEmptyDir(disk) {
        return Refused(NotEmpty);
      }
      if Blank(criticModel) {
        return Refused(NoModel);
      }
      if Blank(description) {
        return Refused(NoDescription);
      }
      var _ :- WriteDurably(DescriptionMd(description));
      var _ :- WriteDurably(NoteMd(note));
      var meta := RunMeta(artifactPaths, criticModel, false, "", "");
      var _ :- WriteDurably(RunJson(meta));
      return Fine(());
    }

    // -- reading --------------------------------------------------------------

    method LoadMeta() returns (r: Outcome<RunMeta>)
      ensures !r.Crashed?
      ensures r.Fine? <==> HasRun(disk)
      ensures r.Fine? ==> r.value == Run(disk)
    {
      r := Recovery.LoadMeta(disk);
    }

    /** The state of the cycle, from the files alone. */
    method Restore() returns (r: Outcome<RunState>)
      ensures !r.Crashed?
      ensures r.Fine? <==> Consistent(disk)
      ensures r.Fine? ==> Describes(r.value, disk)
    {
      r := Recovery.Restore(disk);
    }

    method ReadRoundMeta(n: nat) returns (r: Outcome<PassMeta>)
      ensures !r.Crashed?
      ensures r.Fine? <==> HasRun(disk) && MetaReadable(disk.passMeta, Run(disk).artifactPaths, n)
      ensures r.Fine? ==> r.value == disk.passMeta[n].value
    {
      r := Recovery.ReadRoundMeta(disk, n);
    }

    // -- immediate writing ----------------------------------------------------

    method AppendGateRecord(question: string, answer: string, kind: string) returns (r: Outcome<()>)
      requires Valid()
      modifies this
      ensures r.Crashed? ==> power == 0
      ensures power == old(power) - if r.Fine? then 1 else 0
      ensures Valid() && !r.Refused?
      ensures r.Fine? ==>
                var record := GateRecord(question, answer, kind);
                history == old(history).Extended(Wrote(GatesMd(JournalOf(old(disk)) + [record])))
      ensures r.Crashed? ==> history == old(history) && disk == old(disk)
    {
      r := WriteDurably(GatesMd(JournalOf(disk) + [GateRecord(question, answer, kind)]));
    }

    /** The entry gate is marked with one write that carries the verbatim answer. */
    method MarkEntryConfirmed(answer: string, prompt: string) returns (r: Outcome<()>)
      requires Valid()
      modifies this
      ensures r.Crashed? ==> power == 0
      ensures power == old(power) - if r.Fine? then 1 else 0
      ensures Valid()
      ensures r.Refused? <==> Blank(answer) || Blank(prompt) || !HasRun(old(disk))
      ensures r.Fine? ==>
                var meta := Run(old(disk)).(entryConfirmed := true, entryAnswer := answer, entryPrompt := prompt);
                history == old(history).Extended(Wrote(RunJson(meta)))
      ensures !r.Fine? ==> history == old(history) && disk == old(disk)
    {
      if Blank(answer) || Blank(prompt) {
        return Refused(ConfirmedWithoutEvidence);
      }
      var meta :- LoadMeta();
      r := WriteDurably(RunJson(meta.(entryConfirmed := true, entryAnswer := answer, entryPrompt := prompt)));
    }

    /** The final pair of the entry gate is restored from run.json if the journal lacks it. */
    method EntryJournalRepair() returns (r: Outcome<()>)
      requires Valid()
      modifies this
      ensures r.Crashed? ==> power == 0
      ensures old(power) - 1 <= power <= old(power)
      ensures Valid()
      ensures r.Refused? <==> !HasRun(old(disk))
      ensures r.Fine? ==>
                var m := Run(old(disk));
                if !m.entryConfirmed || GateJournal.HasPair(JournalOf(old(disk)), m.entryPrompt, m.entryAnswer) then
                  history == old(history) && disk == old(disk)
                else
                  history == old(history).Extended(Wrote(GatesMd(
                    JournalOf(old(disk)) + [GateRecord(m.entryPrompt, m.entryAnswer, ENTRY_KIND)])))
      ensures !r.Fine? ==> history == old(history) && disk == old(disk)
    {
      hide GateJournal.HasPair;
      var meta :- LoadMeta();
      var prompt := if meta.entryPrompt == "" then "Entry gate" else meta.entryPrompt;
      if !meta.entryConfirmed || meta.entryAnswer == "" {
        return Fine(());
      }
      if !GateJournal.HasPair(JournalOf(disk), prompt, meta.entryAnswer) {
        r := AppendGateRecord(prompt, meta.entryAnswer, ENTRY_KIND);
        return;
      }
      return Fine(());
    }

    /** The pass lands verbatim, after its metadata; an existing pass is never overwritten. */
    method WritePass(n: nat, text: string, meta: PassMeta) returns (r: Outcome<()>)
      requires Valid()
      modifies this
      ensures r.Crashed? ==> power == 0
      ensures if r.Fine? then power == old(power) - 2 else old(power) - 1 <= power <= old(power)
      ensures Valid()
      ensures r.Refused? <==> Blank(text) || n in old(disk).passes
                              || !HasRun(old(disk)) || !Complete(meta, Run(old(disk)).artifactPaths)
      ensures r.Refused? ==> history == old(history) && disk == old(disk)
      ensures var first := old(history).Extended(Wrote(PassMetaJson(n, meta)));
              && (r.Fine? ==> history == first.Extended(Wrote(PassMd(n, text))))
              && (r.Crashed? ==> history == old(history) || history == first)
    {
      hide Complete;
      if Blank(text) {
        return Refused(BlankPass);
      }
      if n in disk.passes {
        return Refused(PassExists);
      }
      var run :- LoadMeta();
      if !Complete(meta, run.artifactPaths) {
        return Refused(CorruptMetadata);
      }
      var _ :- WriteDurably(PassMetaJson(n, meta));
      var _ :- WriteDurably(PassMd(n, text));
      return Fine(());
    }

    method MarkRoundCompleted(n: nat) returns (r: Outcome<()>)
      requires Valid()
      modifies this
      ensures r.Crashed? ==> power == 0
      ensures power == old(power) - if r.Fine? then 1 else 0
      ensures Valid()
      ensures r.Refused? <==> !HasRun(old(disk)) || !MetaReadable(old(disk).passMeta, Run(old(disk)).artifactPaths, n)
      ensures r.Fine? ==>
                var meta := old(disk).passMeta[n].value.(completed := true);
                history == old(history).Extended(Wrote(PassMetaJson(n, meta)))
      ensures !r.Fine? ==> history == old(history) && disk == old(disk)
    {
      var meta :- ReadRoundMeta(n);
      r := WriteDurably(PassMetaJson(n, meta.(completed := true)));
    }
  }

  // -- an empty directory -----------------------------------------------------

  predicate IsEmptyDir(d: Disk) {
    d == EmptyDir(d.work)
  }

  function EmptyDir(work: map<string, Artifact>): Disk {
    Disk(None, None, None, None, map[], map[], map[], map[], map[], {}, work)
  }
}
