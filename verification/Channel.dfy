/** Reading the append-only channel back: broken messages refuse the reading until their own
    author takes them back, and nothing valid can be taken back by anyone. */
module Channel {
  import opened Wrappers
  import opened Text
  import opened Evidence

  /** What a notice carries. A payload under a genre phase either holds or fails its validation
      in one or more ways; everything else on the channel is none of the genre's business. */
  datatype Payload =
    | Sound(artifactSeq: int, content: Content)
    | Broken(moreProblems: nat)
    | Retraction(target: Option<int>, reason: Option<string>)
    | Foreign

  datatype Message = Message(seqNo: int, role: string, isNotice: bool, payload: Payload)

  datatype Problem =
    | NoReason
    | NoTarget
    | BeforeTarget
    | NotTheAuthor
    | TargetHolds
    | SchemaProblem(n: nat)

  /** Why the channel is refused: a message, and what is wrong with it. */
  datatype Reason = Reason(seqNo: int, problem: Problem)

  /** The numbers of the channel grow from message to message. */
  predicate Numbered(messages: seq<Message>) {
    forall i, j :: 0 <= i < j < |messages| ==> messages[i].seqNo < messages[j].seqNo
  }

  // --- what the reading means ----------------------------------------------------

  predicate IsBroken(m: Message) {
    m.isNotice && m.payload.Broken?
  }

  predicate IsRetraction(m: Message) {
    m.isNotice && m.payload.Retraction?
  }

  /** The later of two messages with one number stands for it. */
  function Index(messages: seq<Message>): (bySeq: map<int, Message>) {
    if messages == [] then map[]
    else Index(messages[..|messages| - 1])[messages[|messages| - 1].seqNo := messages[|messages| - 1]]
  }

  /** Why one retraction, filed under a number by a role, annuls nothing. */
  function RetractionProblems(target: Option<int>, reason: Option<string>, seqNo: int,
                              bySeq: map<int, Message>, role: string): seq<Problem>
  {
    (if reason.None? || Blank(reason.value) then [NoReason] else []) +
    if target.None? || target.value !in bySeq then [NoTarget]
    else
      (if seqNo <= target.value then [BeforeTarget] else []) +
      (if bySeq[target.value].role != role then [NotTheAuthor] else []) +
      (if !IsBroken(bySeq[target.value]) then [TargetHolds] else [])
  }

  function ProblemsOf(m: Message, bySeq: map<int, Message>): seq<Problem>
    requires IsRetraction(m)
  {
    RetractionProblems(m.payload.target, m.payload.reason, m.seqNo, bySeq, m.role)
  }

  predicate IsFounded(m: Message, bySeq: map<int, Message>) {
    IsRetraction(m) && ProblemsOf(m, bySeq) == []
  }

  /** The retractions among `messages` that annul something on the channel. */
  function Retracted(messages: seq<Message>, bySeq: map<int, Message>): set<int> {
    set m | m in messages && IsFounded(m, bySeq) && m.payload.target.Some? :: m.payload.target.value
  }

  /** The valid genre messages, in the order of the channel. */
  function PhasesOf(messages: seq<Message>): seq<Phase> {
    if messages == [] then []
    else
      var m := messages[|messages| - 1];
      PhasesOf(messages[..|messages| - 1]) +
      if m.isNotice && m.payload.Sound? then [Phase(m.seqNo, m.role, m.payload.artifactSeq, m.payload.content)]
      else []
  }

  /** The channel can be read: no retraction is unfounded, and every broken message has been
      taken back. */
  predicate Readable(messages: seq<Message>) {
    var bySeq := Index(messages);
    && (forall m :: m in messages && IsRetraction(m) ==> IsFounded(m, bySeq))
    && (forall m :: m in messages && IsBroken(m) ==> m.seqNo in Retracted(messages, bySeq))
  }

  // --- reading -------------------------------------------------------------------

  function Reasons(seqNo: int, problems: seq<Problem>): (reasons: seq<Reason>)
    ensures |reasons| == |problems|
  {
    if problems == [] then [] else [Reason(seqNo, problems[0])] + Reasons(seqNo, problems[1..])
  }

  function SchemaProblems(count: nat): (problems: seq<Problem>)
    ensures |problems| == count
  {
    seq(count, i requires 0 <= i < count => SchemaProblem(i))
  }

  method IndexMessages(messages: seq<Message>) returns (bySeq: map<int, Message>)
    ensures bySeq == Index(messages)
  {
    bySeq := map[];
    for i := 0 to |messages|
      invariant bySeq == Index(messages[..i])
    {
      assert messages[..i + 1][..i] == messages[..i];
      bySeq := bySeq[messages[i].seqNo := messages[i]];
    }
    assert messages[..|messages|] == messages;
  }

  lemma RetractedWithOneMore(messages: seq<Message>, m: Message, bySeq: map<int, Message>)
    ensures Retracted(messages + [m], bySeq)
            == Retracted(messages, bySeq)
               + if IsFounded(m, bySeq) && m.payload.target.Some? then {m.payload.target.value} else {}
  {
    hide IsFounded;
    assert forall x :: x in messages + [m] <==> x in messages || x == m;
  }

  /** The first pass: who has been taken back, and which retractions annul nothing. */
  method CollectRetractions(messages: seq<Message>, bySeq: map<int, Message>)
    returns (retracted: set<int>, reasons: seq<Reason>)
    ensures retracted == Retracted(messages, bySeq)
    ensures reasons == [] <==> forall m :: m in messages && IsRetraction(m) ==> IsFounded(m, bySeq)
  {
    hide RetractionProblems;
    retracted, reasons := {}, [];
    for i := 0 to |messages|
      invariant retracted == Retracted(messages[..i], bySeq)
      invariant reasons == [] <==> forall j :: 0 <= j < i && IsRetraction(messages[j]) ==> IsFounded(messages[j], bySeq)
    {
      var m := messages[i];
      assert messages[..i + 1] == messages[..i] + [m];
      RetractedWithOneMore(messages[..i], m, bySeq);
      if IsRetraction(m) {
        var problems := ProblemsOf(m, bySeq);
        if problems != [] {
          reasons := reasons + Reasons(m.seqNo, problems);
        } else {
          FoundedHasTarget(m, bySeq);
          retracted := retracted + {m.payload.target.value};
        }
      }
    }
    assert messages[..|messages|] == messages;
  }

  lemma FoundedHasTarget(m: Message, bySeq: map<int, Message>)
    requires IsFounded(m, bySeq)
    ensures m.payload.target.Some? && m.payload.target.value in bySeq
    ensures bySeq[m.payload.target.value].role == m.role && IsBroken(bySeq[m.payload.target.value])
    ensures m.payload.target.value < m.seqNo && m.payload.reason.Some? && !Blank(m.payload.reason.value)
  {
    hide Blank;
  }

  lemma NoPhases()
    ensures PhasesOf([]) == []
  {
  }

  lemma PhasesOneMore(messages: seq<Message>, m: Message)
    ensures PhasesOf(messages + [m])
            == PhasesOf(messages)
               + if m.isNotice && m.payload.Sound? then [Phase(m.seqNo, m.role, m.payload.artifactSeq, m.payload.content)]
                 else []
  {
    assert (messages + [m])[..|messages|] == messages;
  }

  /** Genre phases in channel order, or every reason why the channel cannot be trusted. */
  method ReadPhases(messages: seq<Message>) returns (r: Result<seq<Phase>, seq<Reason>>, ghost places: seq<nat>)
    ensures r.Ok? <==> Readable(messages)
    ensures r.Ok? ==> r.value == PhasesOf(messages)
    ensures r.Ok? ==> Selects(messages, |messages|, r.value, places)
    ensures r.Ok? && Numbered(messages) ==>
              forall k, l :: 0 <= k < l < |r.value| ==> r.value[k].seqNo < r.value[l].seqNo
    ensures r.Err? ==> r.error != []
  {
    hide IsFounded, Retracted, Selects, Numbered, PhasesOf, Index;
    places := [];
    assert PhasesOf(messages[..0]) == [] by {
      NoPhases();
    }
    NothingSelected(messages);
    var bySeq := IndexMessages(messages);
    var retracted, reasons := CollectRetractions(messages, bySeq);
    ghost var unfounded := reasons;
    var out: seq<Phase> := [];
    for i := 0 to |messages|
      invariant out == PhasesOf(messages[..i]) && Selects(messages, i, out, places)
      invariant reasons == [] <==>
                unfounded == [] && forall j :: 0 <= j < i && IsBroken(messages[j]) ==> messages[j].seqNo in retracted
    {
      var m := messages[i];
      assert messages[..i + 1] == messages[..i] + [m];
      PhasesOneMore(messages[..i], m);
      SelectsOneMore(messages, i, out, places);
      if IsBroken(m) {
        if m.seqNo !in retracted {
          reasons := reasons + Reasons(m.seqNo, SchemaProblems(1 + m.payload.moreProblems));
        }
      } else if m.isNotice && m.payload.Sound? {
        out := out + [Phase(m.seqNo, m.role, m.payload.artifactSeq, m.payload.content)];
        places := places + [i];
      }
    }
    assert messages[..|messages|] == messages;
    if reasons != [] {
      return Err(reasons), places;
    }
    PlacesAscend(messages, |messages|, out, places);
    return Ok(out), places;
  }

  /** The phases are the notices that hold among the first n messages: each has its place, with the
      number, the author, the version and the content that stand there; the places ascend; and no
      notice that holds is left out. */
  predicate Selects(messages: seq<Message>, n: nat, phases: seq<Phase>, places: seq<nat>)
    requires n <= |messages|
  {
    && |places| == |phases|
    && (forall k :: 0 <= k < |places| ==>
          && places[k] < n && (k > 0 ==> places[k - 1] < places[k])
          && messages[places[k]].isNotice && messages[places[k]].payload.Sound?
          && phases[k].seqNo == messages[places[k]].seqNo && phases[k].role == messages[places[k]].role
          && phases[k].artifactSeq == messages[places[k]].payload.artifactSeq
          && phases[k].content == messages[places[k]].payload.content)
    && forall i :: 0 <= i < n && messages[i].isNotice && messages[i].payload.Sound? ==> i in places
  }

  lemma NothingSelected(messages: seq<Message>)
    ensures Selects(messages, 0, [], [])
  {
  }

  lemma SelectsOneMore(messages: seq<Message>, n: nat, phases: seq<Phase>, places: seq<nat>)
    requires n < |messages| && Selects(messages, n, phases, places)
    ensures var m := messages[n];
            m.isNotice && m.payload.Sound? ==>
              Selects(messages, n + 1, phases + [Phase(m.seqNo, m.role, m.payload.artifactSeq, m.payload.content)],
                      places + [n])
    ensures !(messages[n].isNotice && messages[n].payload.Sound?) ==> Selects(messages, n + 1, phases, places)
  {
    assert forall i :: i in places ==> i in places + [n];
    assert n in places + [n];
  }

  lemma PlacesAscend(messages: seq<Message>, n: nat, phases: seq<Phase>, places: seq<nat>)
    requires n <= |messages| && Selects(messages, n, phases, places)
    ensures Numbered(messages) ==> forall k, l :: 0 <= k < l < |phases| ==> phases[k].seqNo < phases[l].seqNo
  {
    forall k, l | 0 <= k < l < |places|
      ensures places[k] < places[l]
    {
      LaterPlace(places, k, l);
    }
  }

  lemma {:induction false} LaterPlace(places: seq<nat>, k: nat, l: nat)
    requires k < l < |places| && forall i :: 0 < i < |places| ==> places[i - 1] < places[i]
    ensures places[k] < places[l]
  {
    if k < l - 1 {
      LaterPlace(places, k, l - 1);
    }
  }

  /** Build one retraction, held against the replay before it is posted. */
  method PhaseRetractionMessage(messages: seq<Message>, target: int, reason: string, role: string)
    returns (r: Result<Message, seq<Problem>>)
    ensures var posted := Message(NextSeq(messages), role, true, Retraction(Some(target), Some(reason)));
            r == if ProblemsOf(posted, Index(messages)) == [] then Ok(posted)
              else Err(ProblemsOf(posted, Index(messages)))
  {
    var bySeq := IndexMessages(messages);
    var next := NextSeq(messages);
    var problems := RetractionProblems(Some(target), Some(reason), next, bySeq, role);
    if problems != [] {
      return Err(problems);
    }
    return Ok(Message(next, role, true, Retraction(Some(target), Some(reason))));
  }

  /** One more than the largest number on the channel; one on an empty channel. */
  function NextSeq(messages: seq<Message>): (n: int)
    ensures forall m :: m in messages ==> m.seqNo < n
    ensures if messages == [] then n == 1 else exists m :: m in messages && m.seqNo == n - 1
  {
    if messages == [] then 1
    else
      var last := messages[|messages| - 1];
      assert messages == messages[..|messages| - 1] + [last];
      if |messages| == 1 then last.seqNo + 1
      else
        var before := NextSeq(messages[..|messages| - 1]);
        if last.seqNo >= before then last.seqNo + 1 else before
  }

  // --- the channel only grows -----------------------------------------------------

  lemma {:induction false} IndexFinds(messages: seq<Message>, n: int)
    ensures n in Index(messages) ==> Index(messages)[n] in messages && Index(messages)[n].seqNo == n
    ensures n in Index(messages) <==> exists m :: m in messages && m.seqNo == n
    ensures forall m :: Numbered(messages) && m in messages && m.seqNo == n ==> Index(messages)[n] == m
  {
    if messages != [] {
      var init, last := messages[..|messages| - 1], messages[|messages| - 1];
      assert messages == init + [last];
      IndexFinds(init, n);
    }
  }

  lemma {:induction false} PhasesConcatenate(a: seq<Message>, b: seq<Message>)
    ensures PhasesOf(a + b) == PhasesOf(a) + PhasesOf(b)
  {
    if b == [] {
      assert a + b == a;
    } else {
      PhasesConcatenate(a, b[..|b| - 1]);
      assert (a + b)[..|a + b| - 1] == a + b[..|b| - 1];
    }
  }

  /** No valid phase is ever erased: whatever is posted later, retractions included, a reading
      that succeeds later begins with everything that any earlier reading showed. */
  lemma ReadingsGrow(earlier: seq<Message>, later: seq<Message>)
    requires earlier <= later
    ensures PhasesOf(earlier) <= PhasesOf(later)
  {
    assert later == earlier + later[|earlier|..];
    PhasesConcatenate(earlier, later[|earlier|..]);
  }

  /** On a numbered channel a number keeps its message. */
  lemma IndexGrows(earlier: seq<Message>, later: seq<Message>, n: int)
    requires Numbered(later) && earlier <= later
    ensures n in Index(earlier) ==> n in Index(later) && Index(later)[n] == Index(earlier)[n]
    ensures n in Index(later) && n !in Index(earlier) ==>
              forall m :: m in earlier ==> m.seqNo < n
  {
    hide Index;
    IndexFinds(earlier, n);
    IndexFinds(later, n);
    if n in Index(earlier) {
      var m := Index(earlier)[n];
      assert m in later;
    } else if n in Index(later) {
      var m := Index(later)[n];
      assert m !in earlier;
      var k :| 0 <= k < |later| && later[k] == m;
      assert k >= |earlier|;
    }
  }

  /** Whether a retraction is founded is settled the moment it is posted: what comes later can
      neither save it nor spoil it. */
  lemma FoundedForGood(earlier: seq<Message>, later: seq<Message>, m: Message)
    requires Numbered(later) && earlier <= later && m in earlier && IsRetraction(m)
    ensures IsFounded(m, Index(earlier)) <==> IsFounded(m, Index(later))
  {
    hide Index, Blank, IsBroken;
    if m.payload.target.Some? {
      IndexGrows(earlier, later, m.payload.target.value);
    }
  }

  /** One unfounded retraction refuses the channel for good. */
  lemma UnfoundedRefusesForGood(earlier: seq<Message>, later: seq<Message>, m: Message)
    requires Numbered(later) && earlier <= later && m in earlier && IsRetraction(m)
    requires !IsFounded(m, Index(earlier))
    ensures !Readable(later)
  {
    hide Index, IsFounded, Retracted;
    FoundedForGood(earlier, later, m);
    assert m in later;
  }

  // --- what is taken back, message by message ----------------------------------------

  /** One message takes another one back: a notice with a reason, later than a broken notice of the
      same author, whose number it names. */
  predicate TakesBack(m: Message, broken: Message) {
    && m.isNotice && m.payload.Retraction? && m.payload.reason.Some? && !Blank(m.payload.reason.value)
    && m.payload.target == Some(broken.seqNo) && broken.seqNo < m.seqNo && broken.role == m.role
    && broken.isNotice && broken.payload.Broken?
  }

  lemma FoundedExactly(messages: seq<Message>, m: Message)
    requires Numbered(messages)
    ensures IsFounded(m, Index(messages)) <==> exists b :: b in messages && TakesBack(m, b)
  {
    hide Index, Blank;
    if IsRetraction(m) && m.payload.target.Some? {
      IndexFinds(messages, m.payload.target.value);
    }
  }

  /** On a numbered channel: it reads exactly when every retraction takes a broken message back, and
      every broken message is taken back. */
  lemma ReadableExactly(messages: seq<Message>)
    requires Numbered(messages)
    ensures Readable(messages) <==>
            && (forall m :: m in messages && m.isNotice && m.payload.Retraction? ==>
                  exists b :: b in messages && TakesBack(m, b))
            && (forall b :: b in messages && b.isNotice && b.payload.Broken? ==>
                  exists m :: m in messages && TakesBack(m, b))
  {
    hide Index, Blank, IsFounded, Numbered;
    forall m | m in messages
      ensures IsFounded(m, Index(messages)) <==> exists b :: b in messages && TakesBack(m, b)
    {
      FoundedExactly(messages, m);
    }
    forall b | b in messages && IsBroken(b)
      ensures b.seqNo in Retracted(messages, Index(messages)) <==> exists m :: m in messages && TakesBack(m, b)
    {
      TakenBackExactly(messages, b);
    }
  }

  lemma TakenBackExactly(messages: seq<Message>, b: Message)
    requires Numbered(messages) && b in messages && IsBroken(b)
    ensures b.seqNo in Retracted(messages, Index(messages)) <==> exists m :: m in messages && TakesBack(m, b)
  {
    hide Index, Blank, IsFounded;
    FoundedAreRetractions();
    if b.seqNo in Retracted(messages, Index(messages)) {
      var m :| && m in messages && IsFounded(m, Index(messages)) && IsRetraction(m)
               && m.payload.target.Some? && m.payload.target.value == b.seqNo;
      FoundedExactly(messages, m);
      var other :| other in messages && TakesBack(m, other);
      assert other == b;
    }
    if m :| m in messages && TakesBack(m, b) {
      FoundedExactly(messages, m);
      assert m.payload.target.value in Retracted(messages, Index(messages));
    }
  }

  // --- the builder and the replay agree -------------------------------------------

  /** A retraction as its author posts it, behind everything that is on the channel. */
  function Posted(messages: seq<Message>, target: int, reason: string, role: string): Message {
    Message(NextSeq(messages), role, true, Retraction(Some(target), Some(reason)))
  }

  lemma StaysNumbered(messages: seq<Message>, m: Message)
    requires Numbered(messages) && forall x :: x in messages ==> x.seqNo < m.seqNo
    ensures Numbered(messages + [m])
  {
  }

  lemma IndexOneMore(messages: seq<Message>, m: Message)
    ensures Index(messages + [m]) == Index(messages)[m.seqNo := m]
  {
    assert (messages + [m])[..|messages|] == messages;
  }

  /** What the builder accepts is what the replay accepts once it is posted: the builder sees
      the channel without the retraction, the replay with it. */
  lemma BuilderAgreesWithReplay(messages: seq<Message>, target: int, reason: string, role: string)
    requires Numbered(messages)
    ensures var posted := Posted(messages, target, reason, role);
            && Numbered(messages + [posted])
            && (ProblemsOf(posted, Index(messages)) == [] <==> IsFounded(posted, Index(messages + [posted])))
  {
    hide Blank, NextSeq, Index, Numbered;
    var posted := Posted(messages, target, reason, role);
    StaysNumbered(messages, posted);
    IndexOneMore(messages, posted);
    if target == posted.seqNo {
      IndexFinds(messages, target);
    }
  }

  // --- the way back to a readable channel -------------------------------------------

  /** What a broken message's own author posts to take it back. */
  function TakenBack(messages: seq<Message>, targets: seq<int>, reason: string): (later: seq<Message>)
    ensures messages <= later
  {
    if targets == [] then messages
    else
      var before := TakenBack(messages, targets[..|targets| - 1], reason);
      var target := targets[|targets| - 1];
      var role := if target in Index(messages) then Index(messages)[target].role else "";
      before + [Posted(before, target, reason, role)]
  }

  predicate Breaks(messages: seq<Message>, n: int) {
    n in Index(messages) && IsBroken(Index(messages)[n])
  }

  predicate AllFounded(messages: seq<Message>) {
    forall m :: m in messages && IsRetraction(m) ==> IsFounded(m, Index(messages))
  }

  function Annulled(messages: seq<Message>): set<int> {
    Retracted(messages, Index(messages))
  }

  lemma AnnulledStays(earlier: seq<Message>, later: seq<Message>)
    requires Numbered(later) && earlier <= later
    ensures Retracted(earlier, Index(later)) == Annulled(earlier)
  {
    hide Index, IsFounded;
    forall m | m in earlier && IsRetraction(m)
      ensures IsFounded(m, Index(earlier)) <==> IsFounded(m, Index(later))
    {
      FoundedForGood(earlier, later, m);
    }
    assert forall m :: IsFounded(m, Index(earlier)) || IsFounded(m, Index(later)) ==> IsRetraction(m) by {
      FoundedAreRetractions();
    }
  }

  lemma FoundedAreRetractions()
    ensures forall m, bySeq :: IsFounded(m, bySeq) ==> IsRetraction(m)
  {
    hide ProblemsOf;
  }

  lemma PostedIsFounded(messages: seq<Message>, target: int, reason: string)
    requires Numbered(messages) && Breaks(messages, target) && !Blank(reason)
    ensures var posted := Posted(messages, target, reason, Index(messages)[target].role);
            && Numbered(messages + [posted])
            && IsFounded(posted, Index(messages + [posted]))
  {
    hide Blank, NextSeq, Index;
    IndexFinds(messages, target);
    BuilderAgreesWithReplay(messages, target, reason, Index(messages)[target].role);
  }

  lemma TakeBackOne(messages: seq<Message>, target: int, reason: string)
    requires Numbered(messages) && AllFounded(messages) && Breaks(messages, target) && !Blank(reason)
    ensures var later := messages + [Posted(messages, target, reason, Index(messages)[target].role)];
            && Numbered(later) && AllFounded(later)
            && Annulled(later) == Annulled(messages) + {target}
            && forall m :: IsBroken(m) ==> (m in later <==> m in messages)
  {
    hide Index, IsFounded, NextSeq, Blank, Retracted;
    var posted := Posted(messages, target, reason, Index(messages)[target].role);
    var later := messages + [posted];
    PostedIsFounded(messages, target, reason);
    forall m | m in later && IsRetraction(m)
      ensures IsFounded(m, Index(later))
    {
      if m in messages {
        FoundedForGood(messages, later, m);
      }
    }
    AnnulledStays(messages, later);
    RetractedWithOneMore(messages, posted, Index(later));
  }

  /** A channel without unfounded retractions is mended by its authors, in any order: the builder
      accepts every retraction of a broken message, and afterwards the channel can be read exactly
      when every broken message was already taken back or is among the targets. */
  lemma {:induction false} BrokenChannelsMend(messages: seq<Message>, targets: seq<int>, reason: string)
    requires Numbered(messages) && AllFounded(messages) && !Blank(reason)
    requires forall t :: t in targets ==> Breaks(messages, t)
    ensures var later := TakenBack(messages, targets, reason);
            && Numbered(later) && AllFounded(later)
            && Annulled(later) == Annulled(messages) + (set t | t in targets)
            && (forall m :: IsBroken(m) ==> (m in later <==> m in messages))
            && (Readable(later) <==>
                forall m :: m in messages && IsBroken(m) ==> m.seqNo in Annulled(messages) || m.seqNo in targets)
            && PhasesOf(later) == PhasesOf(messages)
  {
    hide Index, IsFounded, Posted, Blank, Retracted, Numbered, AllFounded;
    var later := TakenBack(messages, targets, reason);
    if targets == [] {
    } else {
      var init, target := targets[..|targets| - 1], targets[|targets| - 1];
      var before := TakenBack(messages, init, reason);
      BrokenChannelsMend(messages, init, reason);
      assert target in targets && Breaks(messages, target);
      IndexGrows(messages, before, target);
      TakeBackOne(before, target, reason);
      assert forall t :: t in targets <==> t in init || t == target;
      PhasesConcatenate(before, [later[|later| - 1]]);
      RetractionsAreNoPhases(before, target, reason, Index(messages)[target].role);
    }
    ReadableMeansAnnulled(later);
  }

  lemma RetractionsAreNoPhases(messages: seq<Message>, target: int, reason: string, role: string)
    ensures PhasesOf([Posted(messages, target, reason, role)]) == []
  {
    hide NextSeq;
  }

  lemma ReadableMeansAnnulled(messages: seq<Message>)
    requires AllFounded(messages)
    ensures Readable(messages) <==> forall m :: m in messages && IsBroken(m) ==> m.seqNo in Annulled(messages)
  {
    hide IsFounded, Retracted, Index;
  }
}
