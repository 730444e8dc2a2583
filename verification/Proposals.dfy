/** Staged changes of one approval: parents before children, and no child without its parent. */
module Proposals {
  import opened Wrappers

  type Id = nat

  /** Where a new node belongs: inside a node that exists, or inside one staged beside it. */
  datatype Parent = Parent(nodeId: Option<Id>, proposalId: Option<Id>)

  datatype Proposal = Proposal(id: Id, parent: Option<Parent>, title: string)

  datatype Refused = OutsideTheBatch | Circular | ParentMissing | ApprovedSeparately | ParentGone

  function SiblingOf(p: Proposal): Option<Id> {
    if p.parent.Some? then p.parent.value.proposalId else None
  }

  // --- ordering: what is asked ----------------------------------------------------------

  type Dependencies = map<Id, Option<Id>>

  /** What each proposal of the batch waits for. */
  function DependenciesOf(batch: seq<Proposal>): (depends: Dependencies)
    ensures forall id :: id in depends <==> exists i :: 0 <= i < |batch| && batch[i].id == id
  {
    if batch == [] then map[]
    else
      var init, last := batch[..|batch| - 1], batch[|batch| - 1];
      assert batch == init + [last];
      DependenciesOf(init)[last.id := SiblingOf(last)]
  }

  /** Every sibling that is named is in the batch. */
  predicate Closed(depends: Dependencies) {
    forall id :: id in depends && depends[id].Some? ==> depends[id].value in depends
  }

  /** The k-th ancestor. */
  function Ancestor(depends: Dependencies, id: Id, k: nat): Option<Id>
    decreases k
  {
    if k == 0 then Some(id)
    else if id !in depends || depends[id].None? then None
    else Ancestor(depends, depends[id].value, k - 1)
  }

  /** Some proposal is its own ancestor. */
  ghost predicate Loops(depends: Dependencies) {
    exists id, k :: id in depends && IsOwnAncestor(depends, id, k)
  }

  predicate IsOwnAncestor(depends: Dependencies, id: Id, k: nat) {
    k > 0 && Ancestor(depends, id, k) == Some(id)
  }

  predicate Emits(order: seq<Proposal>, id: Id) {
    exists i :: 0 <= i < |order| && order[i].id == id
  }

  /** Whatever a proposal waits for stands before it. */
  predicate ParentsFirst(order: seq<Proposal>, depends: Dependencies) {
    forall i :: 0 <= i < |order| && order[i].id in depends && depends[order[i].id].Some? ==>
      Emits(order[..i], depends[order[i].id].value)
  }

  // --- ordering: why loops are the only obstacle --------------------------------------------

  /** Ancestors stand before, one place at least for every generation. */
  lemma {:induction false} AncestorsStandBefore(order: seq<Proposal>, depends: Dependencies, i: nat, k: nat)
    returns (j: nat)
    requires ParentsFirst(order, depends) && i < |order| && Ancestor(depends, order[i].id, k).Some?
    ensures j + k <= i && order[j].id == Ancestor(depends, order[i].id, k).value
    decreases k
  {
    if k == 0 {
      j := i;
    } else {
      var parent := depends[order[i].id].value;
      var h :| 0 <= h < i && order[..i][h].id == parent;
      j := AncestorsStandBefore(order, depends, h, k - 1);
    }
  }

  lemma {:induction false} FirstPlace(order: seq<Proposal>, id: Id) returns (i: nat)
    requires Emits(order, id)
    ensures i < |order| && order[i].id == id && forall h :: 0 <= h < i ==> order[h].id != id
  {
    if order[0].id == id {
      i := 0;
    } else {
      assert Emits(order[1..], id) by {
        var j :| 0 <= j < |order| && order[j].id == id;
        assert order[1..][j - 1].id == id;
      }
      var j := FirstPlace(order[1..], id);
      i := j + 1;
      assert forall h :: 0 < h < i ==> order[h] == order[1..][h - 1];
    }
  }

  /** An order with parents first leaves no room for a loop. */
  lemma OrderedMeansNoLoops(order: seq<Proposal>, depends: Dependencies)
    requires ParentsFirst(order, depends) && forall id :: id in depends ==> Emits(order, id)
    ensures !Loops(depends)
  {
    forall id, k | id in depends
      ensures !IsOwnAncestor(depends, id, k)
    {
      if IsOwnAncestor(depends, id, k) {
        var i := FirstPlace(order, id);
        var _ := AncestorsStandBefore(order, depends, i, k);
      }
    }
  }

  /** Everybody in the set waits for somebody in the set. */
  predicate Stuck(depends: Dependencies, waiting: set<Id>) {
    forall id :: id in waiting ==> id in depends && depends[id].Some? && depends[id].value in waiting
  }

  /** The first k ancestors of id, id first. */
  function Lineage(depends: Dependencies, id: Id, k: nat): seq<Id>
    decreases k
  {
    if k == 0 || id !in depends || depends[id].None? then [id]
    else [id] + Lineage(depends, depends[id].value, k - 1)
  }

  lemma {:induction false} LineageOfStuck(depends: Dependencies, waiting: set<Id>, id: Id, k: nat)
    requires Stuck(depends, waiting) && id in waiting
    ensures var line := Lineage(depends, id, k);
            && |line| == k + 1 && (forall i :: 0 <= i <= k ==> line[i] in waiting)
            && forall i :: 0 <= i <= k ==> Ancestor(depends, id, i) == Some(line[i])
    decreases k
  {
    if k > 0 {
      LineageOfStuck(depends, waiting, depends[id].value, k - 1);
    }
  }

  lemma {:induction false} AncestorOfAncestor(depends: Dependencies, id: Id, i: nat, k: nat)
    requires Ancestor(depends, id, i).Some?
    ensures Ancestor(depends, id, i + k) == Ancestor(depends, Ancestor(depends, id, i).value, k)
    decreases i
  {
    if i > 0 {
      AncestorOfAncestor(depends, depends[id].value, i - 1, k);
    }
  }

  /** More places than values: some value comes twice. */
  lemma {:induction false} SomethingRepeats(line: seq<Id>, values: set<Id>) returns (i: nat, j: nat)
    requires |line| > |values| && forall k :: 0 <= k < |line| ==> line[k] in values
    ensures i < j < |line| && line[i] == line[j]
    decreases |line|
  {
    var last := |line| - 1;
    if k :| 0 <= k < last && line[k] == line[last] {
      i, j := k, last;
    } else {
      assert line[last] in values;
      i, j := SomethingRepeats(line[..last], values - {line[last]});
    }
  }

  /** A batch in which everybody waits contains a loop. */
  lemma StuckMeansLoop(depends: Dependencies, waiting: set<Id>)
    requires Stuck(depends, waiting) && waiting != {}
    ensures Loops(depends)
  {
    var id :| id in waiting;
    var line := Lineage(depends, id, |waiting|);
    LineageOfStuck(depends, waiting, id, |waiting|);
    var i, j := SomethingRepeats(line, waiting);
    AncestorOfAncestor(depends, id, i, j - i);
    assert IsOwnAncestor(depends, line[i], j - i);
    assert line[i] in waiting;
  }

  // --- ordering: the code ----------------------------------------------------------------------

  predicate IsReady(p: Proposal, depends: Dependencies, emitted: set<Id>) {
    p.id in depends && (depends[p.id].None? || depends[p.id].value in emitted)
  }

  function Ready(remaining: seq<Proposal>, depends: Dependencies, emitted: set<Id>): (ready: seq<Proposal>)
    ensures forall p :: p in ready <==> p in remaining && IsReady(p, depends, emitted)
  {
    if remaining == [] then []
    else
      var init, last := remaining[..|remaining| - 1], remaining[|remaining| - 1];
      assert remaining == init + [last];
      Ready(init, depends, emitted) + if IsReady(last, depends, emitted) then [last] else []
  }

  function Left(remaining: seq<Proposal>, emitted: set<Id>): (left: seq<Proposal>)
    ensures forall p :: p in left <==> p in remaining && p.id !in emitted
    ensures |left| <= |remaining| && ((exists p :: p in remaining && p.id in emitted) ==> |left| < |remaining|)
  {
    if remaining == [] then []
    else
      var init, last := remaining[..|remaining| - 1], remaining[|remaining| - 1];
      assert remaining == init + [last];
      Left(init, emitted) + if last.id !in emitted then [last] else []
  }

  function IdsOf(ps: seq<Proposal>): (ids: set<Id>)
    ensures forall id :: id in ids <==> exists i :: 0 <= i < |ps| && ps[i].id == id
  {
    set p | p in ps :: p.id
  }

  lemma ReadyOneMore(init: seq<Proposal>, last: Proposal, depends: Dependencies, emitted: set<Id>, later: set<Id>)
    ensures Ready(init + [last], depends, emitted)
            == Ready(init, depends, emitted) + if IsReady(last, depends, emitted) then [last] else []
    ensures Left(init + [last], later) == Left(init, later) + if last.id !in later then [last] else []
  {
    hide IsReady;
    assert (init + [last])[..|init|] == init;
  }

  lemma OneGoesEither(a: seq<Proposal>, b: seq<Proposal>, init: seq<Proposal>, last: Proposal)
    requires multiset(a) + multiset(b) == multiset(init)
    ensures multiset(a + [last]) + multiset(b) == multiset(init + [last])
    ensures multiset(a) + multiset(b + [last]) == multiset(init + [last])
  {
  }

  lemma {:induction false} ReadyAndLeft(remaining: seq<Proposal>, depends: Dependencies, emitted: set<Id>,
                                        later: set<Id>)
    requires forall p :: p in remaining ==> (p.id in later <==> IsReady(p, depends, emitted))
    ensures multiset(Ready(remaining, depends, emitted)) + multiset(Left(remaining, later)) == multiset(remaining)
  {
    hide IsReady, Ready, Left;
    if remaining == [] {
      NothingReady(depends, emitted, later);
    } else {
      var init, last := remaining[..|remaining| - 1], remaining[|remaining| - 1];
      assert remaining == init + [last] && last in remaining;
      ReadyAndLeft(init, depends, emitted, later);
      ReadyOneMore(init, last, depends, emitted, later);
      OneGoesEither(Ready(init, depends, emitted), Left(init, later), init, last);
      assert Ready(init, depends, emitted) + [] == Ready(init, depends, emitted)
        && Left(init, later) + [] == Left(init, later);
    }
  }

  lemma NothingReady(depends: Dependencies, emitted: set<Id>, later: set<Id>)
    ensures Ready([], depends, emitted) == [] && Left([], later) == []
  {
  }

  lemma ReadyKeepsOrder(order: seq<Proposal>, ready: seq<Proposal>, depends: Dependencies)
    requires ParentsFirst(order, depends)
    requires forall p :: p in ready ==> IsReady(p, depends, IdsOf(order))
    ensures ParentsFirst(order + ready, depends)
  {
    var longer := order + ready;
    forall i | 0 <= i < |longer| && longer[i].id in depends && depends[longer[i].id].Some?
      ensures Emits(longer[..i], depends[longer[i].id].value)
    {
      var parent := depends[longer[i].id].value;
      if i < |order| {
        assert longer[..i] == order[..i];
      } else {
        assert longer[i] == ready[i - |order|] && IsReady(longer[i], depends, IdsOf(order));
        var j :| 0 <= j < |order| && order[j].id == parent;
        assert longer[..i][j].id == parent;
      }
    }
  }

  // --- ordering: generation by generation -------------------------------------------------------

  /** Exactly k ancestors. */
  predicate IsGeneration(depends: Dependencies, id: Id, k: nat) {
    Ancestor(depends, id, k).Some? && Ancestor(depends, id, k + 1).None?
  }

  /** The proposals of one generation, in their order. */
  function OfGeneration(ps: seq<Proposal>, depends: Dependencies, k: nat): seq<Proposal> {
    if ps == [] then []
    else
      var last := ps[|ps| - 1];
      OfGeneration(ps[..|ps| - 1], depends, k) + if IsGeneration(depends, last.id, k) then [last] else []
  }

  /** The proposals with k ancestors or more, in their order. */
  function Deep(ps: seq<Proposal>, depends: Dependencies, k: nat): seq<Proposal> {
    if ps == [] then []
    else
      var last := ps[|ps| - 1];
      Deep(ps[..|ps| - 1], depends, k) + if Ancestor(depends, last.id, k).Some? then [last] else []
  }

  /** One generation after the other, and within each the order of the batch. */
  ghost predicate ByGeneration(order: seq<Proposal>, batch: seq<Proposal>, depends: Dependencies) {
    && Descends(order, depends)
    && forall k: nat :: OfGeneration(order, depends, k) == OfGeneration(batch, depends, k)
  }

  ghost predicate Descends(order: seq<Proposal>, depends: Dependencies) {
    forall i, j, a: nat, b: nat ::
      0 <= i < j < |order| && IsGeneration(depends, order[i].id, a) && IsGeneration(depends, order[j].id, b) ==>
        a <= b
  }

  lemma {:induction false} FewerAncestors(depends: Dependencies, id: Id, j: nat, k: nat)
    requires j <= k && Ancestor(depends, id, k).Some?
    ensures Ancestor(depends, id, j).Some?
    decreases k
  {
    if j > 0 {
      FewerAncestors(depends, depends[id].value, j - 1, k - 1);
    }
  }

  lemma OneGeneration(depends: Dependencies, id: Id, j: nat, k: nat)
    requires IsGeneration(depends, id, j) && IsGeneration(depends, id, k)
    ensures j == k
  {
    if j < k {
      FewerAncestors(depends, id, j + 1, k);
    } else if k < j {
      FewerAncestors(depends, id, k + 1, j);
    }
  }

  lemma {:induction false} GenerationOfBoth(a: seq<Proposal>, b: seq<Proposal>, depends: Dependencies, k: nat)
    ensures OfGeneration(a + b, depends, k) == OfGeneration(a, depends, k) + OfGeneration(b, depends, k)
  {
    hide IsGeneration;
    if b == [] {
      assert a + b == a;
    } else {
      GenerationOfBoth(a, b[..|b| - 1], depends, k);
      assert (a + b)[..|a + b| - 1] == a + b[..|b| - 1];
    }
  }

  lemma {:induction false} GenerationMembers(ps: seq<Proposal>, depends: Dependencies, k: nat)
    ensures forall p :: p in OfGeneration(ps, depends, k) <==> p in ps && IsGeneration(depends, p.id, k)
  {
    hide IsGeneration;
    if ps != [] {
      var init, last := ps[..|ps| - 1], ps[|ps| - 1];
      GenerationMembers(init, depends, k);
      assert ps == init + [last];
    }
  }

  lemma {:induction false} GenerationAlone(ps: seq<Proposal>, depends: Dependencies, j: nat, k: nat)
    requires forall p :: p in ps ==> IsGeneration(depends, p.id, j)
    ensures OfGeneration(ps, depends, k) == if j == k then ps else []
  {
    if ps != [] {
      var init, last := ps[..|ps| - 1], ps[|ps| - 1];
      assert ps == init + [last] && last in ps;
      GenerationAlone(init, depends, j, k);
      if IsGeneration(depends, last.id, k) {
        OneGeneration(depends, last.id, j, k);
      }
    }
  }

  lemma {:induction false} DeepMembers(ps: seq<Proposal>, depends: Dependencies, k: nat)
    ensures forall p :: p in Deep(ps, depends, k) <==> p in ps && Ancestor(depends, p.id, k).Some?
  {
    if ps != [] {
      var init, last := ps[..|ps| - 1], ps[|ps| - 1];
      DeepMembers(init, depends, k);
      assert ps == init + [last];
    }
  }

  lemma {:induction false} AllAreDeep(ps: seq<Proposal>, depends: Dependencies)
    ensures Deep(ps, depends, 0) == ps
  {
    if ps != [] {
      AllAreDeep(ps[..|ps| - 1], depends);
    }
  }

  /** Those who went before are exactly those with fewer than k ancestors. */
  ghost predicate Shallow(emitted: set<Id>, depends: Dependencies, k: nat) {
    forall id :: id in emitted <==> id in depends && Ancestor(depends, id, k).None?
  }

  /** Whoever waits for nobody left, after k generations, belongs to generation k. */
  lemma ReadyMeansGeneration(p: Proposal, depends: Dependencies, emitted: set<Id>, k: nat)
    requires Closed(depends) && Shallow(emitted, depends, k) && p.id in depends && Ancestor(depends, p.id, k).Some?
    ensures IsReady(p, depends, emitted) <==> IsGeneration(depends, p.id, k)
  {
    assert depends[p.id].Some? ==> Ancestor(depends, p.id, k + 1) == Ancestor(depends, depends[p.id].value, k);
  }

  lemma OneDeeper(init: seq<Proposal>, last: Proposal, depends: Dependencies, k: nat)
    ensures Deep([], depends, k) == [] && OfGeneration([], depends, k) == []
    ensures Deep(init + [last], depends, k)
            == Deep(init, depends, k) + if Ancestor(depends, last.id, k).Some? then [last] else []
    ensures OfGeneration(init + [last], depends, k)
            == OfGeneration(init, depends, k) + if IsGeneration(depends, last.id, k) then [last] else []
  {
    hide IsGeneration, Ancestor;
    assert (init + [last])[..|init|] == init;
  }

  lemma {:induction false} ReadyIsGeneration(ps: seq<Proposal>, depends: Dependencies, emitted: set<Id>, k: nat)
    requires Closed(depends) && Shallow(emitted, depends, k) && forall p :: p in ps ==> p.id in depends
    ensures Ready(Deep(ps, depends, k), depends, emitted) == OfGeneration(ps, depends, k)
  {
    hide Closed, Shallow, IsReady, Ready, Ancestor, Deep, OfGeneration;
    NothingReady(depends, emitted, {});
    if ps == [] {
      OneDeeper([], Proposal(0, None, ""), depends, k);
    } else {
      var init, last := ps[..|ps| - 1], ps[|ps| - 1];
      assert ps == init + [last] && last in ps;
      ReadyIsGeneration(init, depends, emitted, k);
      OneDeeper(init, last, depends, k);
      ReadyOneMore(Deep(init, depends, k), last, depends, emitted, {});
      if Ancestor(depends, last.id, k).Some? {
        ReadyMeansGeneration(last, depends, emitted, k);
      } else {
        assert Deep(init, depends, k) + [] == Deep(init, depends, k);
      }
    }
  }

  lemma {:induction false} LeftIsDeep(ps: seq<Proposal>, depends: Dependencies, emitted: set<Id>, k: nat)
    requires Shallow(emitted, depends, k + 1) && forall p :: p in ps ==> p.id in depends
    ensures Left(Deep(ps, depends, k), emitted) == Deep(ps, depends, k + 1)
  {
    hide Left, Ancestor, Deep, OfGeneration;
    NothingReady(depends, emitted, emitted);
    if ps == [] {
      OneDeeper([], Proposal(0, None, ""), depends, k);
      OneDeeper([], Proposal(0, None, ""), depends, k + 1);
    } else {
      var init, last := ps[..|ps| - 1], ps[|ps| - 1];
      assert ps == init + [last] && last in ps;
      LeftIsDeep(init, depends, emitted, k);
      OneDeeper(init, last, depends, k);
      OneDeeper(init, last, depends, k + 1);
      ReadyOneMore(Deep(init, depends, k), last, depends, emitted, emitted);
      if Ancestor(depends, last.id, k + 1).Some? {
        FewerAncestors(depends, last.id, k, k + 1);
      }
      assert Deep(init, depends, k) + [] == Deep(init, depends, k);
    }
  }

  lemma GoneSoFar(batch: seq<Proposal>, depends: Dependencies, emitted: set<Id>, k: nat)
    requires Shallow(emitted, depends, k) && depends.Keys == IdsOf(batch)
    ensures Shallow(emitted + IdsOf(OfGeneration(batch, depends, k)), depends, k + 1)
  {
    hide IdsOf, OfGeneration, Ancestor;
    var wave := OfGeneration(batch, depends, k);
    GenerationMembers(batch, depends, k);
    BatchIds(wave);
    forall id
      ensures id in emitted + IdsOf(wave) <==> id in depends && Ancestor(depends, id, k + 1).None?
    {
      if id in IdsOf(wave) {
        var p := OneOf(wave, id);
        assert p in batch;
        BatchIds(batch);
      }
      if id in depends && Ancestor(depends, id, k + 1).None? && Ancestor(depends, id, k).Some? {
        var p := OneOf(batch, id);
        assert p in wave;
      }
      if Ancestor(depends, id, k + 1).Some? {
        FewerAncestors(depends, id, k, k + 1);
      }
    }
  }

  /** What the loop keeps beside: the first k generations stand there, one after the other. */
  ghost predicate Waves(order: seq<Proposal>, batch: seq<Proposal>, depends: Dependencies, k: nat) {
    && Descends(order, depends) && Earlier(order, depends, k)
    && forall j: nat ::
         OfGeneration(order, depends, j) == if j < k then OfGeneration(batch, depends, j) else []
  }

  /** All of them have fewer than k ancestors. */
  ghost predicate Earlier(order: seq<Proposal>, depends: Dependencies, k: nat) {
    forall p :: p in order ==> exists j: nat :: j < k && IsGeneration(depends, p.id, j)
  }

  lemma EarlierToo(order: seq<Proposal>, wave: seq<Proposal>, depends: Dependencies, k: nat)
    requires Earlier(order, depends, k) && forall p :: p in wave ==> IsGeneration(depends, p.id, k)
    ensures Earlier(order + wave, depends, k + 1)
  {
    hide IsGeneration;
    forall p | p in order + wave
      ensures exists j: nat :: j < k + 1 && IsGeneration(depends, p.id, j)
    {
      if p in wave {
        assert IsGeneration(depends, p.id, k);
      } else {
        var j: nat :| j < k && IsGeneration(depends, p.id, j);
        assert j < k + 1;
      }
    }
  }

  lemma NoWavesYet(batch: seq<Proposal>, depends: Dependencies)
    ensures Waves([], batch, depends, 0) && Shallow({}, depends, 0)
  {
  }

  lemma DescendsFurther(order: seq<Proposal>, wave: seq<Proposal>, depends: Dependencies, k: nat)
    requires Descends(order, depends) && Earlier(order, depends, k)
    requires forall p :: p in wave ==> IsGeneration(depends, p.id, k)
    ensures Descends(order + wave, depends)
  {
    hide IsGeneration;
    var longer := order + wave;
    forall i, j, a: nat, b: nat | 0 <= i < j < |longer|
      && IsGeneration(depends, longer[i].id, a) && IsGeneration(depends, longer[j].id, b)
      ensures a <= b
    {
      if j < |order| {
        assert longer[i] == order[i] && longer[j] == order[j];
      } else {
        assert longer[j] in wave;
        OneGeneration(depends, longer[j].id, k, b);
        if i < |order| {
          assert longer[i] in order;
          var c: nat :| c < k && IsGeneration(depends, longer[i].id, c);
          OneGeneration(depends, longer[i].id, a, c);
        } else {
          assert longer[i] in wave;
          OneGeneration(depends, longer[i].id, a, k);
        }
      }
    }
  }

  lemma OneWaveMore(order: seq<Proposal>, batch: seq<Proposal>, depends: Dependencies, k: nat)
    requires Waves(order, batch, depends, k)
    ensures Waves(order + OfGeneration(batch, depends, k), batch, depends, k + 1)
  {
    hide IsGeneration, OfGeneration, Descends, Earlier;
    var wave := OfGeneration(batch, depends, k);
    GenerationMembers(batch, depends, k);
    DescendsFurther(order, wave, depends, k);
    EarlierToo(order, wave, depends, k);
    forall j: nat
      ensures OfGeneration(order + wave, depends, j)
              == if j < k + 1 then OfGeneration(batch, depends, j) else []
    {
      GenerationOfBoth(order, wave, depends, j);
      GenerationAlone(wave, depends, k, j);
    }
  }

  lemma SomethingIn(ps: seq<Proposal>)
    ensures ps == [] || exists p :: p in ps
  {
    assert ps != [] ==> ps[0] in ps;
  }

  lemma AllWaves(order: seq<Proposal>, batch: seq<Proposal>, depends: Dependencies, k: nat)
    requires Waves(order, batch, depends, k) && Deep(batch, depends, k) == []
    ensures ByGeneration(order, batch, depends)
  {
    hide OfGeneration, Descends, Deep, Ancestor;
    DeepMembers(batch, depends, k);
    forall j: nat
      ensures OfGeneration(order, depends, j) == OfGeneration(batch, depends, j)
    {
      if j >= k {
        GenerationMembers(batch, depends, j);
        forall p
          ensures p !in OfGeneration(batch, depends, j)
        {
          assert p !in Deep(batch, depends, k);
          if Ancestor(depends, p.id, j).Some? {
            FewerAncestors(depends, p.id, k, j);
          }
        }
        SomethingIn(OfGeneration(batch, depends, j));
      }
    }
  }

  // --- ordering: the loops ----------------------------------------------------------------------

  /** No proposal names a sibling outside the batch. */
  predicate StaysInside(batch: seq<Proposal>) {
    forall i :: 0 <= i < |batch| && SiblingOf(batch[i]).Some? ==>
      Emits(batch, SiblingOf(batch[i]).value)
  }

  lemma {:induction false} DependsOnSiblings(batch: seq<Proposal>, id: Id)
    requires id in DependenciesOf(batch)
    ensures exists i :: 0 <= i < |batch| && batch[i].id == id && DependenciesOf(batch)[id] == SiblingOf(batch[i])
  {
    var init, last := batch[..|batch| - 1], batch[|batch| - 1];
    assert batch == init + [last];
    if last.id == id {
      assert batch[|batch| - 1].id == id;
    } else {
      DependsOnSiblings(init, id);
      var i :| 0 <= i < |init| && init[i].id == id && DependenciesOf(init)[id] == SiblingOf(init[i]);
      assert batch[i] == init[i];
    }
  }

  lemma InsideMeansClosed(batch: seq<Proposal>)
    requires StaysInside(batch)
    ensures Closed(DependenciesOf(batch))
  {
    forall id | id in DependenciesOf(batch) && DependenciesOf(batch)[id].Some?
      ensures DependenciesOf(batch)[id].value in DependenciesOf(batch)
    {
      DependsOnSiblings(batch, id);
    }
  }

  /** Order a batch so that a parent is applied before any child that names it: generation by
      generation, and within each as the batch has them. */
  method OrderProposals(batch: seq<Proposal>) returns (r: Result<seq<Proposal>, Refused>)
    ensures r.Ok? <==> StaysInside(batch) && !Loops(DependenciesOf(batch))
    ensures r == Err(OutsideTheBatch) <==> !StaysInside(batch)
    ensures r.Ok? ==> multiset(r.value) == multiset(batch) && ParentsFirst(r.value, DependenciesOf(batch))
    ensures r.Ok? ==> ByGeneration(r.value, batch, DependenciesOf(batch))
  {
    hide Loops, ParentsFirst, ByGeneration;
    var depends := DependenciesOf(batch);
    for i := 0 to |batch|
      invariant forall j :: 0 <= j < i && SiblingOf(batch[j]).Some? ==> Emits(batch, SiblingOf(batch[j]).value)
    {
      if SiblingOf(batch[i]).Some? && SiblingOf(batch[i]).value !in depends {
        return Err(OutsideTheBatch);
      }
    }
    InsideMeansClosed(batch);
    r := EmitAll(batch, depends);
  }

  /** Kahn's loop: whoever waits for nobody that is still left goes next. */
  method EmitAll(batch: seq<Proposal>, depends: Dependencies) returns (r: Result<seq<Proposal>, Refused>)
    requires Closed(depends) && depends.Keys == IdsOf(batch)
    ensures r == Err(Circular) || r.Ok?
    ensures r.Ok? <==> !Loops(depends)
    ensures r.Ok? ==> multiset(r.value) == multiset(batch) && ParentsFirst(r.value, depends)
    ensures r.Ok? ==> ByGeneration(r.value, batch, depends)
  {
    hide Loops, Closed, IsReady, Ready, Left, IdsOf, Underway, Waves, Shallow, Deep, OfGeneration, ByGeneration;
    var ordered: seq<Proposal>, remaining := [], batch;
    var emitted: set<Id> := {};
    ghost var waves: nat := 0;
    NothingOrdered(batch, depends);
    NoWavesYet(batch, depends);
    AllAreDeep(batch, depends);
    BatchIds(batch);
    while remaining != []
      invariant emitted == IdsOf(ordered) && Underway(batch, depends, ordered, remaining)
      invariant Waves(ordered, batch, depends, waves) && Shallow(emitted, depends, waves)
      invariant remaining == Deep(batch, depends, waves)
      decreases |remaining|
    {
      ReadyIsGeneration(batch, depends, emitted, waves);
      OneWaveMore(ordered, batch, depends, waves);
      GoneSoFar(batch, depends, emitted, waves);
      LeftIsDeep(batch, depends, emitted + IdsOf(OfGeneration(batch, depends, waves)), waves);
      var ready := Ready(remaining, depends, emitted);
      if ready == [] {
        NobodyReady(batch, depends, ordered, remaining);
        return Err(Circular);
      }
      SomeReady(batch, depends, ordered, remaining);
      ordered := ordered + ready;
      emitted := emitted + IdsOf(ready);
      remaining := Left(remaining, emitted);
      waves := waves + 1;
    }
    AllWaves(ordered, batch, depends, waves);
    AllOrdered(batch, depends, ordered);
    return Ok(ordered);
  }

  /** What the loop keeps: nothing lost, parents first, and whoever is left is not emitted. */
  ghost predicate Underway(batch: seq<Proposal>, depends: Dependencies, ordered: seq<Proposal>,
                           remaining: seq<Proposal>)
  {
    && ParentsFirst(ordered, depends)
    && multiset(ordered) + multiset(remaining) == multiset(batch)
    && (forall p :: p in remaining ==> p.id in depends && p.id !in IdsOf(ordered))
    && (forall id :: id in depends ==> id in IdsOf(ordered) || id in IdsOf(remaining))
  }

  lemma NothingOrdered(batch: seq<Proposal>, depends: Dependencies)
    requires depends.Keys == IdsOf(batch)
    ensures IdsOf([]) == {} && Underway(batch, depends, [], batch)
  {
    hide IdsOf;
    BatchIds(batch);
    BatchIds([]);
  }

  lemma NobodyReady(batch: seq<Proposal>, depends: Dependencies, ordered: seq<Proposal>, remaining: seq<Proposal>)
    requires remaining != [] && Closed(depends) && Underway(batch, depends, ordered, remaining)
    requires Ready(remaining, depends, IdsOf(ordered)) == []
    ensures Loops(depends)
  {
    hide Ready, IdsOf, ParentsFirst, Loops;
    BatchIds(remaining);
    NoneReady(remaining, depends, IdsOf(ordered));
    forall id | id in IdsOf(remaining)
      ensures id in depends && depends[id].Some? && depends[id].value in IdsOf(remaining)
    {
      var p := OneOf(remaining, id);
      assert !IsReady(p, depends, IdsOf(ordered));
    }
    StuckMeansLoop(depends, IdsOf(remaining));
  }

  lemma NoneReady(remaining: seq<Proposal>, depends: Dependencies, emitted: set<Id>)
    requires Ready(remaining, depends, emitted) == []
    ensures forall p :: p in remaining ==> !IsReady(p, depends, emitted)
  {
    hide IsReady;
  }

  lemma OneOf(ps: seq<Proposal>, id: Id) returns (p: Proposal)
    requires id in IdsOf(ps)
    ensures p in ps && p.id == id
  {
    var i :| 0 <= i < |ps| && ps[i].id == id;
    p := ps[i];
  }

  lemma SomeReady(batch: seq<Proposal>, depends: Dependencies, ordered: seq<Proposal>, remaining: seq<Proposal>)
    requires Underway(batch, depends, ordered, remaining) && Ready(remaining, depends, IdsOf(ordered)) != []
    ensures var ready := Ready(remaining, depends, IdsOf(ordered));
            var left := Left(remaining, IdsOf(ordered) + IdsOf(ready));
            && Underway(batch, depends, ordered + ready, left)
            && IdsOf(ordered + ready) == IdsOf(ordered) + IdsOf(ready)
            && |left| < |remaining|
  {
    hide Ready, Left, IdsOf, IsReady, ParentsFirst;
    var ready := Ready(remaining, depends, IdsOf(ordered));
    var emitted := IdsOf(ordered) + IdsOf(ready);
    Emitted(remaining, ready, depends, IdsOf(ordered));
    ReadyAndLeft(remaining, depends, IdsOf(ordered), emitted);
    ReadyKeepsOrder(ordered, ready, depends);
    IdsOfBoth(ordered, ready);
    BatchIds(ready);
    assert ready[0] in ready;
    LeftIds(remaining, emitted, Left(remaining, emitted));
    CountsKept(ordered, remaining, batch, ready, Left(remaining, emitted));
  }

  lemma CountsKept(ordered: seq<Proposal>, remaining: seq<Proposal>, batch: seq<Proposal>, ready: seq<Proposal>,
                   left: seq<Proposal>)
    requires multiset(ordered) + multiset(remaining) == multiset(batch)
    requires multiset(ready) + multiset(left) == multiset(remaining)
    ensures multiset(ordered + ready) + multiset(left) == multiset(batch)
  {
    assert multiset(ordered + ready) == multiset(ordered) + multiset(ready);
  }

  lemma AllOrdered(batch: seq<Proposal>, depends: Dependencies, ordered: seq<Proposal>)
    requires Underway(batch, depends, ordered, [])
    ensures multiset(ordered) == multiset(batch) && ParentsFirst(ordered, depends) && !Loops(depends)
  {
    hide ParentsFirst, Loops, IdsOf;
    BatchIds([]);
    AllEmitted(ordered, depends);
    OrderedMeansNoLoops(ordered, depends);
  }

  lemma BatchIds(ps: seq<Proposal>)
    ensures forall p :: p in ps ==> p.id in IdsOf(ps)
    ensures ps == [] <==> IdsOf(ps) == {}
  {
    if ps != [] {
      assert ps[0] in ps;
    }
  }

  /** The new ones are exactly the ready ones. */
  lemma Emitted(remaining: seq<Proposal>, ready: seq<Proposal>, depends: Dependencies, emitted: set<Id>)
    requires ready == Ready(remaining, depends, emitted)
    requires forall p :: p in remaining ==> p.id in depends && p.id !in emitted
    ensures forall p :: p in remaining ==> (p.id in emitted + IdsOf(ready) <==> IsReady(p, depends, emitted))
    ensures forall p :: p in ready ==> IsReady(p, depends, emitted)
  {
    hide Ready;
    forall p | p in remaining
      ensures p.id in emitted + IdsOf(ready) <==> IsReady(p, depends, emitted)
    {
      if p.id in IdsOf(ready) {
        var i :| 0 <= i < |ready| && ready[i].id == p.id;
        assert ready[i] in ready;
      }
      if IsReady(p, depends, emitted) {
        assert p in ready;
      }
    }
  }

  lemma IdsOfBoth(a: seq<Proposal>, b: seq<Proposal>)
    ensures IdsOf(a + b) == IdsOf(a) + IdsOf(b)
  {
    assert forall p :: p in a + b <==> p in a || p in b;
  }

  lemma LeftIds(remaining: seq<Proposal>, emitted: set<Id>, left: seq<Proposal>)
    requires left == Left(remaining, emitted)
    ensures forall id :: id in IdsOf(remaining) ==> id in emitted || id in IdsOf(left)
  {
    hide Left;
  }

  lemma AllEmitted(order: seq<Proposal>, depends: Dependencies)
    requires forall id :: id in depends ==> id in IdsOf(order)
    ensures forall id :: id in depends ==> Emits(order, id)
  {
  }

  // --- applying: the graph ------------------------------------------------------------------------

  /** The nodes, whether each was deleted, and which is contained in which; beside them, which
      staged change created which node and which ones are still pending. */
  datatype Graph = Graph(
    deleted: map<Id, bool>, edges: set<(Id, Id)>, created: map<Id, Id>, pending: set<Id>)

  predicate Alive(g: Graph, node: Id) {
    node in g.deleted && !g.deleted[node]
  }

  /** A way along the edges, from a node to itself. */
  predicate IsRound(edges: set<(Id, Id)>, way: seq<Id>) {
    && |way| >= 2 && way[0] == way[|way| - 1]
    && forall i :: 0 <= i < |way| - 1 ==> (way[i], way[i + 1]) in edges
  }

  ghost predicate Acyclic(edges: set<(Id, Id)>) {
    forall way :: !IsRound(edges, way)
  }

  /** Containment is a forest over the nodes: one parent at most, and nothing inside itself. */
  ghost predicate Forest(g: Graph) {
    && (forall e :: e in g.edges ==> e.0 in g.deleted && e.1 in g.deleted)
    && (forall e, f :: e in g.edges && f in g.edges && e.0 == f.0 ==> e.1 == f.1)
    && Acyclic(g.edges)
  }

  /** The node a proposal is to be contained in, or why it may not be created. */
  function ParentNode(g: Graph, p: Proposal): Result<Option<Id>, Refused> {
    if p.parent.None? || (p.parent.value.nodeId.None? && p.parent.value.proposalId.None?) then Ok(None)
    else if p.parent.value.nodeId.Some? then
      if Alive(g, p.parent.value.nodeId.value) then Ok(p.parent.value.nodeId) else Err(ParentGone)
    else
      var sibling := p.parent.value.proposalId.value;
      if sibling !in g.created then Err(ParentMissing)
      else if sibling !in g.pending then Err(ApprovedSeparately)
      else if Alive(g, g.created[sibling]) then Ok(Some(g.created[sibling]))
      else Err(ParentGone)
  }

  /** The create branch: a node, its mark on the proposal, and then the edge. */
  function Created(g: Graph, p: Proposal, given: Id): Result<Graph, Refused> {
    if p.id in g.created then Ok(g)
    else
      var made := g.(deleted := g.deleted[given := false], created := g.created[p.id := given]);
      match ParentNode(made, p)
      case Err(e) => Err(e)
      case Ok(None) => Ok(made)
      case Ok(Some(parent)) => Ok(made.(edges := made.edges + {(given, parent)}))
  }

  /** The proposals of a batch one after the other; any refusal undoes the whole batch. */
  function CreatedAll(g: Graph, ps: seq<Proposal>, given: seq<Id>): Result<Graph, Refused>
    requires |given| == |ps|
  {
    if ps == [] then Ok(g)
    else
      var last := |ps| - 1;
      match CreatedAll(g, ps[..last], given[..last])
      case Err(e) => Err(e)
      case Ok(before) => Created(before, ps[last], given[last])
  }

  class Session {
    var graph: Graph

    constructor (graph: Graph)
      ensures this.graph == graph
    {
      this.graph := graph;
    }

    /** Create one node; `given` is the identifier the store gave it. */
    method ApplyCreate(p: Proposal, given: Id) returns (r: Result<(), Refused>)
      modifies this
      ensures match Created(old(graph), p, given)
              case Ok(after) => r.Ok? && graph == after
              case Err(e) => r == Err(e)
    {
      if p.id in graph.created {
        return Ok(());
      }
      graph := graph.(deleted := graph.deleted[given := false]);
      graph := graph.(created := graph.created[p.id := given]);
      var parent := ParentNode(graph, p);
      if parent.Err? {
        return Err(parent.error);
      }
      if parent.value.Some? {
        graph := graph.(edges := graph.edges + {(given, parent.value.value)});
      }
      return Ok(());
    }

    /** The transaction around a batch. */
    method ApplyBatch(ps: seq<Proposal>, given: seq<Id>) returns (r: Result<(), Refused>)
      requires |given| == |ps|
      modifies this
      ensures r.Ok? <==> CreatedAll(old(graph), ps, given).Ok?
      ensures graph == if r.Ok? then CreatedAll(old(graph), ps, given).value else old(graph)
    {
      var start := graph;
      for i := 0 to |ps|
        invariant CreatedAll(start, ps[..i], given[..i]) == Ok(graph)
      {
        assert ps[..i + 1][..i] == ps[..i] && given[..i + 1][..i] == given[..i];
        var applied := ApplyCreate(ps[i], given[i]);
        if applied.Err? {
          StaysRefused(start, ps, given, i + 1);
          graph := start;
          return Err(applied.error);
        }
      }
      assert ps[..|ps|] == ps && given[..|ps|] == given;
      return Ok(());
    }
  }

  lemma {:induction false} StaysRefused(g: Graph, ps: seq<Proposal>, given: seq<Id>, i: nat)
    requires i <= |ps| == |given| && CreatedAll(g, ps[..i], given[..i]).Err?
    ensures CreatedAll(g, ps, given).Err?
    decreases |ps| - i
  {
    if i == |ps| {
      assert ps[..i] == ps && given[..i] == given;
    } else {
      assert ps[..i + 1][..i] == ps[..i] && given[..i + 1][..i] == given[..i];
      StaysRefused(g, ps, given, i + 1);
    }
  }

  // --- applying: what a batch leaves behind -----------------------------------------------------------

  /** A node nobody is contained in yet can be hung anywhere else without closing a round. */
  lemma HangingKeepsAcyclic(edges: set<(Id, Id)>, child: Id, parent: Id)
    requires Acyclic(edges) && child != parent && forall e :: e in edges ==> e.1 != child
    ensures Acyclic(edges + {(child, parent)})
  {
    forall way
      ensures !IsRound(edges + {(child, parent)}, way)
    {
      if IsRound(edges + {(child, parent)}, way) {
        forall i | 0 <= i < |way| - 1
          ensures (way[i], way[i + 1]) in edges
        {
          var before := if i > 0 then i - 1 else |way| - 2;
          assert (way[before], way[before + 1]) in edges + {(child, parent)};
          assert way[before + 1] == way[i];
        }
        assert IsRound(edges, way);
      }
    }
  }

  /** The node a proposal names as its home, once everything it names exists. */
  function HomeOf(g: Graph, p: Proposal): Option<Id> {
    if p.parent.None? then None
    else if p.parent.value.nodeId.Some? then p.parent.value.nodeId
    else if p.parent.value.proposalId.Some? && p.parent.value.proposalId.value in g.created
    then Some(g.created[p.parent.value.proposalId.value])
    else None
  }

  predicate NamesAHome(p: Proposal) {
    p.parent.Some? && (p.parent.value.nodeId.Some? || p.parent.value.proposalId.Some?)
  }

  /** Marks on proposals point at nodes. */
  predicate Marked(g: Graph) {
    forall id :: id in g.created ==> g.created[id] in g.deleted
  }

  /** What one proposal needs in order to be created where it says. */
  predicate HomeStands(g: Graph, p: Proposal, given: Id) {
    && given !in g.deleted
    && (p.parent.Some? && p.parent.value.nodeId.Some? ==> Alive(g, p.parent.value.nodeId.value))
    && (p.parent.Some? && p.parent.value.nodeId.None? && p.parent.value.proposalId.Some? ==>
          && p.parent.value.proposalId.value != p.id
          && p.parent.value.proposalId.value in g.created && p.parent.value.proposalId.value in g.pending
          && Alive(g, g.created[p.parent.value.proposalId.value]))
  }

  /** Creating a node keeps the forest and hangs the node where it says. */
  lemma CreationKeepsForest(g: Graph, p: Proposal, given: Id)
    requires Forest(g) && Marked(g) && p.id !in g.created && HomeStands(g, p, given)
    ensures Created(g, p, given).Ok?
    ensures var h := Created(g, p, given).value;
            && Forest(h) && Marked(h)
            && h.deleted == g.deleted[given := false] && h.pending == g.pending
            && h.created == g.created[p.id := given]
            && g.edges <= h.edges
            && Hangs(h, p, given) && (!NamesAHome(p) ==> h.edges == g.edges)
  {
    hide Acyclic;
    var made := g.(deleted := g.deleted[given := false], created := g.created[p.id := given]);
    var parent := ParentNode(made, p);
    if parent.value.Some? {
      HangingKeepsAcyclic(g.edges, given, parent.value.value);
    }
  }

  /** The proposal is its own parent. Staging makes none such, and no ordered batch holds one. */
  predicate NamesItself(p: Proposal) {
    p.parent.Some? && p.parent.value.nodeId.None? && p.parent.value.proposalId == Some(p.id)
  }

  /** An identifier that stands nowhere yet, not even in the proposal. */
  predicate IsNewFor(g: Graph, p: Proposal, given: Id) {
    given !in g.deleted && (p.parent.Some? ==> p.parent.value.nodeId != Some(given))
  }

  /** By itself, the create branch succeeds exactly when the home stands or the proposal is its own
      home, and what it succeeds with is a forest exactly when the proposal is not its own home. */
  lemma CreationKeepsForestExactly(g: Graph, p: Proposal, given: Id)
    requires Forest(g) && Marked(g) && p.id !in g.created && IsNewFor(g, p, given)
    ensures Created(g, p, given).Ok? <==> HomeStands(g, p, given) || (NamesItself(p) && p.id in g.pending)
    ensures Created(g, p, given).Ok? ==> (Forest(Created(g, p, given).value) <==> !NamesItself(p))
  {
    hide Acyclic;
    if HomeStands(g, p, given) {
      CreationKeepsForest(g, p, given);
    } else if Created(g, p, given).Ok? {
      assert (given, given) in Created(g, p, given).value.edges;
      LoopIsARound(Created(g, p, given).value.edges, given);
    }
  }

  lemma LoopIsARound(edges: set<(Id, Id)>, node: Id)
    requires (node, node) in edges
    ensures !Acyclic(edges)
  {
    assert IsRound(edges, [node, node]);
  }

  /** An ordered batch that can be applied: pending, with homes that stand, and new identifiers. */
  ghost predicate Applicable(g: Graph, ps: seq<Proposal>, depends: Dependencies, given: seq<Id>) {
    && Forest(g) && Marked(g) && |given| == |ps|
    && ParentsFirst(ps, depends)
    && (forall i :: 0 <= i < |ps| ==> ps[i].id in depends && depends[ps[i].id] == SiblingOf(ps[i]))
    && (forall i, j :: 0 <= i < j < |ps| ==> ps[i].id != ps[j].id)
    && (forall i :: 0 <= i < |ps| ==> ps[i].id in g.pending && ps[i].id !in g.created)
    && (forall i :: 0 <= i < |ps| && ps[i].parent.Some? && ps[i].parent.value.nodeId.Some? ==>
        Alive(g, ps[i].parent.value.nodeId.value))
    && (forall i :: 0 <= i < |given| ==> given[i] !in g.deleted)
    && (forall i, j :: 0 <= i < j < |given| ==> given[i] != given[j])
  }

  /** The old nodes as they were, and the new ones alive. */
  ghost predicate NodesAfter(g: Graph, used: seq<Id>, h: Graph) {
    && (forall n :: n in h.deleted <==> n in g.deleted || n in used)
    && (forall n :: n in g.deleted ==> h.deleted[n] == g.deleted[n])
    && (forall n :: n in used ==> Alive(h, n))
  }

  ghost predicate MarksAfter(g: Graph, ps: seq<Proposal>, used: seq<Id>, h: Graph)
    requires |used| == |ps|
  {
    && (forall id :: id in h.created <==> id in g.created || Emits(ps, id))
    && (forall i :: 0 <= i < |ps| ==> ps[i].id in h.created && h.created[ps[i].id] == used[i])
  }

  predicate Hangs(h: Graph, p: Proposal, node: Id) {
    NamesAHome(p) ==> HomeOf(h, p).Some? && (node, HomeOf(h, p).value) in h.edges && Alive(h, HomeOf(h, p).value)
  }

  ghost predicate HomesAfter(ps: seq<Proposal>, used: seq<Id>, h: Graph)
    requires |used| == |ps|
  {
    forall i :: 0 <= i < |ps| ==> Hangs(h, ps[i], used[i])
  }

  /** The state after the first k proposals of a batch. */
  ghost predicate Applied(g: Graph, ps: seq<Proposal>, given: seq<Id>, k: nat, h: Graph)
    requires k <= |ps| == |given|
  {
    && CreatedAll(g, ps[..k], given[..k]) == Ok(h) && Forest(h) && Marked(h) && h.pending == g.pending
    && NodesAfter(g, given[..k], h) && MarksAfter(g, ps[..k], given[..k], h) && g.edges <= h.edges
    && HomesAfter(ps[..k], given[..k], h)
  }

  lemma NodesNext(g: Graph, used: seq<Id>, h: Graph, node: Id, next: Graph)
    requires NodesAfter(g, used, h) && node !in h.deleted && next.deleted == h.deleted[node := false]
    ensures NodesAfter(g, used + [node], next)
  {
    assert forall n :: n in used + [node] <==> n in used || n == node;
  }

  lemma MarksNext(g: Graph, ps: seq<Proposal>, used: seq<Id>, h: Graph, p: Proposal, node: Id, next: Graph)
    requires |used| == |ps| && MarksAfter(g, ps, used, h)
    requires p.id !in h.created && next.created == h.created[p.id := node]
    ensures MarksAfter(g, ps + [p], used + [node], next)
  {
    hide Emits;
    EmitsOneMore(ps, p);
  }

  lemma HomesNext(ps: seq<Proposal>, used: seq<Id>, h: Graph, p: Proposal, node: Id, next: Graph)
    requires |used| == |ps| && HomesAfter(ps, used, h) && Hangs(next, p, node)
    requires node !in h.deleted && next.deleted == h.deleted[node := false] && h.edges <= next.edges
    requires p.id !in h.created && next.created == h.created[p.id := node]
    ensures HomesAfter(ps + [p], used + [node], next)
  {
    forall i | 0 <= i < |ps|
      ensures Hangs(next, ps[i], used[i])
    {
      assert Hangs(h, ps[i], used[i]);
      if NamesAHome(ps[i]) {
        assert HomeOf(next, ps[i]) == HomeOf(h, ps[i]);
      }
    }
  }

  lemma HomesStandInOrder(g: Graph, ps: seq<Proposal>, depends: Dependencies, given: seq<Id>, k: nat, h: Graph)
    requires Applicable(g, ps, depends, given) && k < |ps| && Applied(g, ps, given, k, h)
    ensures HomeStands(h, ps[k], given[k]) && ps[k].id !in h.created
  {
    hide Forest, CreatedAll, HomeOf;
    var p := ps[k];
    assert given[k] !in given[..k];
    assert !Emits(ps[..k], p.id);
    if SiblingOf(p).Some? {
      var sibling := SiblingOf(p).value;
      assert Emits(ps[..k], sibling);
      var j :| 0 <= j < k && ps[..k][j].id == sibling;
      assert ps[..k][j] == ps[j] && given[..k][j] == given[j] && given[j] in given[..k];
    }
  }

  lemma AppliedNext(g: Graph, ps: seq<Proposal>, depends: Dependencies, given: seq<Id>, k: nat, h: Graph)
    returns (next: Graph)
    requires Applicable(g, ps, depends, given) && k < |ps| && Applied(g, ps, given, k, h)
    ensures Applied(g, ps, given, k + 1, next)
  {
    hide Forest, Marked, Created, HomeStands, ParentsFirst, NodesAfter, MarksAfter, HomesAfter;
    HomesStandInOrder(g, ps, depends, given, k, h);
    HomeStandsNew(h, ps[k], given[k]);
    CreationKeepsForest(h, ps[k], given[k]);
    next := Created(h, ps[k], given[k]).value;
    assert ps[..k + 1][..k] == ps[..k] && given[..k + 1][..k] == given[..k];
    assert ps[..k + 1] == ps[..k] + [ps[k]] && given[..k + 1] == given[..k] + [given[k]];
    NodesNext(g, given[..k], h, given[k], next);
    MarksNext(g, ps[..k], given[..k], h, ps[k], given[k], next);
    HomesNext(ps[..k], given[..k], h, ps[k], given[k], next);
  }

  lemma HomeStandsNew(g: Graph, p: Proposal, given: Id)
    requires HomeStands(g, p, given)
    ensures given !in g.deleted
  {
  }

  lemma EmitsOneMore(ps: seq<Proposal>, p: Proposal)
    ensures forall id :: Emits(ps + [p], id) <==> Emits(ps, id) || id == p.id
  {
    forall id
      ensures Emits(ps + [p], id) <==> Emits(ps, id) || id == p.id
    {
      if Emits(ps, id) {
        var i :| 0 <= i < |ps| && ps[i].id == id;
        assert (ps + [p])[i].id == id;
      }
      assert (ps + [p])[|ps|] == p;
    }
  }

  /** Every prefix of an ordered batch applies, and leaves a forest without orphans. */
  lemma {:induction false} PrefixesApply(g: Graph, ps: seq<Proposal>, depends: Dependencies, given: seq<Id>, k: nat)
    returns (h: Graph)
    requires Applicable(g, ps, depends, given) && k <= |ps|
    ensures Applied(g, ps, given, k, h)
  {
    hide Applicable, Applied;
    if k == 0 {
      h := g;
      NothingApplied(g, ps, depends, given);
    } else {
      h := PrefixesApply(g, ps, depends, given, k - 1);
      h := AppliedNext(g, ps, depends, given, k - 1, h);
    }
  }

  lemma NothingApplied(g: Graph, ps: seq<Proposal>, depends: Dependencies, given: seq<Id>)
    requires Applicable(g, ps, depends, given)
    ensures Applied(g, ps, given, 0, g)
  {
    hide Forest;
  }

  /** Proposals that were applied before change nothing. */
  lemma {:induction false} ReapplyingChangesNothing(h: Graph, ps: seq<Proposal>, given: seq<Id>)
    requires |given| == |ps| && forall i :: 0 <= i < |ps| ==> ps[i].id in h.created
    ensures CreatedAll(h, ps, given) == Ok(h)
  {
    if ps != [] {
      ReapplyingChangesNothing(h, ps[..|ps| - 1], given[..|given| - 1]);
    }
  }

  /** A batch in the order that the ordering gives it applies as a whole: containment stays a
      forest, every new node that names a home hangs in it and the home is alive, no older node is
      touched, and applying the batch again with any identifiers changes nothing. */
  lemma OrderedBatchesApply(g: Graph, ps: seq<Proposal>, depends: Dependencies, given: seq<Id>, again: seq<Id>)
    returns (h: Graph)
    requires Applicable(g, ps, depends, given) && |again| == |ps|
    ensures CreatedAll(g, ps, given) == Ok(h) && Forest(h)
    ensures forall i :: 0 <= i < |ps| ==> ps[i].id in h.created && h.created[ps[i].id] == given[i] && Alive(h, given[i])
    ensures forall i :: 0 <= i < |ps| ==> Hangs(h, ps[i], given[i])
    ensures g.edges <= h.edges && forall n :: n in g.deleted ==> n in h.deleted && h.deleted[n] == g.deleted[n]
    ensures CreatedAll(h, ps, again) == Ok(h)
  {
    hide Applicable, Forest, CreatedAll, HomeOf;
    h := PrefixesApply(g, ps, depends, given, |ps|);
    assert ps[..|ps|] == ps && given[..|ps|] == given by {
      assert |given| == |ps| by {
        LengthsAgree(g, ps, depends, given);
      }
    }
    ReapplyingChangesNothing(h, ps, again);
  }

  lemma LengthsAgree(g: Graph, ps: seq<Proposal>, depends: Dependencies, given: seq<Id>)
    requires Applicable(g, ps, depends, given)
    ensures |given| == |ps|
  {
  }

  predicate DistinctIds(ps: seq<Proposal>) {
    forall i, j :: 0 <= i < j < |ps| ==> ps[i].id != ps[j].id
  }

  lemma {:induction false} OwnDependency(batch: seq<Proposal>, i: nat)
    requires DistinctIds(batch) && i < |batch|
    ensures batch[i].id in DependenciesOf(batch) && DependenciesOf(batch)[batch[i].id] == SiblingOf(batch[i])
  {
    if i < |batch| - 1 {
      OwnDependency(batch[..|batch| - 1], i);
    }
  }

  lemma {:induction false} DistinctByCount(ps: seq<Proposal>)
    ensures DistinctIds(ps) <==>
            && (forall p :: p in ps ==> multiset(ps)[p] == 1)
            && (forall p, q :: p in ps && q in ps && p.id == q.id ==> p == q)
  {
    hide SiblingOf;
    if ps != [] {
      var init, last := ps[..|ps| - 1], ps[|ps| - 1];
      assert ps == init + [last];
      DistinctByCount(init);
      assert DistinctIds(ps) <==> DistinctIds(init) && forall i :: 0 <= i < |init| ==> init[i].id != last.id;
      assert multiset(ps) == multiset(init) + multiset{last};
      assert forall p :: p in ps <==> p in init || p == last;
      if DistinctIds(ps) {
        assert last !in init;
      } else if DistinctIds(init) {
        var i :| 0 <= i < |init| && init[i].id == last.id;
        assert init[i] in ps && last in ps;
        assert init[i] in init;
      } else if p :| p in init && multiset(init)[p] != 1 {
        assert multiset(init)[p] >= 1;
      }
    }
  }

  /** What the ordering returns can be applied, if what is staged may be applied at all. */
  lemma OrderingsAreApplicable(g: Graph, batch: seq<Proposal>, order: seq<Proposal>, given: seq<Id>)
    requires Forest(g) && Marked(g) && DistinctIds(batch)
    requires multiset(order) == multiset(batch) && ParentsFirst(order, DependenciesOf(batch))
    requires forall p :: p in batch ==>
               && p.id in g.pending && p.id !in g.created
               && (p.parent.Some? && p.parent.value.nodeId.Some? ==> Alive(g, p.parent.value.nodeId.value))
    requires |given| == |order| && (forall i :: 0 <= i < |given| ==> given[i] !in g.deleted)
    requires forall i, j :: 0 <= i < j < |given| ==> given[i] != given[j]
    ensures Applicable(g, order, DependenciesOf(batch), given)
  {
    hide Forest, ParentsFirst, DependenciesOf, Alive, DistinctIds, SiblingOf, Marked;
    SameMembers(batch, order);
    forall i | 0 <= i < |order|
      ensures order[i] in batch
      ensures order[i].id in DependenciesOf(batch) && DependenciesOf(batch)[order[i].id] == SiblingOf(order[i])
    {
      assert order[i] in order;
      var j :| 0 <= j < |batch| && batch[j] == order[i];
      OwnDependency(batch, j);
    }
    assert forall i, j :: 0 <= i < j < |order| ==> order[i].id != order[j].id by {
      DistinctMeans(order);
    }
  }

  lemma DistinctMeans(ps: seq<Proposal>)
    requires DistinctIds(ps)
    ensures forall i, j :: 0 <= i < j < |ps| ==> ps[i].id != ps[j].id
  {
  }

  /** A permutation has the same members, and distinct ones if the other has. */
  lemma SameMembers(batch: seq<Proposal>, order: seq<Proposal>)
    requires multiset(order) == multiset(batch)
    ensures forall p :: p in order <==> p in batch
    ensures DistinctIds(batch) ==> DistinctIds(order)
  {
    hide DistinctIds;
    forall p
      ensures p in order <==> p in batch
    {
      assert p in multiset(order) <==> p in multiset(batch);
    }
    DistinctByCount(batch);
    DistinctByCount(order);
  }
}
