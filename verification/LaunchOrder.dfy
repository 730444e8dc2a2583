/** Launch numbers in the records and launches in the journal: what the numbers that the gate reads
    say about what ran, and when. */
module LaunchOrder {
  import opened Wrappers
  import opened Evidence
  import opened PairCheck
  import opened Driver
  import opened Journal

  /** The i-th step of the run is a launch. */
  predicate IsLaunch(actions: seq<Action>, i: nat) {
    i < |actions| && actions[i].AppendEntry?
  }

  /** The number that a launch put into the journal. */
  function NumberOf(worlds: seq<World>, actions: seq<Action>, i: nat): (number: int)
    requires IsRun(worlds, actions) && IsLaunch(actions, i)
  {
    assert worlds[i + 1] == Apply(worlds[i], actions[i]);
    worlds[i + 1].journal[|worlds[i].journal|].number
  }

  /** Every record with a launch number was made by a launch of its own, and carries its number. */
  predicate ByLaunches(records: map<string, Record>, worlds: seq<World>, actions: seq<Action>, made: map<string, nat>)
    requires IsRun(worlds, actions)
  {
    && (forall id :: id in records && records[id].launchNumber.Some? ==>
          && id in made && IsLaunch(actions, made[id])
          && records[id].launchNumber.value == NumberOf(worlds, actions, made[id]))
    && forall id, other :: id in made && other in made && id != other ==> made[id] != made[other]
  }

  lemma NumberCounts(worlds: seq<World>, actions: seq<Action>, i: nat)
    requires IsRun(worlds, actions) && IsLaunch(actions, i)
    ensures NumberOf(worlds, actions, i) == |worlds[i].journal| + 1 == |worlds[i + 1].journal|
  {
    assert worlds[i + 1] == Apply(worlds[i], actions[i]);
    NumbersAreOneToN(worlds, actions, i + 1, |worlds[i].journal|);
  }

  /** Later launches have larger numbers. */
  lemma NumbersGrow(worlds: seq<World>, actions: seq<Action>, i: nat, j: nat)
    requires IsRun(worlds, actions) && IsLaunch(actions, i) && IsLaunch(actions, j)
    ensures NumberOf(worlds, actions, i) < NumberOf(worlds, actions, j) <==> i < j
  {
    hide NumberOf;
    NumberCounts(worlds, actions, i);
    NumberCounts(worlds, actions, j);
    if i < j {
      JournalOnlyGrows(worlds, actions, i + 1, j);
    } else if j < i {
      JournalOnlyGrows(worlds, actions, j + 1, i);
    }
  }

  lemma LaunchedNumbersAreApart(records: map<string, Record>, worlds: seq<World>, actions: seq<Action>,
                                made: map<string, nat>)
    requires IsRun(worlds, actions) && ByLaunches(records, worlds, actions, made)
    ensures NumbersApart(records)
  {
    hide NumberOf;
    forall id, other | id in records && other in records && id != other && records[id].launchNumber.Some?
      ensures records[id].launchNumber != records[other].launchNumber
    {
      if records[other].launchNumber.Some? {
        NumbersGrow(worlds, actions, made[id], made[other]);
        NumbersGrow(worlds, actions, made[other], made[id]);
      }
    }
  }

  /** Over every interleaving of launchers, and whatever else the gate asks: two readings that adjoin
      their canaries in the journal's numbers lean on two different canaries. */
  lemma ReadingsHaveTheirOwnCanaries(a: Record, b: Record, records: map<string, Record>,
                                     worlds: seq<World>, actions: seq<Action>, made: map<string, nat>)
    requires IsRun(worlds, actions) && ByLaunches(records, worlds, actions, made)
    requires a.id in records && records[a.id] == a && b.id in records && records[b.id] == b && a.id != b.id
    requires Leans(a, records) && Leans(b, records)
    ensures a.canaryRecordId.value != b.canaryRecordId.value
  {
    hide ByLaunches, Adjoining;
    LaunchedNumbersAreApart(records, worlds, actions, made);
    DistinctReadingsDistinctCanaries(a, b, records);
  }

  /** Two records carry neighbouring numbers exactly when the launch of the first came before that of
      the second and no launch of anybody lay between them. */
  lemma NeighboursExactly(first: Record, second: Record, records: map<string, Record>,
                          worlds: seq<World>, actions: seq<Action>, made: map<string, nat>)
    requires IsRun(worlds, actions) && ByLaunches(records, worlds, actions, made)
    requires first.id in records && records[first.id] == first && second.id in records && records[second.id] == second
    requires first.launchNumber.Some? && second.launchNumber.Some?
    ensures first.launchNumber.value + 1 == second.launchNumber.value <==>
            made[first.id] < made[second.id] && Launches(actions, made[first.id] + 1, made[second.id]) == 0
  {
    var i, j := made[first.id], made[second.id];
    NumbersGrow(worlds, actions, i, j);
    if i < j {
      NeighboursHaveNothingBetween(worlds, actions, i, j);
    }
  }

  /** Between a canary and the reading that leans on it nothing was launched, and the canary's launch
      was over when the reading began. */
  lemma NothingRanBetween(blind: Record, records: map<string, Record>,
                          worlds: seq<World>, actions: seq<Action>, made: map<string, nat>)
    requires IsRun(worlds, actions) && ByLaunches(records, worlds, actions, made) && Filed(records)
    requires blind.id in records && records[blind.id] == blind && Leans(blind, records)
    ensures var i, j := made[blind.canaryRecordId.value], made[blind.id];
            && i < j && Launches(actions, i + 1, j) == 0
            && StageOf(worlds[i + 1], actions[i].p).Running? && !StageOf(worlds[j], actions[i].p).Running?
  {
    hide StageOf;
    var canary := records[blind.canaryRecordId.value];
    NeighboursExactly(canary, blind, records, worlds, actions, made);
    NeighboursHaveNothingBetween(worlds, actions, made[canary.id], made[blind.id]);
  }

  /** The coming runs of a round are launches after those that made the published records, one after
      the other, under new identifiers. */
  predicate ScriptFollows(script: seq<Launch>, records: map<string, Record>, worlds: seq<World>, actions: seq<Action>,
                          made: map<string, nat>, steps: seq<nat>)
    requires IsRun(worlds, actions)
  {
    && |steps| == |script|
    && (forall i :: 0 <= i < |script| && script[i].Launched? ==>
          && script[i].id !in records
          && IsLaunch(actions, steps[i]) && script[i].number == NumberOf(worlds, actions, steps[i])
          && forall id :: id in records && id in made ==> made[id] < steps[i])
    && (forall i, j :: 0 <= i < j < |script| && script[i].Launched? && script[j].Launched? ==>
          steps[i] < steps[j] && script[i].id != script[j].id)
  }

  /** Such runs are what a round starts from: it keeps the launch numbers on the channel apart. */
  lemma JournalledScriptsAreFresh(script: seq<Launch>, records: map<string, Record>, worlds: seq<World>,
                                  actions: seq<Action>, made: map<string, nat>, steps: seq<nat>)
    requires IsRun(worlds, actions) && ByLaunches(records, worlds, actions, made)
    requires ScriptFollows(script, records, worlds, actions, made, steps)
    ensures FreshFor(script, records)
  {
    hide NumberOf, NumbersApart;
    LaunchedNumbersAreApart(records, worlds, actions, made);
    forall i, id | 0 <= i < |script| && script[i].Launched? && id in records
      ensures records[id].launchNumber != Some(script[i].number)
    {
      if records[id].launchNumber.Some? {
        NumbersGrow(worlds, actions, made[id], steps[i]);
      }
    }
    forall i, j | 0 <= i < j < |script| && script[i].Launched? && script[j].Launched?
      ensures script[i].id != script[j].id && script[i].number != script[j].number
    {
      NumbersGrow(worlds, actions, steps[i], steps[j]);
    }
  }
}
