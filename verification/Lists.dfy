/** Lists of round numbers: sorting, and when a list is exactly 1..n. */
module Lists {
  import opened Sequences
  import opened RunFiles

  function Insert(x: nat, s: seq<nat>): (r: seq<nat>)
    ensures multiset(r) == multiset(s) + multiset{x}
  {
    if s == [] then [x]
    else if x <= s[0] then
      [x] + s
    else
      assert s == [s[0]] + s[1..];
      [s[0]] + Insert(x, s[1..])
  }

  function Sorted(s: seq<nat>): (r: seq<nat>)
    ensures multiset(r) == multiset(s)
  {
    if s == [] then []
    else
      assert s == [s[0]] + s[1..];
      Insert(s[0], Sorted(s[1..]))
  }

  predicate Weakly(s: seq<nat>) {
    forall i, j :: 0 <= i < j < |s| ==> s[i] <= s[j]
  }

  lemma {:induction false} InsertKeepsOrder(x: nat, s: seq<nat>)
    requires Weakly(s)
    ensures Weakly(Insert(x, s))
  {
    if s != [] && x > s[0] {
      InsertKeepsOrder(x, s[1..]);
      var t := Insert(x, s[1..]);
      forall k | 0 <= k < |t|
        ensures s[0] <= t[k]
      {
        assert t[k] in multiset(t);
        assert t[k] in multiset(s[1..]) + multiset{x};
        if t[k] != x {
          assert t[k] in s[1..];
        }
      }
    }
  }

  lemma {:induction false} SortedIsOrdered(s: seq<nat>)
    ensures Weakly(Sorted(s))
  {
    if s != [] {
      SortedIsOrdered(s[1..]);
      InsertKeepsOrder(s[0], Sorted(s[1..]));
    }
  }

  lemma SortedMembers(s: seq<nat>, x: nat)
    ensures x in Sorted(s) <==> x in s
    ensures |Sorted(s)| == |s|
  {
    assert x in multiset(Sorted(s)) <==> x in multiset(s);
    assert |multiset(Sorted(s))| == |multiset(s)|;
  }

  lemma {:induction false} CountAtMostOne(s: seq<nat>, x: nat)
    requires NoDuplicates(s)
    ensures multiset(s)[x] <= 1
  {
    if s != [] {
      assert s == [s[0]] + s[1..];
      CountAtMostOne(s[1..], x);
      assert forall i :: 0 <= i < |s[1..]| ==> s[1..][i] == s[i + 1] != s[0];
      assert s[0] !in multiset(s[1..]);
    }
  }

  lemma TwoPlaces(t: seq<nat>, i: nat, j: nat)
    requires i < j < |t| && t[i] == t[j]
    ensures multiset(t)[t[i]] >= 2
  {
    assert t == t[..j] + ([t[j]] + t[j + 1..]);
    assert t[i] in multiset(t[..j]) by {
      assert t[..j][i] == t[i];
    }
  }

  lemma SortedIsStrict(s: seq<nat>)
    requires NoDuplicates(s)
    ensures StrictlyAscending(Sorted(s))
  {
    SortedIsOrdered(s);
    var t := Sorted(s);
    forall i, j | 0 <= i < j < |t|
      ensures t[i] < t[j]
    {
      if t[i] == t[j] {
        CountAtMostOne(s, t[i]);
        TwoPlaces(t, i, j);
      }
    }
  }

  /** A strictly ascending list of the numbers 1..n is that range. */
  lemma {:induction false} StrictRange(t: seq<nat>, k: nat)
    requires StrictlyAscending(t) && k <= |t|
    requires forall x: nat :: x in t <==> 1 <= x <= |t|
    ensures forall i :: 0 <= i < k ==> t[i] == i + 1
  {
    if k > 0 {
      StrictRange(t, k - 1);
      assert k in t;
      var j :| 0 <= j < |t| && t[j] == k;
      assert forall i :: 0 <= i < k - 1 ==> t[i] != k;
      assert t[k - 1] in t;
      assert k > 1 ==> t[k - 2] < t[k - 1];
    }
  }

  /** The test recovery makes: a duplicate-free list sorts to 1..n exactly when it holds
      precisely these numbers. */
  lemma SortsToRange(s: seq<nat>)
    requires NoDuplicates(s)
    ensures Sorted(s) == Ascending(|s|) <==> forall x: nat :: x in s <==> 1 <= x <= |s|
  {
    hide Sorted;
    var t := Sorted(s);
    forall x: nat
      ensures x in t <==> x in s
    {
      SortedMembers(s, x);
    }
    SortedMembers(s, 0);
    SortedIsStrict(s);
    if forall x: nat :: x in s <==> 1 <= x <= |s| {
      StrictRange(t, |t|);
      assert t == Ascending(|s|);
    }
    RangeMembers(|s|);
  }

  lemma RangeMembers(n: nat)
    ensures forall x: nat :: x in Ascending(n) <==> 1 <= x <= n
  {
    forall x: nat | 1 <= x <= n
      ensures x in Ascending(n)
    {
      assert Ascending(n)[x - 1] == x;
    }
  }
}
