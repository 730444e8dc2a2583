/** Texts in the order of their characters, and lists of texts sorted with each text once. */
module TextOrder {
  import opened Sequences

  predicate Before(a: string, b: string) {
    if b == "" then false
    else if a == "" then true
    else a[0] < b[0] || (a[0] == b[0] && Before(a[1..], b[1..]))
  }

  lemma {:induction false} BeforeIsStrict(a: string)
    ensures !Before(a, a)
  {
    if a != "" {
      BeforeIsStrict(a[1..]);
    }
  }

  lemma {:induction false} BeforeIsTransitive(a: string, b: string, c: string)
    requires Before(a, b) && Before(b, c)
    ensures Before(a, c)
  {
    if a != "" && a[0] == b[0] == c[0] {
      BeforeIsTransitive(a[1..], b[1..], c[1..]);
    }
  }

  lemma {:induction false} BeforeIsTotal(a: string, b: string)
    ensures Before(a, b) || a == b || Before(b, a)
  {
    if a != "" && b != "" && a[0] == b[0] {
      BeforeIsTotal(a[1..], b[1..]);
      assert a == [a[0]] + a[1..] && b == [b[0]] + b[1..];
    }
  }

  /** Every text stands before the next one. */
  predicate Sorted(s: seq<string>) {
    forall i, j :: 0 <= i < j < |s| ==> Before(s[i], s[j])
  }

  lemma SortedHasNoDuplicates(s: seq<string>)
    requires Sorted(s)
    ensures NoDuplicates(s)
  {
    forall i, j | 0 <= i < j < |s|
      ensures s[i] != s[j]
    {
      BeforeIsStrict(s[i]);
    }
  }

  /** A text put into its place, unless it is there already. */
  function Inserted(s: seq<string>, x: string): (r: seq<string>)
    ensures forall y :: y in r <==> y in s || y == x
  {
    if s == [] then [x]
    else if s[0] == x then s
    else if Before(x, s[0]) then [x] + s
    else
      assert s == [s[0]] + s[1..];
      [s[0]] + Inserted(s[1..], x)
  }

  lemma {:induction false} InsertedIsSorted(s: seq<string>, x: string)
    requires Sorted(s)
    ensures Sorted(Inserted(s, x))
  {
    if s != [] {
      BeforeIsTotal(x, s[0]);
      if Before(x, s[0]) {
        forall j | 0 < j < |s|
          ensures Before(x, s[j])
        {
          BeforeIsTransitive(x, s[0], s[j]);
        }
      } else if s[0] != x {
        InsertedIsSorted(s[1..], x);
        var rest := Inserted(s[1..], x);
        forall j | 0 <= j < |rest|
          ensures Before(s[0], rest[j])
        {
          assert rest[j] in rest;
        }
      }
    }
  }

  /** The members of a list, each once, in order. */
  function SortedSet(items: seq<string>): (r: seq<string>)
    ensures forall x :: x in r <==> x in items
  {
    if items == [] then []
    else
      var init, last := items[..|items| - 1], items[|items| - 1];
      assert items == init + [last];
      Inserted(SortedSet(init), last)
  }

  lemma {:induction false} SortedSetIsSorted(items: seq<string>)
    ensures Sorted(SortedSet(items)) && NoDuplicates(SortedSet(items))
  {
    hide Sorted, Inserted, NoDuplicates;
    if items == [] {
      NothingIsSorted();
    } else {
      SortedSetIsSorted(items[..|items| - 1]);
      InsertedIsSorted(SortedSet(items[..|items| - 1]), items[|items| - 1]);
    }
    SortedHasNoDuplicates(SortedSet(items));
  }

  lemma NothingIsSorted()
    ensures Sorted([])
  {
  }

  /** Sorting with each text once drops nothing exactly when nothing was there twice. */
  lemma SortedSetKeepsExactly(items: seq<string>)
    ensures multiset(SortedSet(items)) == multiset(items) <==> NoDuplicates(items)
  {
    SortedSetIsSorted(items);
    OnceEach(SortedSet(items));
    OnceEach(items);
    if NoDuplicates(items) {
      forall x
        ensures multiset(SortedSet(items))[x] == multiset(items)[x]
      {
        assert x in multiset(items) <==> x in items;
        assert x in multiset(SortedSet(items)) <==> x in SortedSet(items);
      }
    }
  }

  lemma {:induction false} OnceEach(s: seq<string>)
    ensures NoDuplicates(s) <==> forall x :: multiset(s)[x] <= 1
  {
    if s != [] {
      var init, last := s[..|s| - 1], s[|s| - 1];
      assert s == init + [last];
      OnceEach(init);
      assert multiset(s) == multiset(init) + multiset{last};
      assert NoDuplicates(s) <==> NoDuplicates(init) && last !in init;
      assert last in init <==> last in multiset(init);
      assert forall x :: multiset(s)[x] == multiset(init)[x] + if x == last then 1 else 0;
      if NoDuplicates(init) && last in init {
        assert multiset(s)[last] == 2;
      } else if !NoDuplicates(init) {
        var x :| multiset(init)[x] > 1;
        assert multiset(s)[x] > 1;
      }
    }
  }
}
