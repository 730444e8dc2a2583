/** What is said of lists in several places. */
module Sequences {

  predicate NoDuplicates<T(==)>(s: seq<T>) {
    forall i, j :: 0 <= i < j < |s| ==> s[i] != s[j]
  }

  /** A list without repetitions of the members of a set is as long as the set. */
  lemma {:induction false} ListLength<T>(s: seq<T>, keys: set<T>)
    requires NoDuplicates(s) && forall x :: x in s <==> x in keys
    ensures |s| == |keys|
  {
    if s == [] {
      assert keys == {};
    } else {
      var init, last := s[..|s| - 1], s[|s| - 1];
      assert s == init + [last];
      assert forall y :: y in init <==> y in keys - {last};
      ListLength(init, keys - {last});
    }
  }
}
