/** A stable sort by key, standing for the library's `sort_by_key`. */
module Sorting {

  predicate Ascending<T(!new)>(key: T -> nat, s: seq<T>) {
    forall i, j | 0 <= i < j < |s| :: key(s[i]) <= key(s[j])
  }

  function InsertByKey<T>(key: T -> nat, x: T, sorted: seq<T>): seq<T> {
    if sorted == [] || key(x) < key(sorted[0]) then [x] + sorted
    else [sorted[0]] + InsertByKey(key, x, sorted[1..])
  }

  function SortByKey<T>(key: T -> nat, s: seq<T>): seq<T> {
    if s == [] then []
    else InsertByKey(key, s[|s| - 1], SortByKey(key, s[..|s| - 1]))
  }

  lemma {:induction false} InsertKeepsElements<T>(key: T -> nat, x: T, sorted: seq<T>)
    ensures multiset(InsertByKey(key, x, sorted)) == multiset(sorted) + multiset{x}
  {
    if sorted == [] || key(x) < key(sorted[0]) {
    } else {
      InsertKeepsElements(key, x, sorted[1..]);
      assert sorted == [sorted[0]] + sorted[1..];
    }
  }

  lemma {:induction false} InsertKeepsOrder<T(!new)>(key: T -> nat, x: T, sorted: seq<T>)
    requires Ascending(key, sorted)
    ensures Ascending(key, InsertByKey(key, x, sorted))
    ensures forall y | y in InsertByKey(key, x, sorted) :: y == x || y in sorted
  {
    if sorted == [] || key(x) < key(sorted[0]) {
    } else {
      InsertKeepsOrder(key, x, sorted[1..]);
      var inserted := InsertByKey(key, x, sorted[1..]);
      assert forall j | 0 <= j < |inserted| :: inserted[j] in inserted;
    }
  }

  lemma {:induction false} SortByKeyKeepsElements<T>(key: T -> nat, s: seq<T>)
    ensures multiset(SortByKey(key, s)) == multiset(s)
  {
    if s != [] {
      var front := s[..|s| - 1];
      SortByKeyKeepsElements(key, front);
      InsertKeepsElements(key, s[|s| - 1], SortByKey(key, front));
      assert s == front + [s[|s| - 1]];
    }
  }

  lemma {:induction false} SortByKeySorts<T(!new)>(key: T -> nat, s: seq<T>)
    ensures Ascending(key, SortByKey(key, s))
    ensures multiset(SortByKey(key, s)) == multiset(s)
  {
    SortByKeyKeepsElements(key, s);
    if s != [] {
      var front := s[..|s| - 1];
      SortByKeySorts(key, front);
      InsertKeepsOrder(key, s[|s| - 1], SortByKey(key, front));
    }
  }
}
