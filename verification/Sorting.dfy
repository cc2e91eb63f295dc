/** A library sort by an integer key: what std::sort promises, as a function. */
module Sorting {

  ghost predicate SortedBy<T>(key: T -> int, s: seq<T>) {
    forall i, j :: 0 <= i < j < |s| ==> key(s[i]) <= key(s[j])
  }

  function InsertBy<T>(key: T -> int, p: T, s: seq<T>): seq<T> {
    if s == [] || key(p) <= key(s[0]) then [p] + s else [s[0]] + InsertBy(key, p, s[1..])
  }

  function SortBy<T>(key: T -> int, s: seq<T>): seq<T> {
    if s == [] then [] else InsertBy(key, s[0], SortBy(key, s[1..]))
  }

  lemma {:induction false} InsertKeeps<T>(key: T -> int, p: T, s: seq<T>)
    ensures multiset(InsertBy(key, p, s)) == multiset{p} + multiset(s)
  {
    if s != [] {
      assert s == [s[0]] + s[1..];
      if key(p) > key(s[0]) {
        InsertKeeps(key, p, s[1..]);
      }
    }
  }

  lemma {:induction false} InsertSorts<T>(key: T -> int, p: T, s: seq<T>)
    requires SortedBy(key, s)
    ensures SortedBy(key, InsertBy(key, p, s))
  {
    if s != [] && key(p) > key(s[0]) {
      var rest := InsertBy(key, p, s[1..]);
      InsertSorts(key, p, s[1..]);
      InsertKeeps(key, p, s[1..]);
      forall j | 0 <= j < |rest| ensures key(s[0]) <= key(rest[j]) {
        assert rest[j] in multiset(rest);
        assert rest[j] == p || rest[j] in s[1..];
      }
      SortedInFront(key, s[0], rest);
    }
  }

  lemma SortedInFront<T>(key: T -> int, p: T, s: seq<T>)
    requires SortedBy(key, s) && forall j :: 0 <= j < |s| ==> key(p) <= key(s[j])
    ensures SortedBy(key, [p] + s)
  {
  }

  /** The result is a permutation of s in non-decreasing key order. */
  lemma {:induction false} SortSorts<T>(key: T -> int, s: seq<T>)
    ensures multiset(SortBy(key, s)) == multiset(s)
    ensures SortedBy(key, SortBy(key, s))
  {
    if s != [] {
      assert s == [s[0]] + s[1..];
      SortSorts(key, s[1..]);
      InsertKeeps(key, s[0], SortBy(key, s[1..]));
      InsertSorts(key, s[0], SortBy(key, s[1..]));
    }
  }
}
