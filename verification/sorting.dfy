/** Insertion sort over sequences: the model of SQL's ORDER BY. Rows that tie on the sort key
    come back in an order SQL leaves unspecified; the model fixes one such order. */
module Sorting {

  /** Every element of `s` comes `before` every later one. */
  ghost predicate SortedBy<T>(s: seq<T>, before: (T, T) -> bool) {
    forall i, j :: 0 <= i < j < |s| ==> before(s[i], s[j])
  }

  /** Any two values can be compared. */
  ghost predicate Total<T(!new)>(before: (T, T) -> bool) {
    forall a, b :: before(a, b) || before(b, a)
  }

  ghost predicate Transitive<T(!new)>(before: (T, T) -> bool) {
    forall a, b, c :: before(a, b) && before(b, c) ==> before(a, c)
  }

  /** `s` with `x` inserted in front of the first element it comes before. */
  function Insert<T>(x: T, s: seq<T>, before: (T, T) -> bool): (r: seq<T>)
    ensures multiset(r) == multiset(s) + multiset{x}
  {
    if |s| == 0 || before(x, s[0]) then [x] + s
    else
      assert s == [s[0]] + s[1..];
      [s[0]] + Insert(x, s[1..], before)
  }

  /** `s` rearranged so that it is sorted by `before` (see SortIsSorted). */
  function Sort<T>(s: seq<T>, before: (T, T) -> bool): (r: seq<T>)
    ensures multiset(r) == multiset(s)
  {
    if |s| == 0 then []
    else
      assert s == [s[0]] + s[1..];
      Insert(s[0], Sort(s[1..], before), before)
  }

  lemma {:induction false} InsertIsSorted<T(!new)>(x: T, s: seq<T>, before: (T, T) -> bool)
    requires Total(before) && Transitive(before)
    requires SortedBy(s, before)
    ensures SortedBy(Insert(x, s, before), before)
  {
    if |s| == 0 || before(x, s[0]) {
    } else {
      var tail := s[1..];
      assert SortedBy(tail, before);
      InsertIsSorted(x, tail, before);
      var ins := Insert(x, tail, before);
      assert before(s[0], x);
      forall k | 0 <= k < |ins|
        ensures before(s[0], ins[k])
      {
        assert ins[k] in multiset(ins);
        assert ins[k] in multiset(tail) + multiset{x};
        if ins[k] != x {
          assert ins[k] in tail;
        }
      }
      assert Insert(x, s, before) == [s[0]] + ins;
    }
  }

  /** The result of Sort is sorted whenever `before` is a total preorder. */
  lemma {:induction false} SortIsSorted<T(!new)>(s: seq<T>, before: (T, T) -> bool)
    requires Total(before) && Transitive(before)
    ensures SortedBy(Sort(s, before), before)
  {
    if |s| > 0 {
      SortIsSorted(s[1..], before);
      InsertIsSorted(s[0], Sort(s[1..], before), before);
    }
  }
}
