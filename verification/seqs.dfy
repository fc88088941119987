/** Generic sequence operations: the model's stand-ins for SQL WHERE, LIMIT 1 and COUNT(*),
    and for JavaScript's Array.prototype.filter, find and map. */
module Seqs {
  import opened Wrappers

  /** The elements of `s` satisfying `p`, in their original order. */
  function Filter<T>(s: seq<T>, p: T -> bool): (r: seq<T>)
    ensures |r| <= |s|
    ensures forall i :: 0 <= i < |r| ==> r[i] in s && p(r[i])
    ensures forall i :: 0 <= i < |s| && p(s[i]) ==> s[i] in r
  {
    if |s| == 0 then []
    else if p(s[0]) then [s[0]] + Filter(s[1..], p)
    else Filter(s[1..], p)
  }

  /** Filtering a concatenation filters each part. */
  lemma {:induction false} FilterConcat<T>(a: seq<T>, b: seq<T>, p: T -> bool)
    ensures Filter(a + b, p) == Filter(a, p) + Filter(b, p)
  {
    if |a| == 0 {
      assert a + b == b;
    } else {
      assert (a + b)[1..] == a[1..] + b;
      FilterConcat(a[1..], b, p);
    }
  }

  /** A filter that keeps everything is the identity. */
  lemma {:induction false} FilterAll<T>(s: seq<T>, p: T -> bool)
    requires forall i :: 0 <= i < |s| ==> p(s[i])
    ensures Filter(s, p) == s
  {
    if |s| > 0 {
      FilterAll(s[1..], p);
    }
  }

  /** A filter that keeps nothing yields the empty sequence. */
  lemma {:induction false} FilterNone<T>(s: seq<T>, p: T -> bool)
    requires forall i :: 0 <= i < |s| ==> !p(s[i])
    ensures Filter(s, p) == []
  {
    if |s| > 0 {
      FilterNone(s[1..], p);
    }
  }

  /** Two predicates that agree on every element of `s` select the same elements. */
  lemma {:induction false} FilterCongruent<T>(s: seq<T>, p: T -> bool, q: T -> bool)
    requires forall i :: 0 <= i < |s| ==> p(s[i]) == q(s[i])
    ensures Filter(s, p) == Filter(s, q)
  {
    if |s| > 0 {
      FilterCongruent(s[1..], p, q);
    }
  }

  /** Filtering an already filtered sequence with a stronger predicate. */
  lemma {:induction false} FilterFilter<T>(s: seq<T>, p: T -> bool, q: T -> bool)
    requires forall i :: 0 <= i < |s| ==> q(s[i]) ==> p(s[i])
    ensures Filter(Filter(s, p), q) == Filter(s, q)
  {
    if |s| > 0 {
      FilterFilter(s[1..], p, q);
      if p(s[0]) {
        assert Filter(s, p) == [s[0]] + Filter(s[1..], p);
        assert Filter(s, p)[1..] == Filter(s[1..], p);
      }
    }
  }

  /** A filter that drops some element is shorter than its input. */
  lemma {:induction false} FilterShorter<T>(s: seq<T>, p: T -> bool, x: T)
    requires x in s && !p(x)
    ensures |Filter(s, p)| < |s|
  {
    if s[0] != x {
      FilterShorter(s[1..], p, x);
    }
  }

  /** The number of elements satisfying `p`: SQL COUNT(*) with a WHERE clause. */
  function Count<T>(s: seq<T>, p: T -> bool): nat {
    |Filter(s, p)|
  }

  /** Removing the elements that satisfy `hit` lowers the count of `p` by the number removed,
      when every removed element satisfies `p`. */
  lemma {:induction false} CountAfterRemoval<T>(s: seq<T>, keep: T -> bool, p: T -> bool,
                                                hit: T -> bool)
    requires forall i :: 0 <= i < |s| ==> keep(s[i]) == !hit(s[i])
    requires forall i :: 0 <= i < |s| ==> hit(s[i]) ==> p(s[i])
    ensures Count(Filter(s, keep), p) == Count(s, p) - Count(s, hit)
  {
    if |s| > 0 {
      CountAfterRemoval(s[1..], keep, p, hit);
      if keep(s[0]) {
        assert Filter(s, keep)[1..] == Filter(s[1..], keep);
      }
    }
  }

  /** The index of the first element satisfying `p`: JavaScript's `find`, SQL's LIMIT 1. */
  function Find<T>(s: seq<T>, p: T -> bool): (r: Option<nat>)
    ensures r.Some? ==> r.value < |s| && p(s[r.value])
    ensures r.Some? ==> forall j :: 0 <= j < r.value ==> !p(s[j])
    ensures r.None? ==> forall j :: 0 <= j < |s| ==> !p(s[j])
  {
    if |s| == 0 then None
    else if p(s[0]) then Some(0)
    else
      match Find(s[1..], p)
      case None => None
      case Some(k) => Some(k + 1)
  }

  /** Two sequences that agree on which positions satisfy `p` have the same first match. */
  lemma {:induction false} FindSamePositions<T>(a: seq<T>, b: seq<T>, p: T -> bool)
    requires |a| == |b| && forall i :: 0 <= i < |a| ==> p(a[i]) == p(b[i])
    ensures Find(a, p) == Find(b, p)
  {
    if |a| > 0 {
      FindSamePositions(a[1..], b[1..], p);
    }
  }

  /** The concatenation of `f` of each element of `s`, in order: a one-to-many join. */
  function Flatten<T, U>(s: seq<T>, f: T -> seq<U>): seq<U> {
    if |s| == 0 then [] else f(s[0]) + Flatten(s[1..], f)
  }

  /** Every element of a flattened sequence is the `m`-th output of some element `s[i]`. */
  lemma {:induction false} FlattenSource<T, U>(s: seq<T>, f: T -> seq<U>, k: nat) returns (i: nat, m: nat)
    requires k < |Flatten(s, f)|
    ensures i < |s| && m < |f(s[i])| && Flatten(s, f)[k] == f(s[i])[m]
  {
    var rest := Flatten(s[1..], f);
    assert Flatten(s, f) == f(s[0]) + rest;
    if k < |f(s[0])| {
      return 0, k;
    }
    var j, n := FlattenSource(s[1..], f, k - |f(s[0])|);
    i, m := j + 1, n;
    assert s[i] == s[1..][j];
  }

  /** Every output of every element of `s` appears in the flattened sequence. */
  lemma {:induction false} FlattenHas<T, U>(s: seq<T>, f: T -> seq<U>, i: nat, m: nat) returns (k: nat)
    requires i < |s| && m < |f(s[i])|
    ensures k < |Flatten(s, f)| && Flatten(s, f)[k] == f(s[i])[m]
  {
    var rest := Flatten(s[1..], f);
    assert Flatten(s, f) == f(s[0]) + rest;
    if i == 0 {
      return m;
    }
    assert s[1..][i - 1] == s[i];
    var j := FlattenHas(s[1..], f, i - 1, m);
    k := |f(s[0])| + j;
  }

  /** The elements of `s` mapped through `f`, in order. */
  function Map<T, U>(s: seq<T>, f: T -> U): (r: seq<U>)
    ensures |r| == |s|
    ensures forall i :: 0 <= i < |s| ==> r[i] == f(s[i])
  {
    seq(|s|, i requires 0 <= i < |s| => f(s[i]))
  }
}
