/** Small generic helpers shared by every module of the model: an optional
    value (for TypeScript's `undefined`), and the two array scans the
    application relies on, `findIndex` and `filter`. */
module Common {

  /** A value that may be absent: `undefined` for an optional field. */
  datatype Option<+T> = None | Some(value: T) {

    /** The value, or `default` when absent. */
    function GetOr(default: T): T {
      match this
      case Some(v) => v
      case None => default
    }
  }

  /** `b` contains the elements of `a` in the same relative order. */
  predicate Subsequence<T(==)>(a: seq<T>, b: seq<T>)
    decreases |b|
  {
    && |a| <= |b|
    && (|a| == 0
        || (a[0] == b[0] && Subsequence(a[1..], b[1..]))
        || Subsequence(a, b[1..]))
  }

  /** No element occurs twice. */
  predicate NoDup<T(==)>(xs: seq<T>) {
    forall i, j :: 0 <= i < j < |xs| ==> xs[i] != xs[j]
  }

  /** The position of the first element satisfying `p`, as `findIndex` and
      `find` locate it; `None` when there is none. */
  function FindIndex<T>(xs: seq<T>, p: T -> bool): (r: Option<nat>)
    ensures r.Some? ==> r.value < |xs| && p(xs[r.value])
    ensures r.Some? ==> forall j :: 0 <= j < r.value ==> !p(xs[j])
    ensures r.None? <==> forall j :: 0 <= j < |xs| ==> !p(xs[j])
    decreases |xs|
  {
    if |xs| == 0 then None
    else if p(xs[0]) then Some(0)
    else
      match FindIndex(xs[1..], p)
      case None => None
      case Some(i) => Some(i + 1)
  }

  /** The elements satisfying `p`, in order, as `Array.prototype.filter`
      yields them. */
  function Filter<T(==,!new)>(xs: seq<T>, p: T -> bool): (r: seq<T>)
    ensures |r| <= |xs|
    ensures forall i :: 0 <= i < |r| ==> p(r[i])
    decreases |xs|
  {
    if |xs| == 0 then []
    else
      var rest := Filter(xs[1..], p);
      if p(xs[0]) then [xs[0]] + rest else rest
  }

  /** An element is kept exactly when it occurs and satisfies `p`. */
  lemma {:induction false} FilterMembers<T(!new)>(xs: seq<T>, p: T -> bool)
    ensures forall x :: x in Filter(xs, p) <==> x in xs && p(x)
    decreases |xs|
  {
    if |xs| > 0 {
      FilterMembers(xs[1..], p);
      assert xs == [xs[0]] + xs[1..];
    }
  }

  /** `filter` keeps every element satisfying `p` as often as it occurs,
      and no other. */
  lemma {:induction false} FilterCounts<T(!new)>(xs: seq<T>, p: T -> bool)
    ensures forall x :: multiset(Filter(xs, p))[x] == if p(x) then multiset(xs)[x] else 0
    decreases |xs|
  {
    if |xs| > 0 {
      FilterCounts(xs[1..], p);
      assert xs == [xs[0]] + xs[1..];
    }
  }

  /** `filter` keeps the relative order of what it keeps. */
  lemma {:induction false} FilterSubsequence<T(!new)>(xs: seq<T>, p: T -> bool)
    ensures Subsequence(Filter(xs, p), xs)
    decreases |xs|
  {
    if |xs| > 0 {
      FilterSubsequence(xs[1..], p);
    }
  }

  /** Filtering with a predicate every element already satisfies keeps the
      sequence as it is. */
  lemma {:induction false} FilterAll<T(!new)>(xs: seq<T>, p: T -> bool)
    requires forall i :: 0 <= i < |xs| ==> p(xs[i])
    ensures Filter(xs, p) == xs
    decreases |xs|
  {
    if |xs| > 0 {
      FilterAll(xs[1..], p);
    }
  }

  /** Filtering twice with the same predicate changes nothing the second
      time. */
  lemma FilterIdempotent<T(!new)>(xs: seq<T>, p: T -> bool)
    ensures Filter(Filter(xs, p), p) == Filter(xs, p)
  {
    FilterAll(Filter(xs, p), p);
  }

  /** Two predicates that agree on every element filter alike. */
  lemma {:induction false} FilterCongruent<T(!new)>(xs: seq<T>, p: T -> bool, q: T -> bool)
    requires forall i :: 0 <= i < |xs| ==> p(xs[i]) == q(xs[i])
    ensures Filter(xs, p) == Filter(xs, q)
    decreases |xs|
  {
    if |xs| > 0 {
      FilterCongruent(xs[1..], p, q);
    }
  }

  /** Filtering a sequence is deciding its first element, then filtering
      the rest. */
  lemma FilterCons<T(!new)>(x: T, xs: seq<T>, p: T -> bool)
    ensures Filter([x] + xs, p) == (if p(x) then [x] else []) + Filter(xs, p)
  {
    assert ([x] + xs)[1..] == xs;
  }

  /** Filtering distributes over concatenation. */
  lemma {:induction false} FilterAppend<T(!new)>(xs: seq<T>, ys: seq<T>, p: T -> bool)
    ensures Filter(xs + ys, p) == Filter(xs, p) + Filter(ys, p)
    decreases |xs|
  {
    if |xs| == 0 {
      assert xs + ys == ys;
    } else {
      var x, rest := xs[0], xs[1..];
      var head := if p(x) then [x] else [];
      assert xs == [x] + rest;
      assert xs + ys == [x] + (rest + ys);
      FilterCons(x, rest + ys, p);
      FilterCons(x, rest, p);
      FilterAppend(rest, ys, p);
      calc {
        Filter(xs + ys, p);
        head + Filter(rest + ys, p);
        head + (Filter(rest, p) + Filter(ys, p));
        (head + Filter(rest, p)) + Filter(ys, p);
        Filter(xs, p) + Filter(ys, p);
      }
    }
  }

  /** A sequence without duplicates holds each value at most once. */
  lemma {:induction false} NoDupMultiset<T>(xs: seq<T>)
    ensures NoDup(xs) <==> forall x :: multiset(xs)[x] <= 1
    decreases |xs|
  {
    if |xs| > 0 {
      NoDupMultiset(xs[1..]);
      assert xs == [xs[0]] + xs[1..];
      if NoDup(xs) {
        assert NoDup(xs[1..]) by {
          forall i, j | 0 <= i < j < |xs[1..]| ensures xs[1..][i] != xs[1..][j] {
            assert xs[1..][i] == xs[i + 1] && xs[1..][j] == xs[j + 1];
          }
        }
        assert xs[0] !in xs[1..] by {
          forall k | 0 <= k < |xs[1..]| ensures xs[1..][k] != xs[0] {
            assert xs[1..][k] == xs[k + 1];
          }
        }
      } else {
        var i, j :| 0 <= i < j < |xs| && xs[i] == xs[j];
        if i == 0 {
          assert xs[1..][j - 1] == xs[0];
          assert multiset(xs)[xs[0]] >= 2;
        } else {
          assert xs[1..][i - 1] == xs[1..][j - 1];
          assert !NoDup(xs[1..]);
          var x :| multiset(xs[1..])[x] > 1;
          assert multiset(xs)[x] >= multiset(xs[1..])[x];
        }
      }
    }
  }
}
