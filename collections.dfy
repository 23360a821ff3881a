/**
 * Generic helpers over sequences and sets used by the store and the metrics:
 * the minimum of a set, a set's elements in ascending order (rowid order of a
 * table, the date axis of a trend), filtering and counting.
 */
module Collections {

  predicate Increasing(s: seq<int>)
  {
    forall i, j :: 0 <= i < j < |s| ==> s[i] < s[j]
  }

  lemma {:induction false} MinExists(s: set<int>)
    requires s != {}
    ensures exists m :: m in s && forall x :: x in s ==> m <= x
    decreases |s|
  {
    if forall x :: x !in s {
      assert false;
    }
    var y :| y in s;
    if s == {y} {
      assert forall x :: x in s ==> x == y;
    } else {
      MinExists(s - {y});
      var m :| m in s - {y} && forall x :: x in s - {y} ==> m <= x;
      forall x | x in s
        ensures Min(y, m) <= x
      {
        if x != y {
          assert x in s - {y};
        }
      }
      assert Min(y, m) in s;
    }
  }

  function Min(a: int, b: int): int
  {
    if a <= b then a else b
  }

  function SetMin(s: set<int>): (m: int)
    requires s != {}
    ensures m in s && forall x :: x in s ==> m <= x
  {
    MinExists(s);
    var m :| m in s && forall x :: x in s ==> m <= x; m
  }

  /** The elements of a finite set of integers, in ascending order. */
  function SortedElements(s: set<int>): (r: seq<int>)
    ensures Increasing(r)
    ensures |r| == |s|
    ensures forall x :: x in r <==> x in s
    decreases |s|
  {
    if s == {} then []
    else
      var m := SetMin(s);
      [m] + SortedElements(s - {m})
  }

  /** The elements of `xs` that satisfy `keep`, in their original order. */
  function Filter<T(!new)>(xs: seq<T>, keep: T -> bool): (r: seq<T>)
    ensures |r| <= |xs|
    ensures forall x :: x in r ==> x in xs && keep(x)
    ensures forall x :: multiset(r)[x] == if keep(x) then multiset(xs)[x] else 0
  {
    if xs == [] then []
    else
      assert xs == [xs[0]] + xs[1..];
      (if keep(xs[0]) then [xs[0]] else []) + Filter(xs[1..], keep)
  }

  /** The end of the run of elements satisfying `p` that starts at index `k`. */
  function RunEnd<T>(xs: seq<T>, p: T -> bool, k: nat): (n: nat)
    requires k <= |xs|
    ensures k <= n <= |xs|
    ensures forall i :: k <= i < n ==> p(xs[i])
    ensures n < |xs| ==> !p(xs[n])
    decreases |xs| - k
  {
    if k == |xs| || !p(xs[k]) then k else RunEnd(xs, p, k + 1)
  }

  /** The number of elements of `xs` that satisfy `p`. */
  function Count<T>(xs: seq<T>, p: T -> bool): (n: nat)
    ensures n <= |xs|
  {
    if xs == [] then 0 else (if p(xs[0]) then 1 else 0) + Count(xs[1..], p)
  }

  lemma {:induction false} CountIsFilterLength<T(!new)>(xs: seq<T>, p: T -> bool)
    ensures Count(xs, p) == |Filter(xs, p)|
  {
    if xs != [] {
      CountIsFilterLength(xs[1..], p);
    }
  }

  /** Counting a property implied by another one gives no more. */
  lemma {:induction false} CountMonotone<T>(xs: seq<T>, p: T -> bool, q: T -> bool)
    requires forall x :: x in xs && p(x) ==> q(x)
    ensures Count(xs, p) <= Count(xs, q)
  {
    if xs != [] {
      CountMonotone(xs[1..], p, q);
    }
  }

  /** Counting a disjunction of exclusive properties adds the counts. */
  lemma {:induction false} CountDisjoint<T>(xs: seq<T>, p: T -> bool, q: T -> bool, pq: T -> bool)
    requires forall x :: x in xs ==> (pq(x) <==> p(x) || q(x)) && !(p(x) && q(x))
    ensures Count(xs, pq) == Count(xs, p) + Count(xs, q)
  {
    if xs != [] {
      CountDisjoint(xs[1..], p, q, pq);
    }
  }

  /** The image of a sequence under `f`. */
  function Image<T, U(!new)>(xs: seq<T>, f: T -> U): (r: set<U>)
    ensures forall y :: y in r <==> exists i :: 0 <= i < |xs| && f(xs[i]) == y
  {
    if xs == [] then {} else {f(xs[0])} + Image(xs[1..], f)
  }

  /** A sequence has at most as many distinct images as elements. */
  lemma {:induction false} ImageBound<T, U(!new)>(xs: seq<T>, f: T -> U)
    ensures |Image(xs, f)| <= |xs|
  {
    if xs != [] {
      ImageBound(xs[1..], f);
    }
  }

  lemma UnionBound<T>(a: set<T>, b: set<T>)
    ensures |a + b| <= |a| + |b|
  {
  }
}
