/**
 * Generic sequence operations behind the catalog lists: `Array.prototype.filter`,
 * an element-wise conditional replacement (`map(p => cond ? x : p)`) and
 * `Array.from(new Set(xs))`.
 */
module Lists {

  /** `a` is `b` with some elements removed, the rest kept in order. */
  predicate Sublist<T(==)>(a: seq<T>, b: seq<T>)
    decreases |b|
  {
    if |a| == 0 then true
    else if |b| == 0 then false
    else (a[0] == b[0] && Sublist(a[1..], b[1..])) || Sublist(a, b[1..])
  }

  /** `xs.filter(keep)`: every passing element, as often as it occurs, in order. */
  function Filter<T(==,!new)>(xs: seq<T>, keep: T -> bool): (r: seq<T>)
    ensures |r| <= |xs|
    ensures forall x :: x in r <==> x in xs && keep(x)
    ensures Sublist(r, xs)
    ensures forall x {:trigger multiset(r)[x]} :: multiset(r)[x] == if keep(x) then multiset(xs)[x] else 0
  {
    if |xs| == 0 then []
    else
      var rest := Filter(xs[1..], keep);
      assert forall x :: x in xs <==> x == xs[0] || x in xs[1..];
      assert xs == [xs[0]] + xs[1..];
      assert multiset(xs) == multiset([xs[0]]) + multiset(xs[1..]);
      if keep(xs[0]) then [xs[0]] + rest else rest
  }

  /** Filtering keeps every element when every element passes. */
  lemma {:induction false} FilterAll<T(!new)>(xs: seq<T>, keep: T -> bool)
    requires forall x :: x in xs ==> keep(x)
    ensures Filter(xs, keep) == xs
  {
    if |xs| > 0 {
      assert forall x :: x in xs[1..] ==> x in xs;
      FilterAll(xs[1..], keep);
    }
  }

  /** Filtering distributes over concatenation. */
  lemma {:induction false} FilterAppend<T(!new)>(xs: seq<T>, ys: seq<T>, keep: T -> bool)
    ensures Filter(xs + ys, keep) == Filter(xs, keep) + Filter(ys, keep)
  {
    if |xs| > 0 {
      assert (xs + ys)[1..] == xs[1..] + ys;
      FilterAppend(xs[1..], ys, keep);
    } else {
      assert xs + ys == ys;
    }
  }

  /** `xs.map(p => sel(p) ? v : p)`: every selected element replaced by `v`. */
  function ReplaceWhere<T>(xs: seq<T>, sel: T -> bool, v: T): (r: seq<T>)
    ensures |r| == |xs|
    ensures forall i :: 0 <= i < |xs| ==> r[i] == (if sel(xs[i]) then v else xs[i])
  {
    seq(|xs|, i requires 0 <= i < |xs| => if sel(xs[i]) then v else xs[i])
  }

  /** No element occurs twice. */
  predicate NoDuplicates<T(==)>(xs: seq<T>) {
    forall i, j :: 0 <= i < j < |xs| ==> xs[i] != xs[j]
  }

  /** The index of the first occurrence of `x` in `xs`. */
  function FirstIndex<T(==)>(xs: seq<T>, x: T): (k: nat)
    requires x in xs
    ensures k < |xs| && xs[k] == x && x !in xs[..k]
  {
    if xs[0] == x then 0
    else
      var k := FirstIndex(xs[1..], x);
      assert xs[..k + 1] == [xs[0]] + xs[1..][..k];
      k + 1
  }

  /** An index holding `x` with no earlier `x` is the first index of `x`. */
  lemma FirstIndexIs<T>(xs: seq<T>, x: T, k: nat)
    requires k < |xs| && xs[k] == x && x !in xs[..k]
    ensures FirstIndex(xs, x) == k
  {
    var m := FirstIndex(xs, x);
  }

  /** The elements of `r` come in the order in which they first occur in `xs`. */
  predicate FirstOccurrenceOrder<T(==)>(r: seq<T>, xs: seq<T>) {
    forall i, j :: 0 <= i < j < |r| && r[i] in xs && r[j] in xs ==> FirstIndex(xs, r[i]) < FirstIndex(xs, r[j])
  }

  /** `Array.from(new Set(xs))`: the distinct elements in order of first occurrence. */
  function Distinct<T(==,!new)>(xs: seq<T>): (r: seq<T>)
    ensures NoDuplicates(r)
    ensures forall x :: x in r <==> x in xs
    ensures Sublist(r, xs)
    ensures FirstOccurrenceOrder(r, xs)
    decreases |xs|
  {
    if |xs| == 0 then []
    else
      var init := Distinct(xs[..|xs| - 1]);
      var last := xs[|xs| - 1];
      assert forall x :: x in xs <==> x in xs[..|xs| - 1] || x == last;
      SublistExtend(init, xs[..|xs| - 1], last);
      assert xs[..|xs| - 1] + [last] == xs;
      OrderExtend(init, xs, last in init);
      if last in init then init else init + [last]
  }

  /** Extending `xs` by its last element keeps the first-occurrence order, and a new last element goes after the rest. */
  lemma OrderExtend<T>(init: seq<T>, xs: seq<T>, seen: bool)
    requires |xs| > 0
    requires FirstOccurrenceOrder(init, xs[..|xs| - 1])
    requires forall x :: x in init <==> x in xs[..|xs| - 1]
    requires seen <==> xs[|xs| - 1] in init
    ensures FirstOccurrenceOrder(if seen then init else init + [xs[|xs| - 1]], xs)
  {
    var n := |xs| - 1;
    var pre := xs[..n];
    forall y | y in pre
      ensures FirstIndex(xs, y) == FirstIndex(pre, y)
    {
      var k := FirstIndex(pre, y);
      assert xs[..k] == pre[..k];
      FirstIndexIs(xs, y, k);
    }
    if !seen {
      assert xs[..n] == pre;
      FirstIndexIs(xs, xs[n], n);
      var r := init + [xs[n]];
      forall i, j | 0 <= i < j < |r| && r[i] in xs && r[j] in xs
        ensures FirstIndex(xs, r[i]) < FirstIndex(xs, r[j])
      {
        assert r[i] == init[i] && r[i] in pre;
        if j < |init| {
          assert r[j] == init[j];
        }
      }
    }
  }

  /** A sublist stays one when an element is added to the longer list, or to both. */
  lemma {:induction false} SublistExtend<T>(a: seq<T>, b: seq<T>, x: T)
    requires Sublist(a, b)
    ensures Sublist(a, b + [x])
    ensures Sublist(a + [x], b + [x])
    decreases |b|
  {
    if |a| == 0 {
      assert Sublist([x], [x]) by { assert [x][1..] == []; }
      assert a + [x] == [x];
      SublistPrefix([x], [x], b);
    } else if |b| == 0 {
    } else {
      assert (b + [x])[1..] == b[1..] + [x];
      assert (a + [x])[1..] == a[1..] + [x];
      if a[0] == b[0] && Sublist(a[1..], b[1..]) {
        SublistExtend(a[1..], b[1..], x);
      } else {
        SublistExtend(a, b[1..], x);
      }
    }
  }

  /** A sublist of `c` is a sublist of `b + c`. */
  lemma {:induction false} SublistPrefix<T>(a: seq<T>, b0: seq<T>, b: seq<T>)
    requires Sublist(a, b0)
    ensures Sublist(a, b + b0)
    decreases |b|
  {
    if |b| > 0 {
      SublistPrefix(a, b0, b[1..]);
      assert (b + b0)[1..] == b[1..] + b0;
    } else {
      assert b + b0 == b0;
    }
  }

  /** The distinct values of an already duplicate-free list are the list itself. */
  lemma {:induction false} DistinctOfDistinct<T(!new)>(xs: seq<T>)
    requires NoDuplicates(xs)
    ensures Distinct(xs) == xs
    decreases |xs|
  {
    if |xs| > 0 {
      var init, last := xs[..|xs| - 1], xs[|xs| - 1];
      NoDuplicatesInit(xs);
      DistinctOfDistinct(init);
      DistinctSnoc(xs);
      assert init + [last] == xs;
    }
  }

  /** Without duplicates, the list before the last element has none either and lacks the last element. */
  lemma NoDuplicatesInit<T>(xs: seq<T>)
    requires |xs| > 0 && NoDuplicates(xs)
    ensures NoDuplicates(xs[..|xs| - 1]) && xs[|xs| - 1] !in xs[..|xs| - 1]
  {
  }

  /** One step of the definition: the last element is appended when it is new. */
  lemma DistinctSnoc<T(!new)>(xs: seq<T>)
    requires |xs| > 0
    ensures var init := Distinct(xs[..|xs| - 1]);
      Distinct(xs) == if xs[|xs| - 1] in init then init else init + [xs[|xs| - 1]]
  {
  }
}
