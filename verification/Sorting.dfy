/** Python's sorted(): a stable insertion sort and what it guarantees. */
module Sorting {
  import opened Common

  /** Put `x` in front of the first element it may precede. */
  function Insert<T>(x: T, ys: seq<T>, leq: (T, T) -> bool): (r: seq<T>)
    ensures multiset(r) == multiset{x} + multiset(ys)
    ensures |r| == |ys| + 1
  {
    if ys == [] then
      [x]
    else if leq(x, ys[0]) then
      assert [x] + ys == [x] + ys; [x] + ys
    else
      assert ys == [ys[0]] + ys[1..];
      [ys[0]] + Insert(x, ys[1..], leq)
  }

  function Sort<T>(xs: seq<T>, leq: (T, T) -> bool): (r: seq<T>)
    ensures multiset(r) == multiset(xs)
    ensures |r| == |xs|
  {
    if xs == [] then
      []
    else
      assert xs == [xs[0]] + xs[1..];
      Insert(xs[0], Sort(xs[1..], leq), leq)
  }

  ghost predicate Ordered<T>(xs: seq<T>, leq: (T, T) -> bool) {
    forall i, j :: 0 <= i < j < |xs| ==> leq(xs[i], xs[j])
  }

  ghost predicate TotalPreorder<T(!new)>(leq: (T, T) -> bool) {
    && (forall x, y :: leq(x, y) || leq(y, x))
    && (forall x, y, z :: leq(x, y) && leq(y, z) ==> leq(x, z))
  }

  lemma {:induction false} InsertOrders<T(!new)>(x: T, ys: seq<T>, leq: (T, T) -> bool)
    requires TotalPreorder(leq) && Ordered(ys, leq)
    ensures Ordered(Insert(x, ys, leq), leq)
  {
    if ys != [] && !leq(x, ys[0]) {
      var rest := Insert(x, ys[1..], leq);
      InsertOrders(x, ys[1..], leq);
      forall j | 0 <= j < |rest| ensures leq(ys[0], rest[j]) {
        assert rest[j] in multiset(rest);
        if rest[j] != x {
          assert rest[j] in multiset(ys[1..]);
          var k :| 0 <= k < |ys[1..]| && ys[1..][k] == rest[j];
          assert ys[k + 1] == rest[j];
        }
      }
    }
  }

  lemma {:induction false} SortOrders<T(!new)>(xs: seq<T>, leq: (T, T) -> bool)
    requires TotalPreorder(leq)
    ensures Ordered(Sort(xs, leq), leq)
  {
    if xs != [] {
      SortOrders(xs[1..], leq);
      InsertOrders(xs[0], Sort(xs[1..], leq), leq);
    }
  }

  function Filter<T>(xs: seq<T>, keep: T -> bool): seq<T> {
    if xs == [] then [] else (if keep(xs[0]) then [xs[0]] else []) + Filter(xs[1..], keep)
  }

  lemma FilterCons<T>(x: T, ys: seq<T>, keep: T -> bool)
    ensures Filter([x] + ys, keep) == (if keep(x) then [x] else []) + Filter(ys, keep)
  {
    assert ([x] + ys)[1..] == ys;
  }

  lemma {:induction false} FilterOfConcat<T>(xs: seq<T>, ys: seq<T>, keep: T -> bool)
    ensures Filter(xs + ys, keep) == Filter(xs, keep) + Filter(ys, keep)
  {
    if xs == [] {
      assert xs + ys == ys;
    } else {
      FilterOfConcat(xs[1..], ys, keep);
      assert xs + ys == [xs[0]] + (xs[1..] + ys);
      FilterCons(xs[0], xs[1..] + ys, keep);
    }
  }

  lemma {:induction false} InsertIsStable<T>(x: T, ys: seq<T>, leq: (T, T) -> bool, same: T -> bool)
    requires same(x) ==> forall y :: y in ys && same(y) ==> leq(x, y)
    ensures Filter(Insert(x, ys, leq), same) == (if same(x) then [x] else []) + Filter(ys, same)
  {
    if ys == [] || leq(x, ys[0]) {
      assert Insert(x, ys, leq) == [x] + ys;
      FilterCons(x, ys, same);
    } else {
      var rest, tail := Insert(x, ys[1..], leq), Filter(ys[1..], same);
      InsertIsStable(x, ys[1..], leq, same);
      assert Insert(x, ys, leq) == [ys[0]] + rest;
      FilterCons(ys[0], rest, same);
      assert ys[0] in ys && !(same(x) && same(ys[0]));
      SwapWithEmpty(if same(x) then [x] else [], if same(ys[0]) then [ys[0]] else [], tail);
    }
  }

  lemma SwapWithEmpty<T>(a: seq<T>, b: seq<T>, c: seq<T>)
    requires a == [] || b == []
    ensures a + (b + c) == b + (a + c)
  {
    assert [] + c == c;
  }

  /** Elements that may precede one another keep their order. */
  lemma {:induction false} SortIsStable<T>(xs: seq<T>, leq: (T, T) -> bool, same: T -> bool)
    requires forall x, y :: x in xs && y in xs && same(x) && same(y) ==> leq(x, y)
    ensures Filter(Sort(xs, leq), same) == Filter(xs, same)
  {
    if xs != [] {
      var rest := Sort(xs[1..], leq);
      SortIsStable(xs[1..], leq, same);
      forall y | y in rest ensures y in xs {
        assert y in multiset(rest);
        assert y in multiset(xs[1..]);
      }
      InsertIsStable(xs[0], rest, leq, same);
    }
  }

  /** Sorting neither adds nor drops elements. */
  lemma SortKeepsElements<T>(xs: seq<T>, leq: (T, T) -> bool, x: T)
    ensures x in Sort(xs, leq) <==> x in xs
  {
    assert x in Sort(xs, leq) <==> x in multiset(Sort(xs, leq));
    assert x in xs <==> x in multiset(xs);
  }

  lemma {:induction false} InsertKeepsDistinct<T>(x: T, ys: seq<T>, leq: (T, T) -> bool)
    requires x !in ys && Distinct(ys)
    ensures Distinct(Insert(x, ys, leq))
  {
    if ys != [] && !leq(x, ys[0]) {
      var rest := Insert(x, ys[1..], leq);
      InsertKeepsDistinct(x, ys[1..], leq);
      forall j | 0 <= j < |rest| ensures rest[j] != ys[0] {
        assert rest[j] in multiset(rest);
      }
    }
  }

  lemma {:induction false} SortKeepsDistinct<T>(xs: seq<T>, leq: (T, T) -> bool)
    requires Distinct(xs)
    ensures Distinct(Sort(xs, leq))
  {
    if xs != [] {
      SortKeepsDistinct(xs[1..], leq);
      SortKeepsElements(xs[1..], leq, xs[0]);
      InsertKeepsDistinct(xs[0], Sort(xs[1..], leq), leq);
    }
  }

  lemma {:induction false} FilterElements<T>(xs: seq<T>, keep: T -> bool, x: T)
    ensures x in Filter(xs, keep) <==> x in xs && keep(x)
  {
    if xs != [] {
      FilterElements(xs[1..], keep, x);
    }
  }

  /** A filtered list keeps order and distinctness. */
  lemma {:induction false} FilterKeepsOrder<T>(xs: seq<T>, keep: T -> bool, leq: (T, T) -> bool)
    requires Ordered(xs, leq) && Distinct(xs)
    ensures Ordered(Filter(xs, keep), leq) && Distinct(Filter(xs, keep))
  {
    if xs != [] {
      FilterKeepsOrder(xs[1..], keep, leq);
      var rest := Filter(xs[1..], keep);
      forall j | 0 <= j < |rest| ensures leq(xs[0], rest[j]) && rest[j] != xs[0] {
        FilterElements(xs[1..], keep, rest[j]);
      }
    }
  }

  /** With no two different elements equivalent, the sorted arrangement is unique. */
  lemma {:induction false} OrderedIsUnique<T(!new)>(a: seq<T>, b: seq<T>, leq: (T, T) -> bool)
    requires TotalPreorder(leq) && forall x, y :: leq(x, y) && leq(y, x) ==> x == y
    requires Ordered(a, leq) && Ordered(b, leq) && multiset(a) == multiset(b)
    ensures a == b
  {
    if a == [] {
      assert |multiset(b)| == 0;
    } else {
      HeadsAgree(a, b, leq);
      TailsAgree(a, b);
      OrderedIsUnique(a[1..], b[1..], leq);
      assert a == [a[0]] + a[1..] && b == [b[0]] + b[1..];
    }
  }

  lemma HeadsAgree<T(!new)>(a: seq<T>, b: seq<T>, leq: (T, T) -> bool)
    requires TotalPreorder(leq) && forall x, y :: leq(x, y) && leq(y, x) ==> x == y
    requires Ordered(a, leq) && Ordered(b, leq) && multiset(a) == multiset(b) && a != []
    ensures b != [] && a[0] == b[0]
  {
    assert |multiset(b)| == |a|;
    assert a[0] in multiset(a) && b[0] in multiset(b);
    HeadIsLeast(a, b[0], leq);
    HeadIsLeast(b, a[0], leq);
  }

  lemma TailsAgree<T>(a: seq<T>, b: seq<T>)
    requires a != [] && b != [] && a[0] == b[0] && multiset(a) == multiset(b)
    ensures multiset(a[1..]) == multiset(b[1..])
  {
    assert a == [a[0]] + a[1..] && b == [b[0]] + b[1..];
    assert multiset(a[1..]) == multiset(a) - multiset{a[0]};
    assert multiset(b[1..]) == multiset(b) - multiset{b[0]};
  }

  lemma HeadIsLeast<T(!new)>(xs: seq<T>, x: T, leq: (T, T) -> bool)
    requires TotalPreorder(leq) && Ordered(xs, leq) && x in multiset(xs)
    ensures xs != [] && leq(xs[0], x)
  {
    var i :| 0 <= i < |xs| && xs[i] == x;
  }

  lemma {:induction false} FilterNone<T>(xs: seq<T>, keep: T -> bool)
    requires forall i :: 0 <= i < |xs| ==> !keep(xs[i])
    ensures Filter(xs, keep) == []
  {
    if xs != [] {
      FilterNone(xs[1..], keep);
    }
  }

  lemma {:induction false} FilterAll<T>(xs: seq<T>, keep: T -> bool)
    requires forall i :: 0 <= i < |xs| ==> keep(xs[i])
    ensures Filter(xs, keep) == xs
  {
    if xs != [] {
      FilterAll(xs[1..], keep);
    }
  }
}
