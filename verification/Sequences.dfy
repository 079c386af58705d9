/** Counting, filtering, mapping and summing over sequences, and what a permutation leaves unchanged. */
module Sequences {
  function Last<T>(xs: seq<T>): T
    requires xs != []
  {
    xs[|xs| - 1]
  }

  function Init<T>(xs: seq<T>): seq<T>
    requires xs != []
  {
    xs[..|xs| - 1]
  }

  lemma InitLast<T>(xs: seq<T>)
    requires xs != []
    ensures xs == Init(xs) + [Last(xs)]
    ensures multiset(xs) == multiset(Init(xs)) + multiset{Last(xs)}
  {
    assert xs == Init(xs) + [Last(xs)];
  }

  function Without<T>(xs: seq<T>, i: nat): seq<T>
    requires i < |xs|
  {
    xs[..i] + xs[i + 1..]
  }

  lemma SplitAround<T>(xs: seq<T>, i: nat)
    requires i < |xs|
    ensures xs == (xs[..i] + [xs[i]]) + xs[i + 1..] && Without(xs, i) == xs[..i] + xs[i + 1..]
  {
  }

  lemma InsertedMultiset<T>(xs: seq<T>, k: nat, x: T)
    requires k <= |xs|
    ensures multiset(xs[..k] + [x] + xs[k..]) == multiset(xs) + multiset{x}
  {
    assert xs == xs[..k] + xs[k..];
  }

  lemma WithoutMultiset<T>(xs: seq<T>, i: nat)
    requires i < |xs|
    ensures multiset(xs) == multiset(Without(xs, i)) + multiset{xs[i]}
  {
    SplitAround(xs, i);
  }

  /** Where a permutation put the last element, and that the rest is a permutation of the rest. */
  lemma LastPermuted<T>(xs: seq<T>, ys: seq<T>) returns (i: nat)
    requires xs != [] && multiset(xs) == multiset(ys)
    ensures i < |ys| && ys[i] == Last(xs) && multiset(Without(ys, i)) == multiset(Init(xs))
  {
    InitLast(xs);
    assert Last(xs) in multiset(ys);
    i :| 0 <= i < |ys| && ys[i] == Last(xs);
    WithoutMultiset(ys, i);
    assert multiset(Without(ys, i)) == multiset(ys) - multiset{Last(xs)};
    assert multiset(Init(xs)) == multiset(xs) - multiset{Last(xs)};
  }

  lemma SameLength<T>(xs: seq<T>, ys: seq<T>)
    requires multiset(xs) == multiset(ys)
    ensures |xs| == |ys|
  {
    assert |multiset(xs)| == |xs| && |multiset(ys)| == |ys|;
  }

  // ----- Counting -----

  function Count<T>(xs: seq<T>, p: T -> bool): nat {
    if xs == [] then 0 else Count(Init(xs), p) + if p(Last(xs)) then 1 else 0
  }

  lemma {:induction false} CountConcat<T>(xs: seq<T>, ys: seq<T>, p: T -> bool)
    ensures Count(xs + ys, p) == Count(xs, p) + Count(ys, p)
  {
    if ys == [] {
      assert xs + ys == xs;
    } else {
      assert Init(xs + ys) == xs + Init(ys);
      CountConcat(xs, Init(ys), p);
    }
  }

  lemma CountWithout<T>(xs: seq<T>, i: nat, p: T -> bool)
    requires i < |xs|
    ensures Count(xs, p) == Count(Without(xs, i), p) + if p(xs[i]) then 1 else 0
  {
    hide Count, Without;
    var before, x, after := xs[..i], xs[i], xs[i + 1..];
    SplitAround(xs, i);
    CountConcat(before, after, p);
    CountConcat(before + [x], after, p);
    CountOneMore(before, x, p);
  }

  lemma {:induction false} CountSame<T>(xs: seq<T>, p: T -> bool, q: T -> bool)
    requires forall i :: 0 <= i < |xs| ==> p(xs[i]) == q(xs[i])
    ensures Count(xs, p) == Count(xs, q)
  {
    if xs != [] {
      CountSame(Init(xs), p, q);
    }
  }

  lemma CountOneMore<T>(xs: seq<T>, x: T, p: T -> bool)
    ensures Count(xs + [x], p) == Count(xs, p) + if p(x) then 1 else 0
  {
    assert Init(xs + [x]) == xs;
  }

  lemma {:induction false} CountPermuted<T>(xs: seq<T>, ys: seq<T>, p: T -> bool)
    requires multiset(xs) == multiset(ys)
    ensures Count(xs, p) == Count(ys, p)
  {
    SameLength(xs, ys);
    if xs != [] {
      var i := LastPermuted(xs, ys);
      CountPermuted(Init(xs), Without(ys, i), p);
      CountWithout(ys, i, p);
    }
  }

  // ----- Filtering -----

  function Filter<T>(xs: seq<T>, p: T -> bool): seq<T> {
    if xs == [] then []
    else
      var rest := Filter(Init(xs), p);
      if p(Last(xs)) then rest + [Last(xs)] else rest
  }

  lemma {:induction false} FilterMembers<T(!new)>(xs: seq<T>, p: T -> bool)
    ensures forall y :: y in Filter(xs, p) <==> y in xs && p(y)
  {
    if xs != [] {
      FilterMembers(Init(xs), p);
      assert forall y :: y in xs <==> y in Init(xs) || y == Last(xs);
    }
  }

  lemma FilterOneMore<T>(xs: seq<T>, x: T, p: T -> bool)
    ensures Filter(xs + [x], p) == if p(x) then Filter(xs, p) + [x] else Filter(xs, p)
  {
    assert Init(xs + [x]) == xs;
  }

  lemma {:induction false} FilterSame<T>(xs: seq<T>, p: T -> bool, q: T -> bool)
    requires forall i :: 0 <= i < |xs| ==> p(xs[i]) == q(xs[i])
    ensures Filter(xs, p) == Filter(xs, q)
  {
    if xs != [] {
      FilterSame(Init(xs), p, q);
    }
  }

  lemma {:induction false} FilterMultiplicity<T(!new)>(xs: seq<T>, p: T -> bool, x: T)
    ensures multiset(Filter(xs, p))[x] == if p(x) then multiset(xs)[x] else 0
  {
    if xs != [] {
      FilterMultiplicity(Init(xs), p, x);
      InitLast(xs);
    }
  }

  lemma FilterPermuted<T(!new)>(xs: seq<T>, ys: seq<T>, p: T -> bool)
    requires multiset(xs) == multiset(ys)
    ensures multiset(Filter(xs, p)) == multiset(Filter(ys, p))
  {
    forall x
      ensures multiset(Filter(xs, p))[x] == multiset(Filter(ys, p))[x]
    {
      FilterMultiplicity(xs, p, x);
      FilterMultiplicity(ys, p, x);
    }
  }

  // ----- Mapping -----

  function Map<A, B>(xs: seq<A>, f: A -> B): (ys: seq<B>)
    ensures |ys| == |xs| && forall i :: 0 <= i < |xs| ==> ys[i] == f(xs[i])
  {
    if xs == [] then [] else Map(Init(xs), f) + [f(Last(xs))]
  }

  lemma {:induction false} MapPermuted<A, B>(xs: seq<A>, ys: seq<A>, f: A -> B)
    requires multiset(xs) == multiset(ys)
    ensures multiset(Map(xs, f)) == multiset(Map(ys, f))
  {
    SameLength(xs, ys);
    if xs != [] {
      var i := LastPermuted(xs, ys);
      MapPermuted(Init(xs), Without(ys, i), f);
      MapWithout(ys, i, f);
      WithoutMultiset(Map(ys, f), i);
      MapInit(xs, f);
      InitLast(Map(xs, f));
      hide Without, Init;
    }
  }

  lemma WithoutMiddle<T>(before: seq<T>, x: T, after: seq<T>)
    ensures Without((before + [x]) + after, |before|) == before + after
  {
    var xs := (before + [x]) + after;
    assert xs[..|before|] == before && xs[|before| + 1..] == after;
  }

  lemma MapWithout<A, B>(xs: seq<A>, i: nat, f: A -> B)
    requires i < |xs|
    ensures Map(Without(xs, i), f) == Without(Map(xs, f), i)
  {
    var before, x, after := xs[..i], xs[i], xs[i + 1..];
    assert Map([x], f) == [f(x)];
    hide Map, Without;
    SplitAround(xs, i);
    MapConcat(before, after, f);
    MapConcat(before, [x], f);
    MapConcat(before + [x], after, f);
    WithoutMiddle(Map(before, f), f(x), Map(after, f));
  }

  lemma MapInit<A, B>(xs: seq<A>, f: A -> B)
    requires xs != []
    ensures Init(Map(xs, f)) == Map(Init(xs), f) && Last(Map(xs, f)) == f(Last(xs))
  {
    hide Map;
  }

  /** Filtering a mapped sequence by what the elements came from. */
  lemma {:induction false} FilterMap<A(!new), B(!new)>(xs: seq<A>, f: A -> B, p: B -> bool, q: A -> bool)
    requires forall x :: p(f(x)) == q(x)
    ensures Filter(Map(xs, f), p) == Map(Filter(xs, q), f)
  {
    if xs != [] {
      FilterMap(Init(xs), f, p, q);
      assert Init(Map(xs, f)) == Map(Init(xs), f);
      MapConcat(Filter(Init(xs), q), [Last(xs)], f);
    }
  }

  lemma MapConcat<A, B>(xs: seq<A>, ys: seq<A>, f: A -> B)
    ensures Map(xs + ys, f) == Map(xs, f) + Map(ys, f)
  {
  }

  lemma {:induction false} FilterTwice<T(!new)>(xs: seq<T>, p: T -> bool, q: T -> bool, both: T -> bool)
    requires forall x :: both(x) == (p(x) && q(x))
    ensures Filter(Filter(xs, p), q) == Filter(xs, both)
  {
    if xs != [] {
      FilterTwice(Init(xs), p, q, both);
      var kept := Filter(Init(xs), p);
      assert Init(kept + [Last(xs)]) == kept;
    }
  }

  // ----- Sums -----

  function Sum(xs: seq<real>): real {
    if xs == [] then 0.0 else Sum(Init(xs)) + Last(xs)
  }

  lemma {:induction false} SumConcat(xs: seq<real>, ys: seq<real>)
    ensures Sum(xs + ys) == Sum(xs) + Sum(ys)
  {
    if ys == [] {
      assert xs + ys == xs;
    } else {
      assert Init(xs + ys) == xs + Init(ys);
      SumConcat(xs, Init(ys));
    }
  }

  lemma {:induction false} SumWithout(xs: seq<real>, i: nat)
    requires i < |xs|
    ensures Sum(xs) == Sum(Without(xs, i)) + xs[i]
  {
    hide Sum, Without;
    var before, x, after := xs[..i], xs[i], xs[i + 1..];
    SplitAround(xs, i);
    SumConcat(before, after);
    SumConcat(before + [x], after);
    SumOneMore(before, x);
  }

  lemma SumOneMore(xs: seq<real>, x: real)
    ensures Sum(xs + [x]) == Sum(xs) + x
  {
    assert Init(xs + [x]) == xs;
  }

  lemma {:induction false} SumPermuted(xs: seq<real>, ys: seq<real>)
    requires multiset(xs) == multiset(ys)
    ensures Sum(xs) == Sum(ys)
  {
    SameLength(xs, ys);
    if xs != [] {
      var i := LastPermuted(xs, ys);
      SumPermuted(Init(xs), Without(ys, i));
      SumWithout(ys, i);
    }
  }
}
