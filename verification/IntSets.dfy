/** Finite sets of integers have a least element, and there is always a number past all of them. */
module IntSets {
  lemma SomeMember<T>(s: set<T>) returns (x: T)
    requires s != {}
    ensures x in s
  {
    x :| x in s;
  }

  lemma OneMoreCounted(was: set<nat>, now: set<nat>, n: nat, added: bool)
    requires n !in was && forall i: nat :: i in now <==> i in was || (added && i == n)
    ensures |now| == |was| + if added then 1 else 0
  {
    assert now == if added then was + {n} else was;
  }

  lemma {:induction false} LeastExists(s: set<int>)
    requires s != {}
    ensures exists m :: m in s && forall x :: x in s ==> m <= x
  {
    var x := SomeMember(s);
    if s != {x} {
      var rest := s - {x};
      LeastExists(rest);
      var m :| m in rest && forall y :: y in rest ==> m <= y;
      var least := if m < x then m else x;
      assert least in s;
      forall y | y in s
        ensures least <= y
      {
        assert y != x ==> y in rest;
      }
    }
  }

  lemma {:induction false} PastAll(s: set<int>, from: int) returns (age: int)
    ensures age >= from && forall x :: x in s ==> x < age
  {
    if s == {} {
      age := from;
    } else {
      var x := SomeMember(s);
      age := PastAll(s - {x}, from);
      if age <= x {
        age := x + 1;
      }
      assert forall y :: y in s ==> y == x || y in s - {x};
    }
  }
}
