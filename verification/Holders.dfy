/** Counting who holds what: each holder has a short list of references, and the counts add up. */
module Holders {
  function Count<T(==)>(refs: seq<T>, t: T): nat {
    if refs == [] then 0 else (if refs[0] == t then 1 else 0) + Count(refs[1..], t)
  }

  lemma {:induction false} CountConcat<T>(a: seq<T>, b: seq<T>, t: T)
    ensures Count(a + b, t) == Count(a, t) + Count(b, t)
  {
    if a == [] {
      assert a + b == b;
    } else {
      assert (a + b)[1..] == a[1..] + b;
      CountConcat(a[1..], b, t);
    }
  }

  lemma {:induction false} CountZero<T>(refs: seq<T>, t: T)
    ensures Count(refs, t) == 0 <==> t !in refs
  {
    if refs != [] {
      CountZero(refs[1..], t);
      assert refs == [refs[0]] + refs[1..];
    }
  }

  /** How often all holders together hold `t`. */
  function Held<T(==)>(holders: seq<seq<T>>, t: T): nat {
    if holders == [] then 0 else Count(holders[0], t) + Held(holders[1..], t)
  }

  lemma {:induction false} HeldConcat<T>(a: seq<seq<T>>, b: seq<seq<T>>, t: T)
    ensures Held(a + b, t) == Held(a, t) + Held(b, t)
  {
    if a == [] {
      assert a + b == b;
    } else {
      assert (a + b)[1..] == a[1..] + b;
      HeldConcat(a[1..], b, t);
    }
  }

  /** What one holder gives up and takes is exactly the difference. */
  lemma {:induction false} HeldUpdate<T>(holders: seq<seq<T>>, i: nat, x: seq<T>, t: T)
    requires i < |holders|
    ensures Held(holders[i := x], t) + Count(holders[i], t) == Held(holders, t) + Count(x, t)
    ensures Held(holders, t) >= Count(holders[i], t)
  {
    if i > 0 {
      assert holders[i := x][1..] == holders[1..][i - 1 := x];
      HeldUpdate(holders[1..], i - 1, x, t);
    } else {
      assert holders[i := x][1..] == holders[1..];
    }
  }

  /** A reference counted nowhere is held by nobody, and the other way round. */
  lemma {:induction false} HeldByNobody<T>(holders: seq<seq<T>>, t: T)
    ensures Held(holders, t) == 0 <==> forall i :: 0 <= i < |holders| ==> t !in holders[i]
  {
    if holders != [] {
      CountZero(holders[0], t);
      HeldByNobody(holders[1..], t);
      assert forall i :: 1 <= i < |holders| ==> holders[i] == holders[1..][i - 1];
    }
  }
}
