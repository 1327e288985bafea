/** Handles are numbered in the order they are opened. */
module Handles {
  function Numbers(n: nat): seq<nat> {
    if n == 0 then [] else Numbers(n - 1) + [n - 1]
  }

  /** Each of the first `n` handles is logged once, and nothing else is. */
  ghost predicate EachOnce(log: seq<nat>, n: nat) {
    multiset(log) == multiset(Numbers(n))
  }

  lemma {:induction false} NumbersOnce(n: nat, h: nat)
    ensures multiset(Numbers(n))[h] == if h < n then 1 else 0
  {
    if n > 0 { NumbersOnce(n - 1, h); }
  }

  lemma EachOnceMeans(log: seq<nat>, n: nat)
    ensures EachOnce(log, n) <==> forall h: nat :: multiset(log)[h] == if h < n then 1 else 0
  {
    forall h: nat ensures multiset(Numbers(n))[h] == if h < n then 1 else 0 { NumbersOnce(n, h); }
  }
}
