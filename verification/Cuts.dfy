/**
  Cutting a row of n items into consecutive stretches of limited cost. Taking as many items as fit,
  each time, needs the fewest stretches, provided that no part of a stretch costs more than the whole.
*/
module Cuts {
  /** cost(a, b) is the cost of the items from a up to b. */
  type Cost = (nat, nat) -> real

  ghost predicate Growing(cost: Cost, n: nat) {
    forall a: nat, b: nat, a': nat, b': nat :: a <= a' < b' <= b <= n ==> cost(a', b') <= cost(a, b)
  }

  /** A stretch may be a single item, or items that fit. */
  ghost predicate Admissible(cost: Cost, limit: real, a: nat, b: nat) {
    b == a + 1 || cost(a, b) <= limit
  }

  /** `ends` cuts the items from a on into admissible stretches. */
  ghost predicate Cutting(cost: Cost, limit: real, n: nat, a: nat, ends: seq<nat>)
    decreases |ends|
  {
    if ends == [] then a == n
    else a < ends[0] <= n && Admissible(cost, limit, a, ends[0]) && Cutting(cost, limit, n, ends[0], ends[1..])
  }

  /** Where a stretch from a that has reached b ends when it takes all it can. */
  function Extend(cost: Cost, limit: real, n: nat, a: nat, b: nat): (e: nat)
    requires a < b <= n
    ensures b <= e <= n
    decreases n - b
  {
    if b < n && cost(a, b + 1) <= limit then Extend(cost, limit, n, a, b + 1) else b
  }

  function Greedy(cost: Cost, limit: real, n: nat, a: nat): seq<nat>
    requires a <= n
    decreases n - a
  {
    if a == n then []
    else
      var e := Extend(cost, limit, n, a, a + 1);
      [e] + Greedy(cost, limit, n, e)
  }

  /** The cutting to come when the current stretch runs from a and has reached k. */
  function Remaining(cost: Cost, limit: real, n: nat, a: nat, k: nat): seq<nat>
    requires a <= k <= n
  {
    if a == k then Greedy(cost, limit, n, a)
    else
      var e := Extend(cost, limit, n, a, k);
      [e] + Greedy(cost, limit, n, e)
  }

  lemma {:induction false} ExtendAdmissible(cost: Cost, limit: real, n: nat, a: nat, b: nat)
    requires a < b <= n && Admissible(cost, limit, a, b)
    ensures Admissible(cost, limit, a, Extend(cost, limit, n, a, b))
    decreases n - b
  {
    if b < n && cost(a, b + 1) <= limit {
      ExtendAdmissible(cost, limit, n, a, b + 1);
    }
  }

  lemma {:induction false} GreedyCuts(cost: Cost, limit: real, n: nat, a: nat)
    requires a <= n
    ensures Cutting(cost, limit, n, a, Greedy(cost, limit, n, a))
    decreases n - a
  {
    if a < n {
      var e := Extend(cost, limit, n, a, a + 1);
      ExtendAdmissible(cost, limit, n, a, a + 1);
      GreedyCuts(cost, limit, n, e);
      assert Greedy(cost, limit, n, a)[1..] == Greedy(cost, limit, n, e);
    }
  }

  /** A greedy stretch reaches at least as far as any that fits and starts no later. */
  lemma {:induction false} ExtendReaches(cost: Cost, limit: real, n: nat, a: nat, b: nat, e: nat)
    requires Growing(cost, n) && a < b <= e <= n
    requires e == b || cost(a, e) <= limit
    ensures e <= Extend(cost, limit, n, a, b)
    decreases n - b
  {
    if b < e {
      assert cost(a, b + 1) <= cost(a, e);
      ExtendReaches(cost, limit, n, a, b + 1, e);
    }
  }

  /** Greedy stays ahead: starting no earlier than another cutting it needs no more stretches. */
  lemma {:induction false} GreedyStaysAhead(cost: Cost, limit: real, n: nat, a: nat, ends: seq<nat>, a': nat)
    requires Growing(cost, n) && a <= a' <= n && Cutting(cost, limit, n, a, ends)
    ensures |Greedy(cost, limit, n, a')| <= |ends|
    decreases |ends|
  {
    if a' < n {
      var e := ends[0];
      if e <= a' {
        GreedyStaysAhead(cost, limit, n, e, ends[1..], a');
      } else {
        assert e > a' + 1 ==> cost(a', e) <= cost(a, e);
        ExtendReaches(cost, limit, n, a', a' + 1, e);
        GreedyStaysAhead(cost, limit, n, e, ends[1..], Extend(cost, limit, n, a', a' + 1));
      }
    }
  }

  /** Taking one more item that fits does not change where the stretch will end. */
  lemma OneMore(cost: Cost, limit: real, n: nat, a: nat, k: nat)
    requires a <= k < n && cost(a, k + 1) <= limit
    ensures Remaining(cost, limit, n, a, k + 1) == Remaining(cost, limit, n, a, k)
  {
  }

  /** An item that costs more than the limit stands alone. */
  lemma Alone(cost: Cost, limit: real, n: nat, k: nat)
    requires Growing(cost, n) && k < n && cost(k, k + 1) > limit
    ensures Greedy(cost, limit, n, k) == [k + 1] + Greedy(cost, limit, n, k + 1)
  {
    if k + 1 < n {
      assert cost(k, k + 1) <= cost(k, k + 2);
    }
  }

  /** A stretch that the next item would overload ends here. */
  lemma Full(cost: Cost, limit: real, n: nat, a: nat, k: nat)
    requires a < k < n && cost(a, k + 1) > limit
    ensures Remaining(cost, limit, n, a, k) == [k] + Remaining(cost, limit, n, k, k + 1)
  {
  }
}
