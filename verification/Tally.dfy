/** Counting good and bad outcomes. */
module Tally {
  function Count(results: seq<bool>, ok: bool): nat {
    if results == [] then 0 else Count(results[..|results| - 1], ok) + if results[|results| - 1] == ok then 1 else 0
  }

  lemma {:induction false} CountAppend(results: seq<bool>, r: bool, ok: bool)
    ensures Count(results + [r], ok) == Count(results, ok) + if r == ok then 1 else 0
  {
    assert (results + [r])[..|results|] == results;
  }

  lemma {:induction false} BothCounts(results: seq<bool>)
    ensures Count(results, true) + Count(results, false) == |results|
  {
    if results != [] {
      BothCounts(results[..|results| - 1]);
    }
  }

  lemma {:induction false} CountConcat(a: seq<bool>, b: seq<bool>, ok: bool)
    ensures Count(a + b, ok) == Count(a, ok) + Count(b, ok)
  {
    if b == [] {
      assert a + b == a;
    } else {
      assert (a + b)[..|a + b| - 1] == a + b[..|b| - 1];
      CountConcat(a, b[..|b| - 1], ok);
    }
  }

  lemma {:induction false} CountedIn(results: seq<bool>, ok: bool)
    ensures Count(results, ok) == multiset(results)[ok]
  {
    if results != [] {
      var init, r := results[..|results| - 1], results[|results| - 1];
      CountedIn(init, ok);
      assert results == init + [r];
      assert multiset(init + [r]) == multiset(init) + multiset{r};
    }
  }
}
