/** Python's `filter` over lists, and the facts about it that the calendar model uses. */
module Seqs {

  /** The elements of `s` that `keep` accepts, in their original order. */
  function Filter<T(!new)>(keep: T -> bool, s: seq<T>): (r: seq<T>)
    ensures forall x :: x in r <==> x in s && keep(x)
  {
    if s == [] then []
    else
      assert s == [s[0]] + s[1..];
      (if keep(s[0]) then [s[0]] else []) + Filter(keep, s[1..])
  }

  /** Every accepted element is kept as often as `s` lists it; every other one is dropped. */
  lemma {:induction false} FilterMultiplicity<T(!new)>(keep: T -> bool, s: seq<T>)
    ensures forall x :: multiset(Filter(keep, s))[x] == if keep(x) then multiset(s)[x] else 0
  {
    if s != [] {
      FilterMultiplicity(keep, s[1..]);
      assert s == [s[0]] + s[1..];
    }
  }

  /** Two tests that agree on every element select the same elements. */
  lemma {:induction false} FilterCongruent<T(!new)>(f: T -> bool, g: T -> bool, s: seq<T>)
    requires forall x :: x in s ==> f(x) == g(x)
    ensures Filter(f, s) == Filter(g, s)
  {
    if s != [] {
      FilterCongruent(f, g, s[1..]);
    }
  }

  /** A stricter test selects a sub-multiset. */
  lemma {:induction false} FilterStricter<T(!new)>(f: T -> bool, g: T -> bool, s: seq<T>)
    requires forall x :: x in s && f(x) ==> g(x)
    ensures multiset(Filter(f, s)) <= multiset(Filter(g, s))
  {
    if s != [] {
      FilterStricter(f, g, s[1..]);
    }
  }

  /** Filtering twice is filtering once by both tests. */
  lemma {:induction false} FilterFilter<T(!new)>(f: T -> bool, g: T -> bool, both: T -> bool, s: seq<T>)
    requires forall x :: both(x) == (f(x) && g(x))
    ensures Filter(g, Filter(f, s)) == Filter(both, s)
  {
    if s != [] {
      FilterFilter(f, g, both, s[1..]);
      var t := Filter(f, s[1..]);
      if f(s[0]) {
        assert Filter(f, s) == [s[0]] + t;
        assert ([s[0]] + t)[1..] == t;
        assert Filter(g, [s[0]] + t) == (if g(s[0]) then [s[0]] else []) + Filter(g, t);
      } else {
        assert Filter(f, s) == t;
      }
    }
  }
}
