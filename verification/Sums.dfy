/** Sums over sequences, and their independence of order. */
module Sums {

  function SumBy<T>(f: T -> nat, s: seq<T>): nat {
    if s == [] then 0 else SumBy(f, s[..|s| - 1]) + f(s[|s| - 1])
  }

  lemma {:induction false} SumOfConcat<T>(f: T -> nat, a: seq<T>, b: seq<T>)
    ensures SumBy(f, a + b) == SumBy(f, a) + SumBy(f, b)
    decreases |b|
  {
    if b == [] {
      assert a + b == a;
    } else {
      SumOfConcat(f, a, b[..|b| - 1]);
      assert (a + b)[..|a + b| - 1] == a + b[..|b| - 1];
    }
  }

  lemma SumOfPrefix<T>(f: T -> nat, s: seq<T>, i: nat)
    requires i <= |s|
    ensures SumBy(f, s[..i]) <= SumBy(f, s)
  {
    SumOfConcat(f, s[..i], s[i..]);
    assert s == s[..i] + s[i..];
  }

  lemma SumWithout<T>(f: T -> nat, s: seq<T>, i: nat)
    requires i < |s|
    ensures SumBy(f, s) == SumBy(f, s[..i] + s[i + 1..]) + f(s[i])
    ensures multiset(s) == multiset(s[..i] + s[i + 1..]) + multiset{s[i]}
  {
    SplitAt(s, i);
    SumAround(f, s[..i], s[i], s[i + 1..]);
  }

  lemma SplitAt<T>(s: seq<T>, i: nat)
    requires i < |s|
    ensures s == s[..i] + [s[i]] + s[i + 1..]
  {
  }

  lemma SumAround<T>(f: T -> nat, a: seq<T>, x: T, b: seq<T>)
    ensures SumBy(f, a + [x] + b) == SumBy(f, a + b) + f(x)
    ensures multiset(a + [x] + b) == multiset(a + b) + multiset{x}
  {
    SumOfConcat(f, a + [x], b);
    SumAppend(f, a, x);
    SumOfConcat(f, a, b);
  }

  lemma SumAppend<T>(f: T -> nat, s: seq<T>, x: T)
    ensures SumBy(f, s + [x]) == SumBy(f, s) + f(x)
  {
    assert (s + [x])[..|s|] == s;
  }

  lemma CancelOne<T>(p: multiset<T>, q: multiset<T>, x: T)
    requires p + multiset{x} <= q + multiset{x}
    ensures p <= q
  {
    forall y ensures p[y] <= q[y] {
      assert (p + multiset{x})[y] <= (q + multiset{x})[y];
    }
  }

  /** A sum does not depend on the order of its terms. */
  lemma {:induction false} SumIsOrderFree<T>(f: T -> nat, a: seq<T>, b: seq<T>)
    requires multiset(a) == multiset(b)
    ensures SumBy(f, a) == SumBy(f, b)
    decreases |a|
  {
    if a == [] {
      assert |multiset(b)| == 0;
    } else {
      var x, rest := a[|a| - 1], a[..|a| - 1];
      assert a == rest + [x];
      assert x in multiset(a) && x in multiset(b);
      var i :| 0 <= i < |b| && b[i] == x;
      SumWithout(f, b, i);
      CancelOne(multiset(rest), multiset(b[..i] + b[i + 1..]), x);
      CancelOne(multiset(b[..i] + b[i + 1..]), multiset(rest), x);
      SumIsOrderFree(f, rest, b[..i] + b[i + 1..]);
    }
  }

  /** Part of a sum is at most the sum. */
  lemma {:induction false} SumOfPart<T>(f: T -> nat, a: seq<T>, b: seq<T>)
    requires multiset(a) <= multiset(b)
    ensures SumBy(f, a) <= SumBy(f, b)
    decreases |a|
  {
    if a != [] {
      var x, rest := a[|a| - 1], a[..|a| - 1];
      assert a == rest + [x];
      assert x in multiset(a) && x in multiset(b);
      var i :| 0 <= i < |b| && b[i] == x;
      SumWithout(f, b, i);
      CancelOne(multiset(rest), multiset(b[..i] + b[i + 1..]), x);
      SumOfPart(f, rest, b[..i] + b[i + 1..]);
    }
  }

  lemma {:induction false} SumOfPointwise<T>(f: T -> nat, g: T -> nat, s: seq<T>)
    requires forall i :: 0 <= i < |s| ==> f(s[i]) <= g(s[i])
    ensures SumBy(f, s) <= SumBy(g, s)
  {
    if s != [] {
      SumOfPointwise(f, g, s[..|s| - 1]);
    }
  }

  /** Two functions that add up to a third, term by term, add up in total. */
  lemma {:induction false} SumOfSum<T>(f: T -> nat, g: T -> nat, both: T -> nat, s: seq<T>)
    requires forall i :: 0 <= i < |s| ==> both(s[i]) == f(s[i]) + g(s[i])
    ensures SumBy(both, s) == SumBy(f, s) + SumBy(g, s)
  {
    if s != [] {
      SumOfSum(f, g, both, s[..|s| - 1]);
    }
  }
}
