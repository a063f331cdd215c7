/** Facts about sequences and sets of anything. */
module Collections {

  lemma Regroup<T>(a: seq<T>, b: seq<T>, c: seq<T>)
    ensures a + (b + c) == (a + b) + c
  {
  }

  lemma OneMore<T>(s: seq<T>, i: nat)
    requires i < |s|
    ensures s[..i + 1] == s[..i] + [s[i]]
  {
  }

  lemma NoLargerThanSuperset<T>(a: set<T>, b: set<T>)
    requires a <= b
    ensures |a| <= |b|
  {
    assert b == a + (b - a);
  }

  function SetOf<T(==,!new)>(s: seq<T>): (r: set<T>)
    ensures forall t :: t in r <==> t in s
  {
    set t | t in s
  }

  /** Every element passes, one at a time from the end. */
  ghost predicate All<T>(s: seq<T>, passes: T -> bool) {
    s == [] || (All(s[..|s| - 1], passes) && passes(s[|s| - 1]))
  }

  lemma {:induction false} AllIsEach<T>(s: seq<T>, passes: T -> bool)
    ensures All(s, passes) <==> forall i :: 0 <= i < |s| ==> passes(s[i])
  {
    if s != [] {
      AllIsEach(s[..|s| - 1], passes);
    }
  }
}
