/** Grading a split is a multiset difference between the pinned titles and the collected ones. */
module SplitGrading {
  import opened KeyOrder
  import opened OrderedMap
  import opened SuiteTitleMap
  import opened SplitMap

  // ---- What the counts hold -----------------------------------------------------------------------

  /** Counting gives every title its multiplicity. */
  lemma {:induction false} CountsAreMultiplicities(titles: seq<Text>)
    ensures OrderedMap.Distinct(Counts(titles)) && forall t :: Tally(Counts(titles), t) == multiset(titles)[t]
  {
    if titles != [] {
      var last, front := titles[|titles| - 1], titles[..|titles| - 1];
      CountsAreMultiplicities(front);
      PutContents(Counts(front), last, Tally(Counts(front), last) + 1);
      assert titles == front + [last];
    }
  }

  lemma {:induction false} CountedKeys(titles: seq<Text>)
    ensures KeysOf(Counts(titles)) == Dedup(titles)
  {
    if titles != [] {
      CountedKeys(titles[..|titles| - 1]);
      CountedOneMore(titles);
    }
  }

  lemma CountedOneMore(titles: seq<Text>)
    requires titles != [] && KeysOf(Counts(titles[..|titles| - 1])) == Dedup(titles[..|titles| - 1])
    ensures KeysOf(Counts(titles)) == Dedup(titles)
  {
    CountsOneMore(titles);
    DedupOneMore(titles);
  }

  lemma CountsOneMore(titles: seq<Text>)
    requires titles != []
    ensures
      var last, keys := titles[|titles| - 1], KeysOf(Counts(titles[..|titles| - 1]));
      KeysOf(Counts(titles)) == if last in keys then keys else keys + [last]
  {
    var n := CountsUnfold(titles);
    PutKeepsPlaces(Counts(titles[..|titles| - 1]), titles[|titles| - 1], n);
  }

  lemma CountsUnfold(titles: seq<Text>) returns (n: nat)
    requires titles != []
    ensures Counts(titles) == Put(Counts(titles[..|titles| - 1]), titles[|titles| - 1], n)
  {
    n := Tally(Counts(titles[..|titles| - 1]), titles[|titles| - 1]) + 1;
  }

  /** The counts come in the order in which the titles first appear: where an earlier one appears, no later one has. */
  lemma CountsInOrder(titles: seq<Text>, i: nat, j: nat) returns (p: nat)
    requires i < j < |Counts(titles)|
    ensures p < |titles| && titles[p] == Counts(titles)[i].key && Counts(titles)[j].key !in titles[..p]
  {
    CountedKeys(titles);
    assert KeysOf(Counts(titles))[i] == Counts(titles)[i].key && KeysOf(Counts(titles))[j] == Counts(titles)[j].key;
    p := FirstAppearance(titles, i, j);
  }

  lemma {:induction false} TallyAppend(counts: seq<Entry<Text, nat>>, e: Entry<Text, nat>, t: Text)
    requires OrderedMap.Distinct(counts + [e])
    ensures Tally(counts + [e], t) == if t == e.key then e.value else Tally(counts, t)
    ensures Tally(counts, e.key) == 0
  {
    var more := counts + [e];
    assert more[|counts|] == e;
    if counts == [] {
      assert more == [e] && [e][1..] == [];
    } else {
      assert more[1..] == counts[1..] + [e] && more[0] == counts[0];
      TallyAppend(counts[1..], e, t);
    }
  }

  // ---- Where a missing title went ---------------------------------------------------------------------

  /** A file outside the split that has the title. */
  ghost predicate HoldsElsewhere(c: Context, path: Text, title: Text) {
    path !in c.parts && exists i :: 0 <= i < |c.after| && c.after[i].key == path && title in c.after[i].value
  }

  lemma {:induction false} ElsewhereIs(after: View, parts: seq<Text>, title: Text, path: Text)
    ensures path in Elsewhere(after, parts, title)
            <==> path !in parts && exists i :: 0 <= i < |after| && after[i].key == path && title in after[i].value
  {
    if after != [] {
      var front, last := after[..|after| - 1], after[|after| - 1];
      ElsewhereIs(front, parts, title, path);
      assert after == front + [last];
    }
  }

  /** A missing title is reported as moved exactly when another file has it, and then names exactly those files. */
  lemma MovedNamesWhere(c: Context, title: Text)
    ensures
      var f := MissingFinding(c, title);
      && f.script == c.script && f.title == title && f.files[0] == c.whole
      && (f.kind == TitleMoved || f.kind == TitleDropped)
      && (f.kind == TitleMoved <==> exists path :: HoldsElsewhere(c, path, title))
      && forall path :: path in f.files[1..] <==> HoldsElsewhere(c, path, title)
  {
    var there := Elsewhere(c.after, c.parts, title);
    SortKeepsKeys(there);
    forall path ensures path in Sort(there) <==> HoldsElsewhere(c, path, title) {
      ElsewhereIs(c.after, c.parts, title, path);
    }
    assert MissingFinding(c, title).files[1..] == Sort(there);
    if Sort(there) != [] {
      assert HoldsElsewhere(c, Sort(there)[0], title);
    }
  }

  lemma {:induction false} HoldersAre(after: View, parts: seq<Text>, title: Text, path: Text)
    ensures path in Holders(after, parts, title)
            <==> path in parts && path in Contents(after) && title in Contents(after)[path]
  {
    if parts != [] {
      HoldersAre(after, parts[..|parts| - 1], title, path);
      assert parts == parts[..|parts| - 1] + [parts[|parts| - 1]];
    }
  }

  /** A surplus title is reported as duplicated exactly when it was wanted at all, as added otherwise, and names exactly
      the parts that collect it. */
  lemma SurplusNamesHolders(c: Context, title: Text, want: nat)
    ensures
      var f := SurplusFinding(c, title, want);
      && f.script == c.script && f.title == title
      && f.kind == (if want == 0 then TitleAdded else TitleDuplicated)
      && forall path :: path in f.files <==> path in c.parts && path in Contents(c.after) && title in Contents(c.after)[path]
  {
    forall path
      ensures path in SurplusFinding(c, title, want).files
              <==> path in c.parts && path in Contents(c.after) && title in Contents(c.after)[path]
    {
      HoldersAre(c.after, c.parts, title, path);
    }
  }

  lemma {:induction false} RepeatHas(n: nat, f: Finding, g: Finding)
    ensures g in Repeat(n, f) ==> g == f
  {
    if n > 0 { RepeatHas(n - 1, f, g); }
  }

  lemma {:induction false} MissingHas(c: Context, expected: seq<Entry<Text, nat>>, got: seq<Entry<Text, nat>>, f: Finding)
    requires f in Missing(c, expected, got)
    ensures f == MissingFinding(c, f.title)
  {
    var e, front := expected[|expected| - 1], expected[..|expected| - 1];
    if f in Missing(c, front, got) {
      MissingHas(c, front, got, f);
    } else {
      RepeatHas(e.value - Tally(got, e.key), MissingFinding(c, e.key), f);
    }
  }

  lemma {:induction false} SurplusHas(c: Context, expected: seq<Entry<Text, nat>>, got: seq<Entry<Text, nat>>, f: Finding)
    requires f in Surplus(c, expected, got)
    ensures f == SurplusFinding(c, f.title, Tally(expected, f.title))
  {
    var e, front := got[|got| - 1], got[..|got| - 1];
    if f in Surplus(c, expected, front) {
      SurplusHas(c, expected, front, f);
    } else {
      var want := Tally(expected, e.key);
      RepeatHas(e.value - want, SurplusFinding(c, e.key, want), f);
    }
  }

  lemma {:induction false} CollisionsHave(
    script: Text, whole: Text, parts: seq<Text>, mapped: map<Text, seq<Text>>, f: Finding)
    ensures f in Collisions(script, whole, parts, mapped) <==> exists p ::
      p in parts && p != whole && p in mapped && f == Finding(script, PartCollides, [p], [])
  {
    if parts != [] {
      CollisionsHave(script, whole, parts[..|parts| - 1], mapped, f);
      assert parts == parts[..|parts| - 1] + [parts[|parts| - 1]];
    }
  }

  /** What a gain is reported as: duplicated exactly when the split file has the title at all, added otherwise, naming
      exactly the parts that collect it. */
  lemma GainsNameHolders(c: Context, mapped: map<Text, seq<Text>>, f: Finding)
    requires c.whole in mapped && f in Grade(c, mapped) && (f.kind == TitleAdded || f.kind == TitleDuplicated)
    ensures f.script == c.script && (f.kind == TitleDuplicated <==> f.title in mapped[c.whole])
    ensures forall path :: path in f.files <==>
      path in c.parts && path in Contents(c.after) && f.title in Contents(c.after)[path]
  {
    var pinned, got := mapped[c.whole], Counts(Collected(c.after, c.parts));
    CollisionsHave(c.script, c.whole, c.parts, mapped, f);
    if f in Missing(c, Counts(pinned), got) {
      MissingHas(c, Counts(pinned), got, f);
    }
    SurplusHas(c, Counts(pinned), got, f);
    CountsAreMultiplicities(pinned);
    SurplusNamesHolders(c, f.title, Tally(Counts(pinned), f.title));
  }

  /** What a loss is reported as: moved exactly when a file outside the split has the title, naming the split file and
      exactly those files. */
  lemma LossesNameWhere(c: Context, mapped: map<Text, seq<Text>>, f: Finding)
    requires c.whole in mapped && f in Grade(c, mapped) && (f.kind == TitleDropped || f.kind == TitleMoved)
    ensures f.script == c.script && f.files != [] && f.files[0] == c.whole
    ensures f.kind == TitleMoved <==> exists path :: HoldsElsewhere(c, path, f.title)
    ensures forall path :: path in f.files[1..] <==> HoldsElsewhere(c, path, f.title)
    ensures OrderedMap.Distinct(c.after) ==> Ascending(f.files[1..])
  {
    var pinned, got := Counts(mapped[c.whole]), Counts(Collected(c.after, c.parts));
    CollisionsHave(c.script, c.whole, c.parts, mapped, f);
    if f in Surplus(c, pinned, got) {
      SurplusHas(c, pinned, got, f);
    }
    MissingHas(c, pinned, got, f);
    MovedNamesWhere(c, f.title);
    if OrderedMap.Distinct(c.after) {
      ElsewhereIsDistinct(c.after, c.parts, f.title);
      SortSorts(Elsewhere(c.after, c.parts, f.title));
    }
  }

  lemma {:induction false} ElsewhereIsDistinct(after: View, parts: seq<Text>, title: Text)
    requires OrderedMap.Distinct(after)
    ensures KeyOrder.Distinct(Elsewhere(after, parts, title))
  {
    if after != [] {
      var front, last := after[..|after| - 1], after[|after| - 1];
      ElsewhereIsDistinct(front, parts, title);
      ElsewhereIs(front, parts, title, last.key);
      assert forall i :: 0 <= i < |front| ==> front[i] == after[i];
      assert last.key !in Elsewhere(front, parts, title);
    }
  }

  // ---- What the findings say ------------------------------------------------------------------------

  predicate IsLoss(k: Kind) {
    k == TitleDropped || k == TitleMoved
  }

  predicate IsGain(k: Kind) {
    k == TitleAdded || k == TitleDuplicated
  }

  /** How often a title is reported as dropped or moved away. */
  function Losses(fs: seq<Finding>, t: Text): nat {
    if fs == [] then 0
    else
      var f := fs[|fs| - 1];
      Losses(fs[..|fs| - 1], t) + if IsLoss(f.kind) && f.title == t then 1 else 0
  }

  /** How often a title is reported as added or duplicated. */
  function Gains(fs: seq<Finding>, t: Text): nat {
    if fs == [] then 0
    else
      var f := fs[|fs| - 1];
      Gains(fs[..|fs| - 1], t) + if IsGain(f.kind) && f.title == t then 1 else 0
  }

  lemma {:induction false} FindingsConcat(a: seq<Finding>, b: seq<Finding>, t: Text)
    ensures Losses(a + b, t) == Losses(a, t) + Losses(b, t) && Gains(a + b, t) == Gains(a, t) + Gains(b, t)
  {
    if b == [] {
      assert a + b == a;
    } else {
      FindingsConcat(a, b[..|b| - 1], t);
      assert (a + b)[..|a + b| - 1] == a + b[..|b| - 1];
    }
  }

  lemma {:induction false} RepeatReports(n: nat, f: Finding, t: Text)
    ensures Losses(Repeat(n, f), t) == if IsLoss(f.kind) && f.title == t then n else 0
    ensures Gains(Repeat(n, f), t) == if IsGain(f.kind) && f.title == t then n else 0
  {
    if n > 0 {
      RepeatReports(n - 1, f, t);
      assert Repeat(n, f)[..|Repeat(n, f)| - 1] == Repeat(n - 1, f);
    }
  }

  function Minus(a: nat, b: nat): nat {
    if a > b then a - b else 0
  }

  function MissingOf(c: Context, e: Entry<Text, nat>, got: seq<Entry<Text, nat>>): seq<Finding> {
    Repeat(Minus(e.value, Tally(got, e.key)), MissingFinding(c, e.key))
  }

  function SurplusOf(c: Context, expected: seq<Entry<Text, nat>>, e: Entry<Text, nat>): seq<Finding> {
    Repeat(Minus(e.value, Tally(expected, e.key)), SurplusFinding(c, e.key, Tally(expected, e.key)))
  }

  lemma MissingGrows(c: Context, expected: seq<Entry<Text, nat>>, got: seq<Entry<Text, nat>>)
    requires expected != []
    ensures Missing(c, expected, got)
            == Missing(c, expected[..|expected| - 1], got) + MissingOf(c, expected[|expected| - 1], got)
  {
  }

  lemma SurplusGrows(c: Context, expected: seq<Entry<Text, nat>>, got: seq<Entry<Text, nat>>)
    requires got != []
    ensures Surplus(c, expected, got)
            == Surplus(c, expected, got[..|got| - 1]) + SurplusOf(c, expected, got[|got| - 1])
  {
  }

  lemma {:induction false} MissingReports(
    c: Context, expected: seq<Entry<Text, nat>>, got: seq<Entry<Text, nat>>, t: Text)
    requires OrderedMap.Distinct(expected)
    ensures Losses(Missing(c, expected, got), t) == Minus(Tally(expected, t), Tally(got, t))
    ensures Gains(Missing(c, expected, got), t) == 0
  {
    if expected != [] {
      var e, front := expected[|expected| - 1], expected[..|expected| - 1];
      MissingReports(c, front, got, t);
      RepeatReports(Minus(e.value, Tally(got, e.key)), MissingFinding(c, e.key), t);
      FindingsConcat(Missing(c, front, got), MissingOf(c, e, got), t);
      LastOf(expected, t);
      MissingGrows(c, expected, got);
    }
  }

  lemma LastOf(counts: seq<Entry<Text, nat>>, t: Text)
    requires OrderedMap.Distinct(counts) && counts != []
    ensures
      var front, e := counts[..|counts| - 1], counts[|counts| - 1];
      Tally(counts, t) == (if t == e.key then e.value else Tally(front, t)) && Tally(front, e.key) == 0
  {
    var front, e := counts[..|counts| - 1], counts[|counts| - 1];
    assert counts == front + [e];
    TallyAppend(front, e, t);
  }

  lemma {:induction false} SurplusReports(
    c: Context, expected: seq<Entry<Text, nat>>, got: seq<Entry<Text, nat>>, t: Text)
    requires OrderedMap.Distinct(got)
    ensures Gains(Surplus(c, expected, got), t) == Minus(Tally(got, t), Tally(expected, t))
    ensures Losses(Surplus(c, expected, got), t) == 0
  {
    if got != [] {
      var e, front := got[|got| - 1], got[..|got| - 1];
      SurplusReports(c, expected, front, t);
      RepeatReports(Minus(e.value, Tally(expected, e.key)), SurplusFinding(c, e.key, Tally(expected, e.key)), t);
      FindingsConcat(Surplus(c, expected, front), SurplusOf(c, expected, e), t);
      LastOf(got, t);
      SurplusGrows(c, expected, got);
    }
  }

  lemma {:induction false} CollisionsReport(
    script: Text, whole: Text, parts: seq<Text>, mapped: map<Text, seq<Text>>, t: Text)
    ensures Losses(Collisions(script, whole, parts, mapped), t) == 0
    ensures Gains(Collisions(script, whole, parts, mapped), t) == 0
  {
    if parts != [] {
      var front, last := parts[..|parts| - 1], parts[|parts| - 1];
      var f := if last != whole && last in mapped then [Finding(script, PartCollides, [last], [])] else [];
      CollisionsReport(script, whole, front, mapped, t);
      FindingsConcat(Collisions(script, whole, front, mapped), f, t);
      assert Collisions(script, whole, parts, mapped) == Collisions(script, whole, front, mapped) + f;
      assert f != [] ==> f[..0] == [];
    }
  }

  lemma {:induction false} NoCollisions(script: Text, whole: Text, parts: seq<Text>, mapped: map<Text, seq<Text>>)
    ensures Collisions(script, whole, parts, mapped) == [] <==> forall p :: p in parts && p != whole ==> p !in mapped
  {
    if parts != [] {
      var front, last := parts[..|parts| - 1], parts[|parts| - 1];
      NoCollisions(script, whole, front, mapped);
      assert parts == front + [last];
    }
  }

  /** The titles reported lost are exactly the pinned ones not collected, and the titles reported gained exactly
      the collected ones not pinned, each as often as the two differ. */
  lemma GradeIsDifference(c: Context, mapped: map<Text, seq<Text>>, t: Text)
    requires c.whole in mapped
    ensures
      var pinned, collected := multiset(mapped[c.whole])[t], multiset(Collected(c.after, c.parts))[t];
      && Losses(Grade(c, mapped), t) == Minus(pinned, collected)
      && Gains(Grade(c, mapped), t) == Minus(collected, pinned)
  {
    var pinned, collected := mapped[c.whole], Collected(c.after, c.parts);
    var expected, got := Counts(pinned), Counts(collected);
    var missing, surplus := Missing(c, expected, got), Surplus(c, expected, got);
    CountsAreMultiplicities(pinned);
    CountsAreMultiplicities(collected);
    MissingReports(c, expected, got, t);
    SurplusReports(c, expected, got, t);
    CollisionsReport(c.script, c.whole, c.parts, mapped, t);
    FindingsConcat(missing, surplus, t);
    FindingsConcat(Collisions(c.script, c.whole, c.parts, mapped), missing + surplus, t);
  }

  /** How many findings are about titles. */
  function TitleFindings(fs: seq<Finding>): nat {
    if fs == [] then 0
    else TitleFindings(fs[..|fs| - 1]) + if IsLoss(fs[|fs| - 1].kind) || IsGain(fs[|fs| - 1].kind) then 1 else 0
  }

  /** The findings about titles number what the two multisets differ in, summed over all titles. */
  lemma TitleFindingsCountTheDifference(c: Context, mapped: map<Text, seq<Text>>)
    requires c.whole in mapped
    ensures
      var pinned, collected := multiset(mapped[c.whole]), multiset(Collected(c.after, c.parts));
      TitleFindings(Grade(c, mapped)) == |pinned - collected| + |collected - pinned|
  {
    var fs := Grade(c, mapped);
    var pinned, collected := multiset(mapped[c.whole]), multiset(Collected(c.after, c.parts));
    EachTitleOnce(fs);
    forall t
      ensures LostTitles(fs)[t] == (pinned - collected)[t] && GainedTitles(fs)[t] == (collected - pinned)[t]
    {
      CountedLosses(fs, t);
      GradeIsDifference(c, mapped, t);
    }
    SameMultiset(LostTitles(fs), pinned - collected);
    SameMultiset(GainedTitles(fs), collected - pinned);
  }

  lemma SameMultiset(a: multiset<Text>, b: multiset<Text>)
    requires forall t :: a[t] == b[t]
    ensures a == b
  {
  }

  function LostTitles(fs: seq<Finding>): multiset<Text> {
    if fs == [] then multiset{}
    else
      var f := fs[|fs| - 1];
      LostTitles(fs[..|fs| - 1]) + if IsLoss(f.kind) then multiset{f.title} else multiset{}
  }

  function GainedTitles(fs: seq<Finding>): multiset<Text> {
    if fs == [] then multiset{}
    else
      var f := fs[|fs| - 1];
      GainedTitles(fs[..|fs| - 1]) + if IsGain(f.kind) then multiset{f.title} else multiset{}
  }

  lemma {:induction false} CountedLosses(fs: seq<Finding>, t: Text)
    ensures LostTitles(fs)[t] == Losses(fs, t) && GainedTitles(fs)[t] == Gains(fs, t)
  {
    if fs != [] {
      CountedLosses(fs[..|fs| - 1], t);
    }
  }

  lemma {:induction false} EachTitleOnce(fs: seq<Finding>)
    ensures TitleFindings(fs) == |LostTitles(fs)| + |GainedTitles(fs)|
  {
    if fs != [] {
      EachTitleOnce(fs[..|fs| - 1]);
    }
  }

  /** A split is graded without a finding exactly when its parts collect the pinned titles, each as often, and
      no part is a pinned file of its own. */
  lemma GradeIsEmptyExactly(c: Context, mapped: map<Text, seq<Text>>)
    requires c.whole in mapped
    ensures Grade(c, mapped) == [] <==> (
              && multiset(mapped[c.whole]) == multiset(Collected(c.after, c.parts))
              && forall p :: p in c.parts && p != c.whole ==> p !in mapped)
  {
    var pinned, collected := mapped[c.whole], Collected(c.after, c.parts);
    NoCollisions(c.script, c.whole, c.parts, mapped);
    if Grade(c, mapped) == [] {
      forall t ensures multiset(pinned)[t] == multiset(collected)[t] {
        GradeIsDifference(c, mapped, t);
      }
      SameMultiset(multiset(pinned), multiset(collected));
    }
    if multiset(pinned) == multiset(collected) {
      CountsAreMultiplicities(pinned);
      CountsAreMultiplicities(collected);
      NothingMissing(c, Counts(pinned), Counts(collected));
      NothingSurplus(c, Counts(pinned), Counts(collected));
    }
  }

  lemma {:induction false} NothingMissing(c: Context, expected: seq<Entry<Text, nat>>, got: seq<Entry<Text, nat>>)
    requires OrderedMap.Distinct(expected) && forall t :: Tally(expected, t) <= Tally(got, t)
    ensures Missing(c, expected, got) == []
  {
    if expected != [] {
      forall t ensures Tally(expected[..|expected| - 1], t) <= Tally(expected, t) {
        LastOf(expected, t);
      }
      NothingMissing(c, expected[..|expected| - 1], got);
      LastOf(expected, expected[|expected| - 1].key);
    }
  }

  lemma {:induction false} NothingSurplus(c: Context, expected: seq<Entry<Text, nat>>, got: seq<Entry<Text, nat>>)
    requires OrderedMap.Distinct(got) && forall t :: Tally(got, t) <= Tally(expected, t)
    ensures Surplus(c, expected, got) == []
  {
    if got != [] {
      forall t ensures Tally(got[..|got| - 1], t) <= Tally(got, t) {
        LastOf(got, t);
      }
      NothingSurplus(c, expected, got[..|got| - 1]);
      LastOf(got, got[|got| - 1].key);
    }
  }
}
