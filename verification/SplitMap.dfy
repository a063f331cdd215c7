/** A pinned test file declared as several: the split record is checked, every split is graded as one
    unit, and the ordinary comparison sees the rest. */
module SplitMap {
  import opened Options
  import opened Collections
  import opened KeyOrder
  import opened OrderedMap
  import opened SuiteTitleMap

  /** What stands beside a split file: a list of paths, or anything else. */
  datatype Parts = Paths(paths: seq<Text>) | NoList
  type Splits = seq<Entry<Text, Parts>>

  datatype Problem = NotAnObject | BadParts(whole: Text) | NamedTwice(part: Text) | PartIsSplit(part: Text)

  // ---- Checking the record ------------------------------------------------------------------------

  predicate GoodParts(parts: Parts) {
    parts.Paths? && |parts.paths| >= 2 && [] !in parts.paths
  }

  function Owned(whole: Text, paths: seq<Text>): (r: seq<Entry<Text, Text>>)
    ensures |r| == |paths| && forall i :: 0 <= i < |r| ==> r[i] == Entry(paths[i], whole)
  {
    if paths == [] then [] else Owned(whole, paths[..|paths| - 1]) + [Entry(paths[|paths| - 1], whole)]
  }

  /** Every part of every well-formed list, with the file it comes from. */
  function Claimed(splits: Splits): seq<Entry<Text, Text>> {
    if splits == [] then []
    else
      var last := splits[|splits| - 1];
      Claimed(splits[..|splits| - 1]) + if GoodParts(last.value) then Owned(last.key, last.value.paths) else []
  }

  ghost predicate AllGood(splits: Splits) {
    forall i :: 0 <= i < |splits| ==> GoodParts(splits[i].value)
  }

  ghost predicate KeepsOwnPath(splits: Splits, claim: Entry<Text, Text>) {
    claim.key == claim.value || claim.key !in KeysOf(splits)
  }

  /** The record has one meaning: proper lists, no path named twice, and no part of one file that is itself
      another split file. */
  ghost predicate Usable(splits: Splits) {
    && AllGood(splits)
    && OrderedMap.Distinct(Claimed(splits))
    && forall i :: 0 <= i < |Claimed(splits)| ==> KeepsOwnPath(splits, Claimed(splits)[i])
  }

  /** The first claims of each path. */
  ghost predicate FirstClaims(owner: seq<Entry<Text, Text>>, claims: seq<Entry<Text, Text>>, clean: bool) {
    && (forall k :: k in KeysOf(owner) <==> k in KeysOf(claims))
    && (clean <==> OrderedMap.Distinct(claims))
    && (clean ==> owner == claims)
  }

  lemma KeysAppend<V>(entries: seq<Entry<Text, V>>, e: Entry<Text, V>)
    ensures KeysOf(entries + [e]) == KeysOf(entries) + [e.key]
  {
  }

  lemma DistinctAppend<V>(entries: seq<Entry<Text, V>>, e: Entry<Text, V>)
    ensures OrderedMap.Distinct(entries + [e]) <==> OrderedMap.Distinct(entries) && e.key !in KeysOf(entries)
  {
    var more := entries + [e];
    assert forall i :: 0 <= i < |entries| ==> more[i] == entries[i] && KeysOf(entries)[i] == entries[i].key;
    assert more[|entries|] == e;
    if e.key in KeysOf(entries) {
      var i :| 0 <= i < |entries| && KeysOf(entries)[i] == e.key;
      assert more[i].key == more[|entries|].key;
    } else if OrderedMap.Distinct(more) {
      assert forall i, j :: 0 <= i < j < |entries| ==> more[i].key != more[j].key;
    }
  }

  lemma ClaimOne(owner: seq<Entry<Text, Text>>, claims: seq<Entry<Text, Text>>, clean: bool, e: Entry<Text, Text>)
    requires FirstClaims(owner, claims, clean)
    ensures e.key in KeysOf(owner) ==> FirstClaims(owner, claims + [e], false)
    ensures e.key !in KeysOf(owner) ==> FirstClaims(owner + [e], claims + [e], clean)
  {
    KeysAppend(owner, e);
    KeysAppend(claims, e);
    DistinctAppend(claims, e);
  }

  lemma OwnedNext(claims: seq<Entry<Text, Text>>, whole: Text, paths: seq<Text>, j: nat)
    requires j < |paths|
    ensures claims + Owned(whole, paths[..j + 1]) == claims + Owned(whole, paths[..j]) + [Entry(paths[j], whole)]
  {
    assert paths[..j + 1][..j] == paths[..j];
  }

  /** Claims the parts of one file. */
  method ClaimParts(owner: seq<Entry<Text, Text>>, whole: Text, paths: seq<Text>,
                    ghost claims: seq<Entry<Text, Text>>, ghost clean: bool)
    returns (owner': seq<Entry<Text, Text>>, problems: seq<Problem>)
    requires FirstClaims(owner, claims, clean)
    ensures FirstClaims(owner', claims + Owned(whole, paths), clean && problems == [])
  {
    owner', problems := owner, [];
    assert claims + Owned(whole, paths[..0]) == claims;
    for j := 0 to |paths|
      invariant FirstClaims(owner', claims + Owned(whole, paths[..j]), clean && problems == [])
    {
      var e := Entry(paths[j], whole);
      ClaimOne(owner', claims + Owned(whole, paths[..j]), clean && problems == [], e);
      OwnedNext(claims, whole, paths, j);
      if e.key in KeysOf(owner') {
        problems := problems + [NamedTwice(e.key)];
      } else {
        owner' := owner' + [e];
      }
    }
    assert paths[..|paths|] == paths;
  }

  /** Claims every part of every list. */
  method ClaimAll(splits: Splits) returns (owner: seq<Entry<Text, Text>>, problems: seq<Problem>)
    ensures FirstClaims(owner, Claimed(splits), OrderedMap.Distinct(Claimed(splits)))
    ensures problems == [] <==> OrderedMap.Distinct(Claimed(splits)) && AllGood(splits)
  {
    owner, problems := [], [];
    ghost var clean, claims: seq<Entry<Text, Text>> := true, [];
    for i := 0 to |splits|
      invariant claims == Claimed(splits[..i]) && FirstClaims(owner, claims, clean)
      invariant |problems| == 0 <==> clean && AllGood(splits[..i])
    {
      AllGoodAppend(splits, i);
      if GoodParts(splits[i].value) {
        var found;
        owner, found := ClaimParts(owner, splits[i].key, splits[i].value.paths, claims, clean);
        claims, clean := Claimed(splits[..i + 1]), clean && found == [];
        problems := problems + found;
      } else {
        problems := problems + [BadParts(splits[i].key)];
      }
    }
    assert splits[..|splits|] == splits;
  }

  lemma AllGoodAppend(splits: Splits, i: nat)
    requires i < |splits|
    ensures AllGood(splits[..i + 1]) <==> AllGood(splits[..i]) && GoodParts(splits[i].value)
    ensures GoodParts(splits[i].value) ==>
      Claimed(splits[..i + 1]) == Claimed(splits[..i]) + Owned(splits[i].key, splits[i].value.paths)
    ensures !GoodParts(splits[i].value) ==> Claimed(splits[..i + 1]) == Claimed(splits[..i])
  {
    assert splits[..i + 1] == splits[..i] + [splits[i]];
    assert splits[..i + 1][..i] == splits[..i];
    assert Claimed(splits[..i]) + [] == Claimed(splits[..i]);
  }

  /** The record has a problem exactly when it is not usable. */
  method ValidateSplits(record: Option<Splits>) returns (problems: seq<Problem>)
    ensures problems == [] <==> record.Some? && Usable(record.value)
  {
    if record.None? {
      return [NotAnObject];
    }
    var splits := record.value;
    var owner, found := ClaimAll(splits);
    problems := found;
    for j := 0 to |owner|
      invariant problems == [] <==> found == [] && forall k :: 0 <= k < j ==> KeepsOwnPath(splits, owner[k])
    {
      if owner[j].key != owner[j].value && owner[j].key in KeysOf(splits) {
        problems := problems + [PartIsSplit(owner[j].key)];
      }
    }
  }

  // ---- Counting titles ------------------------------------------------------------------------------

  /** How often each title occurs, in order of first appearance. */
  function Counts(titles: seq<Text>): seq<Entry<Text, nat>> {
    if titles == [] then []
    else
      var last, counts := titles[|titles| - 1], Counts(titles[..|titles| - 1]);
      Put(counts, last, Tally(counts, last) + 1)
  }

  function Tally(counts: seq<Entry<Text, nat>>, title: Text): nat {
    if title in Contents(counts) then Contents(counts)[title] else 0
  }

  function Concat(lists: seq<seq<Text>>): seq<Text> {
    if lists == [] then [] else Concat(lists[..|lists| - 1]) + lists[|lists| - 1]
  }

  lemma CountsNext(before: seq<Text>, list: seq<Text>, j: nat)
    requires j < |list|
    ensures
      var counts := Counts(before + list[..j]);
      Counts(before + list[..j + 1]) == Put(counts, list[j], Tally(counts, list[j]) + 1)
  {
    OneMore(list, j);
    Regroup(before, list[..j], [list[j]]);
    assert (before + list[..j] + [list[j]])[..|before| + j] == before + list[..j];
  }

  method CountList(counts: seq<Entry<Text, nat>>, list: seq<Text>, ghost before: seq<Text>)
    returns (r: seq<Entry<Text, nat>>)
    requires counts == Counts(before)
    ensures r == Counts(before + list)
  {
    r := counts;
    assert before + list[..0] == before;
    for j := 0 to |list|
      invariant r == Counts(before + list[..j])
    {
      CountsNext(before, list, j);
      r := Put(r, list[j], Tally(r, list[j]) + 1);
    }
    assert list[..|list|] == list;
  }

  method CountTitles(lists: seq<seq<Text>>) returns (counts: seq<Entry<Text, nat>>)
    ensures counts == Counts(Concat(lists))
  {
    counts := [];
    for i := 0 to |lists|
      invariant counts == Counts(Concat(lists[..i]))
    {
      assert lists[..i + 1][..i] == lists[..i];
      counts := CountList(counts, lists[i], Concat(lists[..i]));
    }
    assert lists[..|lists|] == lists;
  }

  // ---- Grading one split ------------------------------------------------------------------------------

  datatype Context = Context(script: Text, whole: Text, parts: seq<Text>, after: View)

  function Repeat(n: nat, f: Finding): seq<Finding> {
    if n == 0 then [] else Repeat(n - 1, f) + [f]
  }

  /** The files outside the split that have the title. */
  function Elsewhere(after: View, parts: seq<Text>, title: Text): seq<Text> {
    if after == [] then []
    else
      var last := after[|after| - 1];
      Elsewhere(after[..|after| - 1], parts, title)
      + if last.key !in parts && title in last.value then [last.key] else []
  }

  function TitlesIn(after: View, path: Text): seq<Text> {
    if path in Contents(after) then Contents(after)[path] else []
  }

  function Holders(after: View, parts: seq<Text>, title: Text): seq<Text> {
    if parts == [] then []
    else
      var last := parts[|parts| - 1];
      Holders(after, parts[..|parts| - 1], title) + if title in TitlesIn(after, last) then [last] else []
  }

  function MissingFinding(c: Context, title: Text): Finding {
    var elsewhere := Sort(Elsewhere(c.after, c.parts, title));
    Finding(c.script, if elsewhere != [] then TitleMoved else TitleDropped, [c.whole] + elsewhere, title)
  }

  function SurplusFinding(c: Context, title: Text, want: nat): Finding {
    Finding(c.script, if want > 0 then TitleDuplicated else TitleAdded, Holders(c.after, c.parts, title), title)
  }

  /** One finding for every time a title is wanted and not there. */
  function Missing(c: Context, expected: seq<Entry<Text, nat>>, got: seq<Entry<Text, nat>>): seq<Finding> {
    if expected == [] then []
    else
      var e := expected[|expected| - 1];
      var have := Tally(got, e.key);
      Missing(c, expected[..|expected| - 1], got)
      + if have >= e.value then [] else Repeat(e.value - have, MissingFinding(c, e.key))
  }

  /** One finding for every time a title is there and not wanted. */
  function Surplus(c: Context, expected: seq<Entry<Text, nat>>, got: seq<Entry<Text, nat>>): seq<Finding> {
    if got == [] then []
    else
      var e := got[|got| - 1];
      var want := Tally(expected, e.key);
      Surplus(c, expected, got[..|got| - 1])
      + if e.value <= want then [] else Repeat(e.value - want, SurplusFinding(c, e.key, want))
  }

  function Collisions(script: Text, whole: Text, parts: seq<Text>, mapped: map<Text, seq<Text>>): seq<Finding> {
    if parts == [] then []
    else
      var last := parts[|parts| - 1];
      Collisions(script, whole, parts[..|parts| - 1], mapped)
      + if last != whole && last in mapped then [Finding(script, PartCollides, [last], [])] else []
  }

  function PartTitles(after: View, parts: seq<Text>): (r: seq<seq<Text>>)
    ensures |r| == |parts|
  {
    if parts == [] then []
    else PartTitles(after, parts[..|parts| - 1]) + [TitlesIn(after, parts[|parts| - 1])]
  }

  /** All titles the parts collect. */
  function Collected(after: View, parts: seq<Text>): seq<Text> {
    Concat(PartTitles(after, parts))
  }

  function Grade(c: Context, mapped: map<Text, seq<Text>>): seq<Finding>
    requires c.whole in mapped
  {
    var expected, got := Counts(mapped[c.whole]), Counts(Collected(c.after, c.parts));
    Collisions(c.script, c.whole, c.parts, mapped) + (Missing(c, expected, got) + Surplus(c, expected, got))
  }

  method Push(out: seq<Finding>, n: nat, f: Finding) returns (r: seq<Finding>)
    ensures r == out + Repeat(n, f)
  {
    r := out;
    for i := 0 to n
      invariant r == out + Repeat(i, f)
    {
      r := r + [f];
    }
  }

  method MissingTitles(c: Context, expected: seq<Entry<Text, nat>>, got: seq<Entry<Text, nat>>)
    returns (out: seq<Finding>)
    ensures out == Missing(c, expected, got)
  {
    out := [];
    for i := 0 to |expected|
      invariant out == Missing(c, expected[..i], got)
    {
      assert expected[..i + 1][..i] == expected[..i];
      var title, want := expected[i].key, expected[i].value;
      var have := Tally(got, title);
      if have < want {
        out := Push(out, want - have, MissingFinding(c, title));
      }
    }
    assert expected[..|expected|] == expected;
  }

  method SurplusTitles(c: Context, expected: seq<Entry<Text, nat>>, got: seq<Entry<Text, nat>>)
    returns (out: seq<Finding>)
    ensures out == Surplus(c, expected, got)
  {
    out := [];
    for i := 0 to |got|
      invariant out == Surplus(c, expected, got[..i])
    {
      assert got[..i + 1][..i] == got[..i];
      var title, have := got[i].key, got[i].value;
      var want := Tally(expected, title);
      if have > want {
        out := Push(out, have - want, SurplusFinding(c, title, want));
      }
    }
    assert got[..|got|] == got;
  }

  method GradeSplit(c: Context, mapped: map<Text, seq<Text>>) returns (out: seq<Finding>)
    requires c.whole in mapped
    ensures out == Grade(c, mapped)
  {
    out := [];
    for i := 0 to |c.parts|
      invariant out == Collisions(c.script, c.whole, c.parts[..i], mapped)
    {
      assert c.parts[..i + 1][..i] == c.parts[..i];
      if c.parts[i] != c.whole && c.parts[i] in mapped {
        out := out + [Finding(c.script, PartCollides, [c.parts[i]], [])];
      }
    }
    assert c.parts[..|c.parts|] == c.parts;
    var expected := CountTitles([mapped[c.whole]]);
    assert Concat([mapped[c.whole]]) == mapped[c.whole];
    var got := CountTitles(PartTitles(c.after, c.parts));
    var missing := MissingTitles(c, expected, got);
    var surplus := SurplusTitles(c, expected, got);
    out := out + (missing + surplus);
  }
}
