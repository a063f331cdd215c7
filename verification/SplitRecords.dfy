/** Which split records are usable, part by part. */
module SplitRecords {
  import opened Options
  import opened KeyOrder
  import opened OrderedMap
  import opened SuiteTitleMap
  import opened SplitMap
  import opened SplitCompare

  // ---- What a record says -----------------------------------------------------------------------------

  /** The j-th part of the i-th split file. */
  ghost predicate Names(splits: Splits, i: int, j: int, part: Text) {
    0 <= i < |splits| && splits[i].value.Paths? && 0 <= j < |splits[i].value.paths| && splits[i].value.paths[j] == part
  }

  /** Every split file has a list of two parts or more, none of them empty. */
  ghost predicate ProperLists(splits: Splits) {
    forall i :: 0 <= i < |splits| ==>
      && splits[i].value.Paths? && |splits[i].value.paths| > 1
      && forall j :: 0 <= j < |splits[i].value.paths| ==> splits[i].value.paths[j] != []
  }

  /** No part is named twice in the whole record. */
  ghost predicate NamedOnce(splits: Splits) {
    forall i, j, k, l, part :: Names(splits, i, j, part) && Names(splits, k, l, part) ==> i == k && j == l
  }

  /** A part that is a split file itself is the file it belongs to. */
  ghost predicate NoneIsSplitAgain(splits: Splits) {
    forall i, j, k, part :: Names(splits, i, j, part) && 0 <= k < |splits| && splits[k].key == part ==>
      splits[i].key == part
  }

  lemma ProperIsGood(splits: Splits)
    ensures AllGood(splits) <==> ProperLists(splits)
  {
    forall i | 0 <= i < |splits| && splits[i].value.Paths?
      ensures [] in splits[i].value.paths <==>
              exists j :: 0 <= j < |splits[i].value.paths| && splits[i].value.paths[j] == []
    {
    }
  }

  lemma NamesInFront(front: Splits, last: Entry<Text, Parts>, i: int, j: int, part: Text)
    ensures Names(front + [last], i, j, part) <==>
            Names(front, i, j, part)
            || (i == |front| && last.value.Paths? && 0 <= j < |last.value.paths| && last.value.paths[j] == part)
  {
    assert 0 <= i < |front| ==> (front + [last])[i] == front[i];
  }

  lemma {:induction false} ClaimsAre(splits: Splits, claim: Entry<Text, Text>)
    requires AllGood(splits)
    ensures claim in Claimed(splits) <==> exists i, j :: Names(splits, i, j, claim.key) && splits[i].key == claim.value
  {
    if splits != [] {
      var front, last := splits[..|splits| - 1], splits[|splits| - 1];
      assert splits == front + [last];
      assert AllGood(front);
      ClaimsAre(front, claim);
      ClaimsOfLast(front, last, claim);
    }
  }

  lemma ClaimsOfLast(front: Splits, last: Entry<Text, Parts>, claim: Entry<Text, Text>)
    requires AllGood(front) && GoodParts(last.value)
    requires claim in Claimed(front) <==> exists i, j :: Names(front, i, j, claim.key) && front[i].key == claim.value
    ensures claim in Claimed(front + [last]) <==>
            exists i, j :: Names(front + [last], i, j, claim.key) && (front + [last])[i].key == claim.value
  {
    var splits, owned := front + [last], Owned(last.key, last.value.paths);
    assert splits[..|front|] == front && Claimed(splits) == Claimed(front) + owned;
    if claim in Claimed(front) {
      var i, j :| Names(front, i, j, claim.key) && front[i].key == claim.value;
      NamesInFront(front, last, i, j, claim.key);
      assert splits[i].key == claim.value;
    }
    if claim in owned {
      var j :| 0 <= j < |owned| && owned[j] == claim;
      NamesInFront(front, last, |front|, j, claim.key);
      assert Names(splits, |front|, j, claim.key) && splits[|front|].key == claim.value;
    }
    if i, j :| Names(splits, i, j, claim.key) && splits[i].key == claim.value {
      NamesInFront(front, last, i, j, claim.key);
      if i == |front| {
        assert owned[j] == claim;
      } else {
        assert front[i].key == claim.value;
      }
    }
  }

  // ---- No part twice --------------------------------------------------------------------------------

  lemma DistinctConcat(a: seq<Entry<Text, Text>>, b: seq<Entry<Text, Text>>)
    ensures OrderedMap.Distinct(a + b) <==>
            OrderedMap.Distinct(a) && OrderedMap.Distinct(b) && forall e, f :: e in a && f in b ==> e.key != f.key
  {
    var both := a + b;
    if OrderedMap.Distinct(both) {
      forall i, j | 0 <= i < j < |a| ensures a[i].key != a[j].key {
        assert both[i] == a[i] && both[j] == a[j];
      }
      forall i, j | 0 <= i < j < |b| ensures b[i].key != b[j].key {
        assert both[|a| + i] == b[i] && both[|a| + j] == b[j];
      }
      forall e, f | e in a && f in b ensures e.key != f.key {
        var i :| 0 <= i < |a| && a[i] == e;
        var j :| 0 <= j < |b| && b[j] == f;
        assert both[i] == e && both[|a| + j] == f;
      }
    }
  }

  lemma OwnedIsDistinct(whole: Text, paths: seq<Text>)
    ensures OrderedMap.Distinct(Owned(whole, paths)) <==> KeyOrder.Distinct(paths)
  {
    var owned := Owned(whole, paths);
    assert forall i :: 0 <= i < |paths| ==> owned[i].key == paths[i];
  }

  /** No part of the last split file is named in front of it. */
  ghost predicate Apart(front: Splits, last: Entry<Text, Parts>)
    requires last.value.Paths?
  {
    forall i, j, part :: Names(front, i, j, part) ==> part !in last.value.paths
  }

  lemma NamedOnceInFront(front: Splits, last: Entry<Text, Parts>)
    requires last.value.Paths?
    ensures NamedOnce(front + [last]) ==> NamedOnce(front) && KeyOrder.Distinct(last.value.paths) && Apart(front, last)
  {
    var splits, paths := front + [last], last.value.paths;
    if NamedOnce(splits) {
      forall i, j, k, l, part | Names(front, i, j, part) && Names(front, k, l, part) ensures i == k && j == l {
        NamesInFront(front, last, i, j, part);
        NamesInFront(front, last, k, l, part);
      }
      forall j, l | 0 <= j < l < |paths| ensures paths[j] != paths[l] {
        NamesInFront(front, last, |front|, j, paths[j]);
        NamesInFront(front, last, |front|, l, paths[l]);
      }
      forall i, j, part | Names(front, i, j, part) ensures part !in paths {
        NamesInFront(front, last, i, j, part);
        if l :| 0 <= l < |paths| && paths[l] == part {
          NamesInFront(front, last, |front|, l, part);
        }
      }
    }
  }

  lemma NamedOnceWithLast(front: Splits, last: Entry<Text, Parts>)
    requires last.value.Paths? && NamedOnce(front) && KeyOrder.Distinct(last.value.paths) && Apart(front, last)
    ensures NamedOnce(front + [last])
  {
    forall i, j, k, l, part | Names(front + [last], i, j, part) && Names(front + [last], k, l, part)
      ensures i == k && j == l
    {
      NamesInFront(front, last, i, j, part);
      NamesInFront(front, last, k, l, part);
    }
  }

  lemma {:induction false} NamedOnceExactly(splits: Splits)
    requires AllGood(splits)
    ensures OrderedMap.Distinct(Claimed(splits)) <==> NamedOnce(splits)
  {
    if splits != [] {
      var front, last := splits[..|splits| - 1], splits[|splits| - 1];
      assert splits == front + [last];
      assert AllGood(front);
      var claims, owned := Claimed(front), Owned(last.key, last.value.paths);
      NamedOnceExactly(front);
      DistinctConcat(claims, owned);
      OwnedIsDistinct(last.key, last.value.paths);
      ApartExactly(front, last);
      NamedOnceInFront(front, last);
      if NamedOnce(front) && KeyOrder.Distinct(last.value.paths) && Apart(front, last) {
        NamedOnceWithLast(front, last);
      }
    }
  }

  lemma ApartExactly(front: Splits, last: Entry<Text, Parts>)
    requires AllGood(front) && last.value.Paths?
    ensures Apart(front, last) <==>
            forall e, f :: e in Claimed(front) && f in Owned(last.key, last.value.paths) ==> e.key != f.key
  {
    if Apart(front, last) {
      forall e, f | e in Claimed(front) && f in Owned(last.key, last.value.paths) ensures e.key != f.key {
        ClaimsAre(front, e);
        assert f.key in last.value.paths;
      }
    }
    if i, j, part :| Names(front, i, j, part) && part in last.value.paths {
      ClashIsClaimed(front, last, i, j, part);
    }
  }

  lemma ClashIsClaimed(front: Splits, last: Entry<Text, Parts>, i: int, j: int, part: Text)
    requires AllGood(front) && last.value.Paths? && Names(front, i, j, part) && part in last.value.paths
    ensures exists e, f :: e in Claimed(front) && f in Owned(last.key, last.value.paths) && e.key == f.key
  {
    ClaimsAre(front, Entry(part, front[i].key));
    var l :| 0 <= l < |last.value.paths| && last.value.paths[l] == part;
    assert Owned(last.key, last.value.paths)[l] == Entry(part, last.key);
  }

  /** A record is usable exactly when every list is proper, no part is named twice, and no part is another split file. */
  lemma UsableExactly(splits: Splits)
    ensures Usable(splits) <==> ProperLists(splits) && NamedOnce(splits) && NoneIsSplitAgain(splits)
  {
    ProperIsGood(splits);
    if AllGood(splits) {
      NamedOnceExactly(splits);
      SplitAgainExactly(splits);
    }
  }

  lemma SplitAgainExactly(splits: Splits)
    requires AllGood(splits)
    ensures (forall c :: 0 <= c < |Claimed(splits)| ==> KeepsOwnPath(splits, Claimed(splits)[c]))
            <==> NoneIsSplitAgain(splits)
  {
    var claims := Claimed(splits);
    if forall c :: 0 <= c < |claims| ==> KeepsOwnPath(splits, claims[c]) {
      forall i, j, k, part | Names(splits, i, j, part) && 0 <= k < |splits| && splits[k].key == part
        ensures splits[i].key == part
      {
        ClaimsAre(splits, Entry(part, splits[i].key));
        var c :| 0 <= c < |claims| && claims[c] == Entry(part, splits[i].key);
        assert KeysOf(splits)[k] == part;
      }
    }
    if NoneIsSplitAgain(splits) {
      forall c | 0 <= c < |claims| ensures KeepsOwnPath(splits, claims[c]) {
        ClaimsAre(splits, claims[c]);
        var i, j :| Names(splits, i, j, claims[c].key) && splits[i].key == claims[c].value;
        if k :| 0 <= k < |splits| && KeysOf(splits)[k] == claims[c].key {
          assert splits[k].key == claims[c].key;
        }
      }
    }
  }

  /** In a usable record with each file once, the parts a file is graded by are those listed beside it. */
  lemma PartsAreDeclared(splits: Splits, i: nat)
    requires Usable(splits) && OrderedMap.Distinct(splits) && i < |splits|
    ensures splits[i].value == Paths(PartsOf(splits, splits[i].key))
  {
    HasEntry(splits, i);
  }
}
