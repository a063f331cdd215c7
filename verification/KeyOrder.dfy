/** JavaScript strings as UTF-16 code units, and the default array sort. */
module KeyOrder {
  type Code = u: int | 0 <= u < 0x10000
  type Text = seq<Code>

  // ---- Order ------------------------------------------------------------------------------------

  /** The order of the default array sort: unit by unit, the shorter first. */
  predicate Less(a: Text, b: Text) {
    b != [] && (a == [] || a[0] < b[0] || (a[0] == b[0] && Less(a[1..], b[1..])))
  }

  /** At the first unit that differs the first text has the smaller one, or it ends there. */
  ghost predicate Precedes(a: Text, b: Text) {
    exists k: nat :: PrecedesAt(a, b, k)
  }

  predicate PrecedesAt(a: Text, b: Text, k: nat) {
    k <= |a| && k < |b| && a[..k] == b[..k] && (k == |a| || a[k] < b[k])
  }

  lemma SkipFirst(a: Text, b: Text, k: nat)
    requires a != [] && b != [] && a[0] == b[0]
    ensures PrecedesAt(a, b, k + 1) <==> PrecedesAt(a[1..], b[1..], k)
  {
    if k <= |a| - 1 && k < |b| - 1 {
      assert a[..k + 1] == [a[0]] + a[1..][..k] && b[..k + 1] == [b[0]] + b[1..][..k];
      assert a[1..][..k] == a[..k + 1][1..] && b[1..][..k] == b[..k + 1][1..];
    }
  }

  /** The order is by code units, a prefix first. */
  lemma {:induction false} LessIsByCodeUnit(a: Text, b: Text)
    ensures Less(a, b) <==> Precedes(a, b)
  {
    if a != [] && b != [] && a[0] == b[0] {
      LessIsByCodeUnit(a[1..], b[1..]);
      if k: nat :| PrecedesAt(a[1..], b[1..], k) {
        SkipFirst(a, b, k);
      }
      if k: nat :| PrecedesAt(a, b, k) {
        assert k > 0;
        SkipFirst(a, b, k - 1);
      }
    } else {
      DifferAtOnce(a, b);
    }
  }

  lemma DifferAtOnce(a: Text, b: Text)
    requires a == [] || b == [] || a[0] != b[0]
    ensures Precedes(a, b) <==> PrecedesAt(a, b, 0)
  {
    forall k: nat | k > 0 && k <= |a| && k < |b| ensures a[..k] != b[..k] {
      assert a[..k][0] == a[0] && b[..k][0] == b[0];
    }
  }

  lemma {:induction false} LessIsTotal(a: Text, b: Text)
    ensures a == b || Less(a, b) || Less(b, a)
  {
    if a != [] && b != [] && a[0] == b[0] {
      LessIsTotal(a[1..], b[1..]);
      assert a == [a[0]] + a[1..] && b == [b[0]] + b[1..];
    }
  }

  lemma {:induction false} LessIsStrict(a: Text, b: Text)
    requires Less(a, b)
    ensures a != b && !Less(b, a)
  {
    if a != [] && a[0] == b[0] {
      LessIsStrict(a[1..], b[1..]);
    }
  }

  lemma {:induction false} LessIsTransitive(a: Text, b: Text, c: Text)
    requires Less(a, b) && Less(b, c)
    ensures Less(a, c)
  {
    if a != [] && a[0] == b[0] == c[0] {
      LessIsTransitive(a[1..], b[1..], c[1..]);
    }
  }

  predicate Distinct(keys: seq<Text>) {
    forall i, j :: 0 <= i < j < |keys| ==> keys[i] != keys[j]
  }

  // ---- Sorting the keys ---------------------------------------------------------------------------

  predicate Ascending(keys: seq<Text>) {
    forall i, j :: 0 <= i < j < |keys| ==> Less(keys[i], keys[j])
  }

  function Insert(key: Text, keys: seq<Text>): seq<Text> {
    if keys == [] || !Less(keys[0], key) then [key] + keys else [keys[0]] + Insert(key, keys[1..])
  }

  function Sort(keys: seq<Text>): seq<Text> {
    if keys == [] then [] else Insert(keys[0], Sort(keys[1..]))
  }

  lemma {:induction false} InsertKeepsMembers(key: Text, keys: seq<Text>)
    ensures |Insert(key, keys)| == |keys| + 1
    ensures forall k :: k in Insert(key, keys) <==> k == key || k in keys
  {
    if keys != [] && Less(keys[0], key) {
      InsertKeepsMembers(key, keys[1..]);
      assert keys == [keys[0]] + keys[1..];
    }
  }

  lemma {:induction false} InsertAscends(key: Text, keys: seq<Text>)
    requires Ascending(keys) && key !in keys
    ensures Ascending(Insert(key, keys))
  {
    if keys == [] {
    } else if Less(keys[0], key) {
      InsertAscends(key, keys[1..]);
      InsertKeepsMembers(key, keys[1..]);
      FirstIsLeast(keys[0], Insert(key, keys[1..]));
    } else {
      LessIsTotal(key, keys[0]);
      forall k | k in keys ensures Less(key, k) {
        if k != keys[0] {
          LessIsTransitive(key, keys[0], k);
        }
      }
      FirstIsLeast(key, keys);
    }
  }

  lemma FirstIsLeast(key: Text, keys: seq<Text>)
    requires Ascending(keys) && forall k :: k in keys ==> Less(key, k)
    ensures Ascending([key] + keys)
  {
  }

  /** Sorting keeps exactly the keys and puts them in ascending order. */
  lemma {:induction false} SortSorts(keys: seq<Text>)
    requires Distinct(keys)
    ensures Ascending(Sort(keys)) && forall k :: k in Sort(keys) <==> k in keys
  {
    if keys != [] {
      SortSorts(keys[1..]);
      InsertAscends(keys[0], Sort(keys[1..]));
      InsertKeepsMembers(keys[0], Sort(keys[1..]));
      assert keys == [keys[0]] + keys[1..];
    }
  }

  /** There is one ascending order of a set of keys. */
  lemma {:induction false} OneAscendingOrder(a: seq<Text>, b: seq<Text>)
    requires Ascending(a) && Ascending(b) && forall k :: k in a <==> k in b
    ensures a == b
  {
    assert (a != [] ==> a[0] in b) && (b != [] ==> b[0] in a);
    if a != [] {
      HeadsAgree(a, b);
      assert a == [a[0]] + a[1..] && b == [b[0]] + b[1..];
      assert forall k :: k in a[1..] <==> k in b[1..] by {
        TailMembers(a);
        TailMembers(b);
      }
      OneAscendingOrder(a[1..], b[1..]);
    }
  }

  lemma HeadsAgree(a: seq<Text>, b: seq<Text>)
    requires Ascending(a) && Ascending(b) && a != [] && b != [] && a[0] in b && b[0] in a
    ensures a[0] == b[0]
  {
    if a[0] != b[0] {
      LessIsStrict(a[0], b[0]);
    }
  }

  lemma TailMembers(a: seq<Text>)
    requires Ascending(a) && a != []
    ensures forall k :: k in a[1..] <==> k in a && k != a[0]
  {
    forall k | k in a[1..] ensures k in a && k != a[0] {
      var i :| 1 <= i < |a| && a[i] == k;
      LessIsStrict(a[0], a[i]);
    }
  }

  lemma {:induction false} SortKeepsKeys(keys: seq<Text>)
    ensures forall k :: k in Sort(keys) <==> k in keys
  {
    if keys != [] {
      SortKeepsKeys(keys[1..]);
      InsertKeepsMembers(keys[0], Sort(keys[1..]));
      assert keys == [keys[0]] + keys[1..];
    }
  }

  // ---- Each key once --------------------------------------------------------------------------------

  /** The keys in order of first appearance. */
  function Dedup(keys: seq<Text>): (r: seq<Text>)
    ensures Distinct(r) && forall k :: k in r <==> k in keys
  {
    if keys == [] then []
    else
      var last, r := keys[|keys| - 1], Dedup(keys[..|keys| - 1]);
      assert keys == keys[..|keys| - 1] + [last];
      if last in r then r else r + [last]
  }

  lemma DedupOneMore(keys: seq<Text>)
    requires keys != []
    ensures
      var last, r := keys[|keys| - 1], Dedup(keys[..|keys| - 1]);
      Dedup(keys) == if last in r then r else r + [last]
  {
  }

  /** A key listed earlier appears before any listed later. */
  lemma {:induction false} FirstAppearance(keys: seq<Text>, i: nat, j: nat) returns (p: nat)
    requires i < j < |Dedup(keys)|
    ensures p < |keys| && keys[p] == Dedup(keys)[i] && Dedup(keys)[j] !in keys[..p]
  {
    var front, last := keys[..|keys| - 1], keys[|keys| - 1];
    var r := Dedup(front);
    if j < |r| {
      p := FirstAppearance(front, i, j);
      assert keys[..p] == front[..p];
    } else {
      assert r[i] in r && last !in front;
      p :| 0 <= p < |front| && front[p] == r[i];
      assert keys[..p] == front[..p];
    }
  }

  /** The distinct keys in ascending order. */
  function SortedSet(keys: seq<Text>): (r: seq<Text>)
    ensures Ascending(r) && forall k :: k in r <==> k in keys
  {
    SortSorts(Dedup(keys));
    Sort(Dedup(keys))
  }
}
