/** JavaScript `Map`: distinct keys in insertion order. Setting a present key keeps its place. */
module OrderedMap {

  datatype Entry<K, V> = Entry(key: K, value: V)

  ghost predicate Distinct<K, V>(entries: seq<Entry<K, V>>) {
    forall i, j :: 0 <= i < j < |entries| ==> entries[i].key != entries[j].key
  }

  function KeysOf<K, V>(entries: seq<Entry<K, V>>): (keys: seq<K>)
    ensures |keys| == |entries| && forall i :: 0 <= i < |keys| ==> keys[i] == entries[i].key
  {
    if entries == [] then [] else KeysOf(entries[..|entries| - 1]) + [entries[|entries| - 1].key]
  }

  /** What a lookup answers: the first entry of each key. */
  function Contents<K, V>(entries: seq<Entry<K, V>>): map<K, V> {
    if entries == [] then map[] else Contents(entries[1..])[entries[0].key := entries[0].value]
  }

  function Put<K(==), V>(entries: seq<Entry<K, V>>, k: K, v: V): seq<Entry<K, V>> {
    if entries == [] then [Entry(k, v)]
    else if entries[0].key == k then [Entry(k, v)] + entries[1..]
    else [entries[0]] + Put(entries[1..], k, v)
  }

  function Remove<K(==), V>(entries: seq<Entry<K, V>>, k: K): seq<Entry<K, V>> {
    if entries == [] then []
    else if entries[0].key == k then entries[1..]
    else [entries[0]] + Remove(entries[1..], k)
  }

  lemma {:induction false} HasKey<K, V>(entries: seq<Entry<K, V>>, k: K)
    ensures k in Contents(entries) <==> exists i :: 0 <= i < |entries| && entries[i].key == k
  {
    if entries != [] {
      HasKey(entries[1..], k);
      if k in Contents(entries[1..]) {
        var i :| 0 <= i < |entries[1..]| && entries[1..][i].key == k;
        assert entries[i + 1].key == k;
      }
    }
  }

  lemma {:induction false} HasEntry<K, V>(entries: seq<Entry<K, V>>, i: nat)
    requires Distinct(entries) && i < |entries|
    ensures entries[i].key in Contents(entries) && Contents(entries)[entries[i].key] == entries[i].value
  {
    if i > 0 {
      assert entries[1..][i - 1] == entries[i];
      HasEntry(entries[1..], i - 1);
    }
  }

  lemma {:induction false} PutContents<K, V>(entries: seq<Entry<K, V>>, k: K, v: V)
    requires Distinct(entries)
    ensures Contents(Put(entries, k, v)) == Contents(entries)[k := v]
    ensures Distinct(Put(entries, k, v))
    ensures forall i :: 0 <= i < |Put(entries, k, v)| ==>
      Put(entries, k, v)[i] in entries || Put(entries, k, v)[i] == Entry(k, v)
  {
    if entries == [] {
    } else if entries[0].key == k {
      assert Put(entries, k, v)[1..] == entries[1..];
    } else {
      var first, rest := entries[0], Put(entries[1..], k, v);
      PutContents(entries[1..], k, v);
      assert Put(entries, k, v) == [first] + rest && ([first] + rest)[1..] == rest;
      assert forall i :: 0 <= i < |rest| ==> rest[i].key != first.key;
    }
  }

  /** A present key keeps its place, a new one goes last. */
  lemma {:induction false} PutKeepsPlaces<K, V>(entries: seq<Entry<K, V>>, k: K, v: V)
    ensures KeysOf(Put(entries, k, v)) == if k in KeysOf(entries) then KeysOf(entries) else KeysOf(entries) + [k]
  {
    if entries != [] {
      PutKeepsPlaces(entries[1..], k, v);
      PutBehindFirst(entries, k, v);
    }
  }

  lemma PutBehindFirst<K, V>(entries: seq<Entry<K, V>>, k: K, v: V)
    requires entries != []
    ensures entries[0].key == k ==> KeysOf(Put(entries, k, v)) == KeysOf(entries)
    ensures entries[0].key != k ==> KeysOf(Put(entries, k, v)) == [entries[0].key] + KeysOf(Put(entries[1..], k, v))
    ensures KeysOf(entries) == [entries[0].key] + KeysOf(entries[1..])
  {
    var put := Put(entries, k, v);
    KeysFromFirst(entries);
    KeysFromFirst(put);
    assert put[1..] == if entries[0].key == k then entries[1..] else Put(entries[1..], k, v);
  }

  lemma KeysFromFirst<K, V>(entries: seq<Entry<K, V>>)
    requires entries != []
    ensures KeysOf(entries) == [entries[0].key] + KeysOf(entries[1..])
  {
  }

  lemma {:induction false} RemoveContents<K, V>(entries: seq<Entry<K, V>>, k: K)
    requires Distinct(entries)
    ensures Contents(Remove(entries, k)) == Contents(entries) - {k}
    ensures Distinct(Remove(entries, k))
    ensures forall i :: 0 <= i < |Remove(entries, k)| ==> Remove(entries, k)[i] in entries
  {
    if entries == [] {
    } else if entries[0].key == k {
      HasKey(entries[1..], k);
    } else {
      var first, rest := entries[0], Remove(entries[1..], k);
      RemoveContents(entries[1..], k);
      assert Remove(entries, k) == [first] + rest && ([first] + rest)[1..] == rest;
      assert forall i :: 0 <= i < |rest| ==> rest[i].key != first.key;
    }
  }
}
