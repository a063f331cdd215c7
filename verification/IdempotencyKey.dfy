/** What equal canonical texts, and equal default idempotency keys, say about two submissions. */
module IdempotencyKey {
  import opened Options
  import opened KeyOrder
  import opened CanonicalJson
  import opened JsonReader

  /** The same JSON value up to the order of object keys at every depth; the order of arrays matters.
      With `shown`, scalars are compared as their text shows them. */
  ghost predicate Same(a: Json, b: Json, shown: bool) {
    match a
    case Arr(items) =>
      b.Arr? && |items| == |b.items| && forall i :: 0 <= i < |items| ==> Same(items[i], b.items[i], shown)
    case Obj(fields) =>
      && b.Obj? && (forall k :: k in Keys(fields) <==> k in Keys(b.fields))
      && forall i, j :: 0 <= i < |fields| && 0 <= j < |b.fields| && fields[i].key == b.fields[j].key ==>
          Same(fields[i].value, b.fields[j].value, shown)
    case _ => if shown then Shown(a) == Shown(b) else a == b
  }

  /** No number in the value is minus zero or overflows to an infinity. */
  ghost predicate Plain(v: Json) {
    match v
    case Arr(items) => forall i :: 0 <= i < |items| ==> Plain(items[i])
    case Obj(fields) => forall i :: 0 <= i < |fields| ==> Plain(fields[i].value)
    case Num(n) => n.Finite?
    case _ => true
  }

  /** Values without such numbers are compared as they are. */
  lemma {:induction false} PlainIsShown(a: Json, b: Json)
    requires Plain(a) && Plain(b)
    ensures Same(a, b, true) <==> Same(a, b, false)
  {
    match a
    case Arr(items) =>
      if b.Arr? && |items| == |b.items| {
        forall i | 0 <= i < |items| ensures Same(items[i], b.items[i], true) <==> Same(items[i], b.items[i], false) {
          PlainIsShown(items[i], b.items[i]);
        }
      }
    case Obj(fields) =>
      if b.Obj? {
        forall i, j | 0 <= i < |fields| && 0 <= j < |b.fields|
          ensures Same(fields[i].value, b.fields[j].value, true) <==> Same(fields[i].value, b.fields[j].value, false)
        {
          PlainIsShown(fields[i].value, b.fields[j].value);
        }
      }
    case _ =>
  }

  lemma {:induction false} CanonItemAt(items: seq<Json>, i: nat)
    requires i < |items|
    ensures CanonItems(items)[i] == Canon(items[i])
  {
    if i > 0 {
      CanonItemAt(items[1..], i - 1);
    }
  }

  lemma ArraysAgree(a: seq<Json>, b: seq<Json>)
    requires |a| == |b|
    ensures CanonItems(a) == CanonItems(b) <==> forall i :: 0 <= i < |a| ==> Canon(a[i]) == Canon(b[i])
  {
    forall i | 0 <= i < |a| ensures CanonItems(a)[i] == Canon(a[i]) && CanonItems(b)[i] == Canon(b[i]) {
      CanonItemAt(a, i);
      CanonItemAt(b, i);
    }
  }

  /** The canonical value an object holds at a key. */
  function CanonAt(obj: Json, key: Text): Json
    requires obj.Obj? && key in Keys(obj.fields)
  {
    Canon(obj.fields[At(obj.fields, key)].value)
  }

  ghost predicate Has(obj: Json, keys: seq<Text>)
    requires obj.Obj?
  {
    forall k :: k in keys ==> k in Keys(obj.fields)
  }

  ghost predicate AgreeOn(a: Json, b: Json, keys: seq<Text>)
    requires a.Obj? && b.Obj? && Has(a, keys) && Has(b, keys)
  {
    forall k :: k in keys ==> CanonAt(a, k) == CanonAt(b, k)
  }

  lemma {:induction false} AgreeingFields(a: Json, b: Json, keys: seq<Text>)
    requires a.Obj? && b.Obj? && Has(a, keys) && Has(b, keys) && AgreeOn(a, b, keys)
    ensures CanonFields(a, keys) == CanonFields(b, keys)
  {
    if keys != [] {
      AgreeingFields(a, b, keys[1..]);
      assert CanonAt(a, keys[0]) == CanonAt(b, keys[0]);
    }
  }

  lemma {:induction false} FieldsAgree(a: Json, b: Json, keys: seq<Text>, keys': seq<Text>)
    requires a.Obj? && b.Obj? && Has(a, keys) && Has(b, keys') && CanonFields(a, keys) == CanonFields(b, keys')
    ensures keys == keys' && AgreeOn(a, b, keys)
  {
    if keys != [] {
      var fa, fb := CanonFields(a, keys), CanonFields(b, keys');
      assert fa[0] == fb[0] && fa[1..] == fb[1..];
      FieldsAgree(a, b, keys[1..], keys'[1..]);
      assert keys == [keys[0]] + keys[1..] && keys' == [keys'[0]] + keys'[1..];
    }
  }

  lemma SortedKeys(fields: seq<Field>)
    requires DistinctKeys(fields)
    ensures Ascending(Sort(Keys(fields))) && forall k :: k in Sort(Keys(fields)) <==> k in Keys(fields)
  {
    SortSorts(Keys(fields));
  }

  ghost predicate SameKeys(a: Json, b: Json)
    requires a.Obj? && b.Obj?
  {
    forall k :: k in Keys(a.fields) <==> k in Keys(b.fields)
  }

  /** Canonical objects agree exactly when they have the same keys, with agreeing values. */
  lemma ObjectsAgree(a: Json, b: Json)
    requires a.Obj? && b.Obj? && DistinctKeys(a.fields) && DistinctKeys(b.fields)
    ensures Canon(a) == Canon(b) <==> SameKeys(a, b) && AgreeOn(a, b, Keys(a.fields))
  {
    var ka, kb := Sort(Keys(a.fields)), Sort(Keys(b.fields));
    SortedKeys(a.fields);
    SortedKeys(b.fields);
    if SameKeys(a, b) {
      OneAscendingOrder(ka, kb);
      if AgreeOn(a, b, Keys(a.fields)) {
        AgreeingFields(a, b, ka);
      }
    }
    if Canon(a) == Canon(b) {
      FieldsAgree(a, b, ka, kb);
    }
  }

  /** Reading an agreement key by key or field by field. */
  lemma FieldByField(a: Json, b: Json)
    requires a.Obj? && b.Obj? && DistinctKeys(a.fields) && DistinctKeys(b.fields) && SameKeys(a, b)
    ensures AgreeOn(a, b, Keys(a.fields)) <==>
            forall i, j :: 0 <= i < |a.fields| && 0 <= j < |b.fields| && a.fields[i].key == b.fields[j].key ==>
              Canon(a.fields[i].value) == Canon(b.fields[j].value)
  {
    forall i | 0 <= i < |a.fields|
      ensures a.fields[i].key in Keys(a.fields) && CanonAt(a, a.fields[i].key) == Canon(a.fields[i].value)
    {
    }
    forall j | 0 <= j < |b.fields|
      ensures b.fields[j].key in Keys(b.fields) && CanonAt(b, b.fields[j].key) == Canon(b.fields[j].value)
    {
    }
  }

  /** Canonical forms agree exactly on values that are the same up to key order. */
  lemma {:induction false} CanonMeansSame(a: Json, b: Json)
    requires WellFormed(a) && WellFormed(b)
    ensures Canon(a) == Canon(b) <==> Same(a, b, true)
  {
    match a
    case Arr(items) =>
      if b.Arr? && |items| == |b.items| {
        ArraysAgree(items, b.items);
        forall i | 0 <= i < |items| ensures Same(items[i], b.items[i], true) <==> Canon(items[i]) == Canon(b.items[i]) {
          CanonMeansSame(items[i], b.items[i]);
        }
      }
    case Obj(fields) =>
      if b.Obj? {
        forall i, j | 0 <= i < |fields| && 0 <= j < |b.fields|
          ensures Same(fields[i].value, b.fields[j].value, true)
                  <==> Canon(fields[i].value) == Canon(b.fields[j].value)
        {
          CanonMeansSame(fields[i].value, b.fields[j].value);
        }
        ObjectsAreSame(a, b);
      }
    case _ =>
  }

  lemma ObjectsAreSame(a: Json, b: Json)
    requires a.Obj? && b.Obj? && DistinctKeys(a.fields) && DistinctKeys(b.fields)
    requires forall i, j :: 0 <= i < |a.fields| && 0 <= j < |b.fields| ==>
      (Same(a.fields[i].value, b.fields[j].value, true) <==> Canon(a.fields[i].value) == Canon(b.fields[j].value))
    ensures Canon(a) == Canon(b) <==> Same(a, b, true)
  {
    ObjectsAgree(a, b);
    if SameKeys(a, b) {
      FieldByField(a, b);
    }
  }

  /** The printer tells two values apart exactly when they differ in more than key order; minus zero counts
      as zero and an infinity as null. */
  lemma EqualTextMeansSameValue(a: Json, b: Json)
    requires WellFormed(a) && WellFormed(b)
    ensures Print(a) == Print(b) <==> Same(a, b, true)
  {
    TextDeterminesCanon(a, b);
    CanonMeansSame(a, b);
  }

  // ---- Exactly which values the text determines -----------------------------------------------------

  /** The value with every scalar as its text shows it, keys in the order they have. */
  ghost function Settled(v: Json): Json
    decreases v, 1
  {
    match v
    case Arr(items) => Arr(SettledItems(items))
    case Obj(fields) => Obj(SettledFields(fields))
    case _ => Shown(v)
  }

  ghost function SettledItems(items: seq<Json>): (r: seq<Json>)
    ensures |r| == |items| && forall i :: 0 <= i < |r| ==> r[i] == Settled(items[i])
    decreases items, 0
  {
    seq(|items|, i requires 0 <= i < |items| => Settled(items[i]))
  }

  ghost function SettledFields(fields: seq<Field>): (r: seq<Field>)
    ensures |r| == |fields|
    ensures forall i :: 0 <= i < |r| ==> r[i] == Field(fields[i].key, Settled(fields[i].value))
    decreases fields, 0
  {
    seq(|fields|, i requires 0 <= i < |fields| => Field(fields[i].key, Settled(fields[i].value)))
  }

  lemma SettledKeys(fields: seq<Field>)
    ensures Keys(SettledFields(fields)) == Keys(fields)
  {
  }

  lemma {:induction false} SettledIsPlain(v: Json)
    requires WellFormed(v)
    ensures WellFormed(Settled(v)) && Plain(Settled(v))
  {
    match v
    case Arr(items) =>
      forall i | 0 <= i < |items| ensures WellFormed(Settled(items[i])) && Plain(Settled(items[i])) {
        SettledIsPlain(items[i]);
      }
    case Obj(fields) =>
      forall i | 0 <= i < |fields| ensures WellFormed(Settled(fields[i].value)) && Plain(Settled(fields[i].value)) {
        SettledIsPlain(fields[i].value);
      }
    case _ =>
  }

  lemma {:induction false} SettledShowsAlike(v: Json)
    requires WellFormed(v)
    ensures Same(v, Settled(v), true)
  {
    match v
    case Arr(items) =>
      forall i | 0 <= i < |items| ensures Same(items[i], Settled(items[i]), true) {
        SettledShowsAlike(items[i]);
      }
    case Obj(fields) =>
      SettledKeys(fields);
      forall i | 0 <= i < |fields| ensures Same(fields[i].value, Settled(fields[i].value), true) {
        SettledShowsAlike(fields[i].value);
      }
    case _ =>
  }

  /** A value that is the same as a plain one is plain. */
  lemma {:induction false} SameAsPlain(v: Json, w: Json)
    requires Same(v, w, false) && Plain(w)
    ensures Plain(v)
  {
    match v
    case Arr(items) =>
      forall i | 0 <= i < |items| ensures Plain(items[i]) {
        SameAsPlain(items[i], w.items[i]);
      }
    case Obj(fields) =>
      forall i | 0 <= i < |fields| ensures Plain(fields[i].value) {
        assert Keys(fields)[i] in Keys(w.fields);
        var j := At(w.fields, fields[i].key);
        SameAsPlain(fields[i].value, w.fields[j].value);
      }
    case _ =>
  }

  /** Every plain value printed like this one is the same value. */
  ghost predicate TextDetermines(v: Json) {
    forall w: Json :: WellFormed(w) && Plain(w) && Print(w) == Print(v) ==> Same(v, w, false)
  }

  /** A value is determined by its text, among plain ones, exactly when it is plain itself. */
  lemma PlainIsDetermined(v: Json)
    requires WellFormed(v)
    ensures Plain(v) <==> TextDetermines(v)
  {
    if Plain(v) {
      forall w: Json | WellFormed(w) && Plain(w) && Print(w) == Print(v) ensures Same(v, w, false) {
        EqualTextMeansSameValue(v, w);
        PlainIsShown(v, w);
      }
    }
    if TextDetermines(v) {
      SettledIsPlain(v);
      SettledShowsAlike(v);
      EqualTextMeansSameValue(v, Settled(v));
      SameAsPlain(v, Settled(v));
    }
  }

  /** Minus zero is printed like zero. */
  lemma MinusZeroPrintsAsZero()
    ensures Print(Num(NegativeZero)) == Print(Num(Finite(ZERO)))
    ensures !Same(Num(NegativeZero), Num(Finite(ZERO)), false)
  {
  }

  /** A number out of range is printed like null. */
  lemma InfinityPrintsAsNull()
    ensures Print(Num(NonFinite)) == Print(Null) && !Same(Num(NonFinite), Null, false)
  {
  }

  // ---- The key --------------------------------------------------------------------------------------

  datatype Submission = Submission(coin: Text, action: Text, params: Option<Json>)

  const COIN: Text := [0x63, 0x6F, 0x69, 0x6E]
  const ACTION: Text := [0x61, 0x63, 0x74, 0x69, 0x6F, 0x6E]
  const PARAMS: Text := [0x70, 0x61, 0x72, 0x61, 0x6D, 0x73]
  const PREFIX: Text := [0x6D, 0x63, 0x70, 0x2D]

  /** Missing and null parameters are the empty object. */
  function Params(s: Submission): Json {
    match s.params
    case None => Obj([])
    case Some(v) => if v == Null then Obj([]) else v
  }

  function Request(s: Submission): Json {
    Obj([Field(COIN, Str(s.coin)), Field(ACTION, Str(s.action)), Field(PARAMS, Params(s))])
  }

  function DerivedIdempotencyKey(s: Submission, hash: Text -> Text): Text {
    PREFIX + hash(Print(Request(s)))
  }

  lemma RequestKeys(s: Submission)
    ensures Keys(Request(s).fields) == [COIN, ACTION, PARAMS]
    ensures DistinctKeys(Request(s).fields)
  {
    var fields := Request(s).fields;
    assert fields[0].key[0] == 0x63 && fields[1].key[0] == 0x61 && fields[2].key[0] == 0x70;
    var keys := Keys(fields);
    assert keys[0] == COIN && keys[1] == ACTION && keys[2] == PARAMS;
  }

  lemma RequestsAgree(a: Submission, b: Submission)
    requires WellFormed(Params(a)) && WellFormed(Params(b))
    ensures WellFormed(Request(a)) && WellFormed(Request(b))
    ensures Same(Request(a), Request(b), true)
            <==> a.coin == b.coin && a.action == b.action && Same(Params(a), Params(b), true)
  {
    RequestKeys(a);
    RequestKeys(b);
    var fa, fb := Request(a).fields, Request(b).fields;
    forall i, j | 0 <= i < 3 && 0 <= j < 3 && fa[i].key == fb[j].key ensures i == j {
      assert Keys(fa)[i] == Keys(fa)[j];
    }
    assert fa[0].key == fb[0].key && fa[1].key == fb[1].key && fa[2].key == fb[2].key;
    assert Same(Str(a.coin), Str(b.coin), true) <==> a.coin == b.coin;
    assert Same(Str(a.action), Str(b.action), true) <==> a.action == b.action;
  }

  /** Two submissions share a key exactly when they are the same submission, or the hash collides on their texts. */
  lemma EqualKeysMeanSameSubmission(a: Submission, b: Submission, hash: Text -> Text)
    requires WellFormed(Params(a)) && WellFormed(Params(b))
    ensures
      var ta, tb := Print(Request(a)), Print(Request(b));
      DerivedIdempotencyKey(a, hash) == DerivedIdempotencyKey(b, hash) <==> (
        || (a.coin == b.coin && a.action == b.action && Same(Params(a), Params(b), true))
        || (ta != tb && hash(ta) == hash(tb)))
  {
    var ta, tb := Print(Request(a)), Print(Request(b));
    RequestsAgree(a, b);
    EqualTextMeansSameValue(Request(a), Request(b));
    assert (PREFIX + hash(ta))[4..] == hash(ta) && (PREFIX + hash(tb))[4..] == hash(tb);
  }
}
