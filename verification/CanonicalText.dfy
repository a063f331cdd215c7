/** What the canonical text looks like: the order of the keys at every depth, and the text of a request. */
module CanonicalText {
  import opened Options
  import opened KeyOrder
  import opened JsonText
  import opened CanonicalJson
  import opened JsonReader
  import opened IdempotencyKey

  // ---- Key order at every depth -------------------------------------------------------------------

  /** In every object, at every depth, an earlier key precedes a later one by code units. */
  ghost predicate KeysInOrder(v: Json) {
    match v
    case Arr(items) => forall i :: 0 <= i < |items| ==> KeysInOrder(items[i])
    case Obj(fields) =>
      && (forall i, j :: 0 <= i < j < |fields| ==> Precedes(fields[i].key, fields[j].key))
      && forall i :: 0 <= i < |fields| ==> KeysInOrder(fields[i].value)
    case _ => true
  }

  lemma {:induction false} CanonFieldAt(obj: Json, keys: seq<Text>, i: nat)
    requires obj.Obj? && Has(obj, keys) && i < |keys|
    ensures CanonFields(obj, keys)[i] == Field(keys[i], CanonAt(obj, keys[i]))
  {
    if i > 0 {
      CanonFieldAt(obj, keys[1..], i - 1);
    }
  }

  lemma SortedByCodeUnit(fields: seq<Field>, i: nat, j: nat)
    requires DistinctKeys(fields) && i < j < |Sort(Keys(fields))|
    ensures Precedes(Sort(Keys(fields))[i], Sort(Keys(fields))[j])
  {
    SortedKeys(fields);
    LessIsByCodeUnit(Sort(Keys(fields))[i], Sort(Keys(fields))[j]);
  }

  /** The value a printed text stands for has its keys in code-unit order at every depth. */
  lemma {:induction false} CanonIsInOrder(v: Json)
    requires WellFormed(v)
    ensures KeysInOrder(Canon(v))
  {
    match v
    case Arr(items) =>
      forall i | 0 <= i < |items| ensures KeysInOrder(CanonItems(items)[i]) {
        CanonItemAt(items, i);
        CanonIsInOrder(items[i]);
      }
    case Obj(fields) =>
      var keys := Sort(Keys(fields));
      SortKeepsKeys(Keys(fields));
      forall i | 0 <= i < |keys|
        ensures CanonFields(v, keys)[i].key == keys[i] && KeysInOrder(CanonFields(v, keys)[i].value)
      {
        CanonFieldAt(v, keys, i);
        CanonIsInOrder(fields[At(fields, keys[i])].value);
      }
      forall i, j | 0 <= i < j < |keys| ensures Precedes(keys[i], keys[j]) {
        SortedByCodeUnit(fields, i, j);
      }
    case _ =>
  }

  /** A printed text is read as the value with its keys in code-unit order: the same value up to key order. */
  lemma PrintIsReadInOrder(v: Json)
    requires WellFormed(v)
    ensures Parse(Print(v)).Done? && Parse(Print(v)).rest == [] && KeysInOrder(Parse(Print(v)).value)
  {
    PrintIsRead(v, []);
    assert Print(v) + [] == Print(v);
    CanonIsInOrder(v);
  }

  // ---- The text of a request ------------------------------------------------------------------------

  /** Units that need no escape. */
  predicate Ordinary(u: Code) {
    0x20 <= u && u != 0x22 && u != 0x5C && !(0xD800 <= u < 0xE000)
  }

  lemma {:induction false} OrdinaryIsNotEscaped(s: Text)
    requires forall i :: 0 <= i < |s| ==> Ordinary(s[i])
    ensures Escape(s) == s
  {
    if s != [] {
      OrdinaryIsNotEscaped(s[1..]);
      FirstOne(s);
      assert Ordinary(s[0]);
      assert EscapeUnit(s[0]) == [s[0]];
    }
  }

  /** Ordinary text is printed as it is, between quotes. */
  lemma OrdinaryIsQuoted(s: Text)
    requires forall i :: 0 <= i < |s| ==> Ordinary(s[i])
    ensures Print(Str(s)) == [0x22] + s + [0x22]
  {
    OrdinaryIsNotEscaped(s);
  }

  /** The letter behind the backslash for the seven units that have one. */
  predicate HasLetter(u: Code, letter: Code) {
    (u, letter) in {(0x08, 0x62), (0x09, 0x74), (0x0A, 0x6E), (0x0C, 0x66), (0x0D, 0x72), (0x22, 0x22), (0x5C, 0x5C)}
  }

  function Nibble(c: Code): int {
    if c <= 0x39 then c - 0x30 else c - 0x61 + 10
  }

  /** A backslash, `u` and the four lower-case hexadecimal digits of the unit. */
  predicate FourDigits(u: Code, t: Text) {
    && |t| == 6 && t[0] == 0x5C && t[1] == 0x75
    && (forall i :: 2 <= i < 6 ==> 0x30 <= t[i] <= 0x39 || 0x61 <= t[i] <= 0x66)
    && u == 0x1000 * Nibble(t[2]) + 0x100 * Nibble(t[3]) + 0x10 * Nibble(t[4]) + Nibble(t[5])
  }

  lemma EscapeOfOne(u: Code)
    ensures Escape([u]) == EscapeUnit(u)
  {
    assert [u][1..] == [] && EscapeUnit(u) + [] == EscapeUnit(u);
  }

  lemma DigitsAreHex(u: Code)
    ensures FourDigits(u, [0x5C, 0x75] + FourHex(u))
  {
    var t := [0x5C, 0x75] + FourHex(u);
    assert t[2] == Hex(u / 0x1000) && t[3] == Hex(u / 0x100 % 16) && t[4] == Hex(u / 0x10 % 16) && t[5] == Hex(u % 16);
    HexIsDigit(u / 0x1000);
    HexIsDigit(u / 0x100 % 16);
    HexIsDigit(u / 0x10 % 16);
    HexIsDigit(u % 16);
    DigitsMakeUnit(u);
  }

  lemma HexIsDigit(d: nat)
    requires d < 16
    ensures (0x30 <= Hex(d) <= 0x39 || 0x61 <= Hex(d) <= 0x66) && Nibble(Hex(d)) == d
  {
  }

  /** A single unit that is not ordinary is escaped by its letter when it has one, and by its digits otherwise. */
  lemma OtherUnitIsEscaped(u: Code, letter: Code)
    requires !Ordinary(u)
    ensures HasLetter(u, letter) ==> Escape([u]) == [0x5C, letter]
    ensures u !in {0x08, 0x09, 0x0A, 0x0C, 0x0D, 0x22, 0x5C} ==> FourDigits(u, Escape([u]))
  {
    EscapeOfOne(u);
    if Letter(u).None? {
      DigitsAreHex(u);
    }
  }

  /** The three words. */
  lemma WordsAre()
    ensures Print(Null) == [0x6E, 0x75, 0x6C, 0x6C] && Print(Bool(true)) == [0x74, 0x72, 0x75, 0x65]
    ensures Print(Bool(false)) == [0x66, 0x61, 0x6C, 0x73, 0x65]
  {
  }

  /** An array is printed in brackets, its items in order with commas between them. */
  lemma ArrayText(first: Json, rest: seq<Json>)
    ensures Print(Arr([])) == [0x5B, 0x5D] && Print(Arr([first])) == [0x5B] + Print(first) + [0x5D]
    ensures rest != [] ==> Print(Arr([first] + rest)) == [0x5B] + Print(first) + [0x2C] + Print(Arr(rest))[1..]
  {
    if rest != [] {
      assert ([first] + rest)[1..] == rest && ([first] + rest)[0] == first;
      Bracketed(Print(first), PrintItems(rest));
    }
  }

  lemma Bracketed(first: Text, rest: Text)
    ensures [0x5B] + ((first + ([0x2C] + rest)) + [0x5D]) == [0x5B] + first + [0x2C] + ([0x5B] + (rest + [0x5D]))[1..]
  {
  }

  lemma RequestOrder(s: Submission)
    ensures Sort(Keys(Request(s).fields)) == [ACTION, COIN, PARAMS]
  {
    RequestKeys(s);
    LessIsByCodeUnit(ACTION, COIN);
    LessIsByCodeUnit(COIN, PARAMS);
    LessIsByCodeUnit(ACTION, PARAMS);
    assert PrecedesAt(ACTION, COIN, 0) && PrecedesAt(COIN, PARAMS, 0) && PrecedesAt(ACTION, PARAMS, 0);
    assert Ascending([ACTION, COIN, PARAMS]);
    SortedKeys(Request(s).fields);
    OneAscendingOrder(Sort(Keys(Request(s).fields)), [ACTION, COIN, PARAMS]);
  }

  lemma RequestFields(s: Submission)
    ensures ACTION in Keys(Request(s).fields) && COIN in Keys(Request(s).fields) && PARAMS in Keys(Request(s).fields)
    ensures Request(s).fields[At(Request(s).fields, ACTION)].value == Str(s.action)
    ensures Request(s).fields[At(Request(s).fields, COIN)].value == Str(s.coin)
    ensures Request(s).fields[At(Request(s).fields, PARAMS)].value == Params(s)
  {
    var fields := Request(s).fields;
    RequestKeys(s);
    assert Keys(fields) == [COIN, ACTION, PARAMS];
    assert Keys(fields)[0] == COIN && Keys(fields)[1] == ACTION && Keys(fields)[2] == PARAMS;
    assert COIN != ACTION && COIN != PARAMS && ACTION != PARAMS;
  }

  /** A named member of an object, ordinary in its name. */
  function Member(name: Text, v: Json): Text {
    [0x22] + name + [0x22, 0x3A] + Print(v)
  }

  lemma FieldText(obj: Json, key: Text, v: Json)
    requires obj.Obj? && key in Keys(obj.fields) && obj.fields[At(obj.fields, key)].value == v
    requires forall i :: 0 <= i < |key| ==> Ordinary(key[i])
    ensures PrintFields(obj, [key]) == Member(key, v)
  {
    OrdinaryIsNotEscaped(key);
  }

  lemma NamesAreOrdinary()
    ensures forall i :: 0 <= i < |ACTION| ==> Ordinary(ACTION[i])
    ensures forall i :: 0 <= i < |COIN| ==> Ordinary(COIN[i])
    ensures forall i :: 0 <= i < |PARAMS| ==> Ordinary(PARAMS[i])
  {
  }

  lemma FieldsText(obj: Json, first: Text, more: seq<Text>)
    requires obj.Obj? && first in Keys(obj.fields) && Has(obj, more) && more != []
    ensures PrintFields(obj, [first] + more) == PrintFields(obj, [first]) + ([0x2C] + PrintFields(obj, more))
  {
    var keys := [first] + more;
    assert keys[1..] == more && keys[0] == first;
  }

  lemma ThreeFields(obj: Json, a: Text, b: Text, c: Text)
    requires obj.Obj? && Has(obj, [a, b, c])
    ensures PrintFields(obj, [a, b, c])
            == PrintFields(obj, [a]) + ([0x2C] + (PrintFields(obj, [b]) + ([0x2C] + PrintFields(obj, [c]))))
  {
    assert [a] + [b, c] == [a, b, c] && [b] + [c] == [b, c];
    FieldsText(obj, b, [c]);
    FieldsText(obj, a, [b, c]);
  }

  lemma Joined(a: Text, b: Text, c: Text)
    ensures [0x7B] + ((a + ([0x2C] + (b + ([0x2C] + c)))) + [0x7D]) == [0x7B] + a + [0x2C] + b + [0x2C] + c + [0x7D]
  {
  }

  lemma RequestIsPrinted(s: Submission)
    ensures Has(Request(s), [ACTION, COIN, PARAMS])
    ensures Print(Request(s)) == [0x7B] + (PrintFields(Request(s), [ACTION, COIN, PARAMS]) + [0x7D])
  {
    RequestOrder(s);
    RequestFields(s);
  }

  lemma RequestMembers(s: Submission)
    ensures Has(Request(s), [ACTION, COIN, PARAMS])
    ensures PrintFields(Request(s), [ACTION]) == Member(ACTION, Str(s.action))
    ensures PrintFields(Request(s), [COIN]) == Member(COIN, Str(s.coin))
    ensures PrintFields(Request(s), [PARAMS]) == Member(PARAMS, Params(s))
  {
    var obj := Request(s);
    RequestFields(s);
    NamesAreOrdinary();
    FieldText(obj, ACTION, Str(s.action));
    FieldText(obj, COIN, Str(s.coin));
    FieldText(obj, PARAMS, Params(s));
  }

  /** The text that is hashed: action, coin and parameters, in this order, without a space. Missing and null parameters
      are written as the empty object, all others as they print. */
  lemma RequestText(s: Submission)
    ensures
      var params := if s.params == None || s.params == Some(Null) then Obj([]) else s.params.value;
      Print(Request(s)) == [0x7B] + Member(ACTION, Str(s.action)) + [0x2C] + Member(COIN, Str(s.coin))
                           + [0x2C] + Member(PARAMS, params) + [0x7D]
  {
    var obj := Request(s);
    RequestIsPrinted(s);
    RequestMembers(s);
    ThreeFields(obj, ACTION, COIN, PARAMS);
    Joined(PrintFields(obj, [ACTION]), PrintFields(obj, [COIN]), PrintFields(obj, [PARAMS]));
  }

  /** Missing, null and empty parameters make one submission, with one key whatever the hash. */
  lemma NoParamsAreEmpty(coin: Text, action: Text, hash: Text -> Text)
    ensures
      var key := DerivedIdempotencyKey(Submission(coin, action, Some(Obj([]))), hash);
      && key == DerivedIdempotencyKey(Submission(coin, action, None), hash)
      && key == DerivedIdempotencyKey(Submission(coin, action, Some(Null)), hash)
  {
    RequestText(Submission(coin, action, None));
    RequestText(Submission(coin, action, Some(Null)));
    RequestText(Submission(coin, action, Some(Obj([]))));
  }
}
