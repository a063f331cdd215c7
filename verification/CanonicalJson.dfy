/** The key-sorted JSON printer behind the default idempotency key. */
module CanonicalJson {
  import opened KeyOrder
  import opened JsonText

  /** The characters of a printed number. */
  predicate IsNumberCode(u: Code) {
    0x30 <= u <= 0x39 || u == 0x2B || u == 0x2D || u == 0x2E || u == 0x65
  }

  const ZERO: Text := [0x30]
  const MINUS_ZERO: Text := [0x2D, 0x30]

  predicate IsNumberText(t: Text) {
    && t != [] && (0x30 <= t[0] <= 0x39 || t[0] == 0x2D) && t != MINUS_ZERO
    && forall i :: 0 <= i < |t| ==> IsNumberCode(t[i])
  }

  type NumberText = t: Text | IsNumberText(t) witness ZERO

  /** A double: a finite one other than minus zero is known by its shortest decimal text. `1e999` on the wire
      is read as an infinity. */
  datatype Number = Finite(text: NumberText) | NegativeZero | NonFinite

  datatype Json =
    | Null
    | Bool(on: bool)
    | Num(number: Number)
    | Str(text: Text)
    | Arr(items: seq<Json>)
    | Obj(fields: seq<Field>)
  datatype Field = Field(key: Text, value: Json)

  function Keys(fields: seq<Field>): (keys: seq<Text>)
    ensures |keys| == |fields| && forall i :: 0 <= i < |keys| ==> keys[i] == fields[i].key
  {
    if fields == [] then [] else Keys(fields[..|fields| - 1]) + [fields[|fields| - 1].key]
  }

  predicate DistinctKeys(fields: seq<Field>) {
    forall i, j :: 0 <= i < j < |fields| ==> fields[i].key != fields[j].key
  }

  /** An object holds a key once. */
  predicate WellFormed(v: Json) {
    match v
    case Arr(items) => forall i :: 0 <= i < |items| ==> WellFormed(items[i])
    case Obj(fields) => DistinctKeys(fields) && forall i :: 0 <= i < |fields| ==> WellFormed(fields[i].value)
    case _ => true
  }

  /** Where a key is. */
  function At(fields: seq<Field>, key: Text): (i: nat)
    requires key in Keys(fields)
    ensures i < |fields| && fields[i].key == key
  {
    if fields[|fields| - 1].key == key then |fields| - 1 else
      assert key in Keys(fields[..|fields| - 1]);
      At(fields[..|fields| - 1], key)
  }

  // ---- Printing -----------------------------------------------------------------------------------

  const COMMA: Code := 0x2C
  const COLON: Code := 0x3A
  const OPEN_ARRAY: Code := 0x5B
  const CLOSE_ARRAY: Code := 0x5D
  const OPEN_OBJECT: Code := 0x7B
  const CLOSE_OBJECT: Code := 0x7D
  const NULL_TEXT: Text := [0x6E, 0x75, 0x6C, 0x6C]
  const TRUE_TEXT: Text := [0x74, 0x72, 0x75, 0x65]
  const FALSE_TEXT: Text := [0x66, 0x61, 0x6C, 0x73, 0x65]

  function PrintNumber(n: Number): Text {
    match n
    case Finite(text) => text
    case NegativeZero => ZERO
    case NonFinite => NULL_TEXT
  }

  function Print(v: Json): Text
    decreases v, 1, 0
  {
    match v
    case Null => NULL_TEXT
    case Bool(on) => if on then TRUE_TEXT else FALSE_TEXT
    case Num(n) => PrintNumber(n)
    case Str(s) => Quote(s)
    case Arr(items) => [OPEN_ARRAY] + (PrintItems(items) + [CLOSE_ARRAY])
    case Obj(fields) =>
      SortKeepsKeys(Keys(fields));
      [OPEN_OBJECT] + (PrintFields(v, Sort(Keys(fields))) + [CLOSE_OBJECT])
  }

  function PrintItems(items: seq<Json>): Text {
    if items == [] then []
    else if |items| == 1 then Print(items[0])
    else Print(items[0]) + ([COMMA] + PrintItems(items[1..]))
  }

  function PrintFields(obj: Json, keys: seq<Text>): Text
    requires obj.Obj? && forall k :: k in keys ==> k in Keys(obj.fields)
    decreases obj, 0, |keys|
  {
    if keys == [] then []
    else
      var field := Quote(keys[0]) + ([COLON] + Print(obj.fields[At(obj.fields, keys[0])].value));
      if |keys| == 1 then field else field + ([COMMA] + PrintFields(obj, keys[1..]))
  }

  // ---- What the text stands for -------------------------------------------------------------------

  /** A scalar as its text shows it. */
  function Shown(v: Json): Json {
    if v == Num(NonFinite) then Null else if v == Num(NegativeZero) then Num(Finite(ZERO)) else v
  }

  /** The value with the keys of every object in ascending order. */
  function Canon(v: Json): Json
    decreases v, 1, 0
  {
    match v
    case Arr(items) => Arr(CanonItems(items))
    case Obj(fields) =>
      SortKeepsKeys(Keys(fields));
      Obj(CanonFields(v, Sort(Keys(fields))))
    case _ => Shown(v)
  }

  function CanonItems(items: seq<Json>): (r: seq<Json>)
    ensures |r| == |items|
  {
    if items == [] then [] else [Canon(items[0])] + CanonItems(items[1..])
  }

  function CanonFields(obj: Json, keys: seq<Text>): (r: seq<Field>)
    requires obj.Obj? && forall k :: k in keys ==> k in Keys(obj.fields)
    ensures |r| == |keys|
    decreases obj, 0, |keys|
  {
    if keys == [] then []
    else [Field(keys[0], Canon(obj.fields[At(obj.fields, keys[0])].value))] + CanonFields(obj, keys[1..])
  }
}
