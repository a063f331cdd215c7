/** A parser for the printed text: it recovers the key-sorted value, so equal texts mean equal values. */
module JsonReader {
  import opened KeyOrder
  import opened JsonText
  import opened CanonicalJson

  // ---- The parser ---------------------------------------------------------------------------------

  function NumberRun(t: Text): (k: nat)
    ensures k <= |t|
  {
    if t == [] || !IsNumberCode(t[0]) then 0 else 1 + NumberRun(t[1..])
  }

  function ParseNumber(t: Text): (p: Parsed<Json>)
    ensures p.Done? ==> |p.rest| < |t|
  {
    var k := NumberRun(t);
    if IsNumberText(t[..k]) then Done(Num(Finite(t[..k])), t[k..]) else Fail
  }

  function ParseWord(t: Text, word: Text, v: Json): (p: Parsed<Json>)
    requires word != []
    ensures p.Done? ==> |p.rest| < |t|
  {
    if word <= t then Done(v, t[|word|..]) else Fail
  }

  function ParseQuoted(t: Text): (p: Parsed<Text>)
    ensures p.Done? ==> |p.rest| < |t|
  {
    if t != [] && t[0] == QUOTE then ParseUnits(t[1..]) else Fail
  }

  function Parse(t: Text): (p: Parsed<Json>)
    ensures p.Done? ==> |p.rest| < |t|
    decreases |t|, 1
  {
    if t == [] then Fail
    else if t[0] == NULL_TEXT[0] then ParseWord(t, NULL_TEXT, Null)
    else if t[0] == TRUE_TEXT[0] then ParseWord(t, TRUE_TEXT, Bool(true))
    else if t[0] == FALSE_TEXT[0] then ParseWord(t, FALSE_TEXT, Bool(false))
    else if t[0] == QUOTE then
      (match ParseQuoted(t)
       case Fail => Fail
       case Done(s, rest) => Done(Str(s), rest))
    else if t[0] == OPEN_ARRAY then
      if 1 < |t| && t[1] == CLOSE_ARRAY then Done(Arr([]), t[2..])
      else
        (match ParseItems(t[1..])
         case Fail => Fail
         case Done(items, rest) => Done(Arr(items), rest))
    else if t[0] == OPEN_OBJECT then
      if 1 < |t| && t[1] == CLOSE_OBJECT then Done(Obj([]), t[2..])
      else
        (match ParseFields(t[1..])
         case Fail => Fail
         case Done(fields, rest) => Done(Obj(fields), rest))
    else ParseNumber(t)
  }

  /** At least one item, and the closing bracket. */
  function ParseItems(t: Text): (p: Parsed<seq<Json>>)
    ensures p.Done? ==> |p.rest| < |t|
    decreases |t|, 2
  {
    match Parse(t)
    case Fail => Fail
    case Done(v, rest) =>
      if rest == [] then Fail
      else if rest[0] == CLOSE_ARRAY then Done([v], rest[1..])
      else if rest[0] != COMMA then Fail
      else
        match ParseItems(rest[1..])
        case Fail => Fail
        case Done(more, end) => Done([v] + more, end)
  }

  function ParseField(t: Text): (p: Parsed<Field>)
    ensures p.Done? ==> |p.rest| < |t|
    decreases |t|, 2
  {
    match ParseQuoted(t)
    case Fail => Fail
    case Done(key, rest) =>
      if rest == [] || rest[0] != COLON then Fail
      else
        match Parse(rest[1..])
        case Fail => Fail
        case Done(v, end) => Done(Field(key, v), end)
  }

  function ParseFields(t: Text): (p: Parsed<seq<Field>>)
    ensures p.Done? ==> |p.rest| < |t|
    decreases |t|, 3
  {
    match ParseField(t)
    case Fail => Fail
    case Done(field, rest) =>
      if rest == [] then Fail
      else if rest[0] == CLOSE_OBJECT then Done([field], rest[1..])
      else if rest[0] != COMMA then Fail
      else
        match ParseFields(rest[1..])
        case Fail => Fail
        case Done(more, end) => Done([field] + more, end)
  }

  // ---- Reading back what was printed ----------------------------------------------------------------

  /** What may stand behind a value. */
  predicate Delimits(rest: Text) {
    rest == [] || rest[0] == COMMA || rest[0] == CLOSE_ARRAY || rest[0] == CLOSE_OBJECT
  }

  lemma {:induction false} NumberRunIs(text: Text, rest: Text)
    requires (forall i :: 0 <= i < |text| ==> IsNumberCode(text[i])) && Delimits(rest)
    ensures NumberRun(text + rest) == |text|
  {
    if text == [] {
      assert [] + rest == rest;
    } else {
      NumberRunIs(text[1..], rest);
      assert (text + rest)[1..] == text[1..] + rest;
    }
  }

  lemma NumberIsRead(text: NumberText, rest: Text)
    requires Delimits(rest)
    ensures Parse(text + rest) == Done(Num(Finite(text)), rest)
  {
    var t := text + rest;
    NumberRunIs(text, rest);
    assert t[..|text|] == text && t[|text|..] == rest && t[0] == text[0];
  }

  lemma QuoteIsRead(s: Text, rest: Text)
    ensures Quote(s) + rest != [] && (Quote(s) + rest)[0] == QUOTE
    ensures ParseQuoted(Quote(s) + rest) == Done(s, rest)
  {
    var behind := Escape(s) + ([QUOTE] + rest);
    assert Quote(s) + rest == [QUOTE] + behind;
    assert ([QUOTE] + behind)[1..] == behind;
    EscapeIsRead(s, rest);
  }

  lemma ScalarIsRead(v: Json, rest: Text)
    requires !v.Arr? && !v.Obj? && Delimits(rest)
    ensures Parse(Print(v) + rest) == Done(Canon(v), rest)
  {
    match v
    case Null =>
    case Bool(on) =>
    case Str(s) =>
      QuoteIsRead(s, rest);
    case Num(n) =>
      NumberIsRead(if n.Finite? then n.text else ZERO, rest);
  }

  /** Parsing a printed value gives its canonical form back, whatever delimiter follows. */
  lemma {:induction false} PrintIsRead(v: Json, rest: Text)
    requires Delimits(rest)
    ensures Parse(Print(v) + rest) == Done(Canon(v), rest)
    decreases v, 1, 0
  {
    match v
    case Arr(items) =>
      if items != [] {
        ItemsAreRead(items, rest);
        ItemsStart(items);
      }
      ArrayIsRead(PrintItems(items), CanonItems(items), rest);
    case Obj(fields) =>
      SortKeepsKeys(Keys(fields));
      var keys := Sort(Keys(fields));
      if keys != [] {
        FieldsAreRead(v, keys, rest);
        FieldsStart(v, keys);
      }
      ObjectIsRead(PrintFields(v, keys), CanonFields(v, keys), rest);
    case _ =>
      ScalarIsRead(v, rest);
  }

  /** The text behind an opening bracket, and behind an empty pair. */
  lemma Enclosed(open: Code, body: Text, close: Code, rest: Text)
    ensures
      var t := [open] + (body + [close]) + rest;
      && t != [] && t[0] == open && t[1..] == body + ([close] + rest)
      && (body == [] ==> |t| > 1 && t[1] == close && t[2..] == rest)
      && (body != [] ==> |t| > 1 && t[1] == body[0])
  {
    var t := [open] + (body + [close]) + rest;
    assert t == [open] + (body + ([close] + rest));
  }

  /** Brackets around nothing, or around items that are read. */
  lemma ArrayIsRead(body: Text, items: seq<Json>, rest: Text)
    requires (body == []) == (items == [])
    requires body != [] ==> body[0] != CLOSE_ARRAY && ParseItems(body + ([CLOSE_ARRAY] + rest)) == Done(items, rest)
    ensures Parse([OPEN_ARRAY] + (body + [CLOSE_ARRAY]) + rest) == Done(Arr(items), rest)
  {
    Enclosed(OPEN_ARRAY, body, CLOSE_ARRAY, rest);
  }

  lemma ObjectIsRead(body: Text, fields: seq<Field>, rest: Text)
    requires (body == []) == (fields == [])
    requires body != [] ==> body[0] != CLOSE_OBJECT && ParseFields(body + ([CLOSE_OBJECT] + rest)) == Done(fields, rest)
    ensures Parse([OPEN_OBJECT] + (body + [CLOSE_OBJECT]) + rest) == Done(Obj(fields), rest)
  {
    Enclosed(OPEN_OBJECT, body, CLOSE_OBJECT, rest);
  }

  lemma ItemsStart(items: seq<Json>)
    requires items != []
    ensures PrintItems(items) != [] && PrintItems(items)[0] != CLOSE_ARRAY
  {
  }

  lemma FieldsStart(obj: Json, keys: seq<Text>)
    requires obj.Obj? && keys != [] && forall k :: k in keys ==> k in Keys(obj.fields)
    ensures PrintFields(obj, keys) != [] && PrintFields(obj, keys)[0] != CLOSE_OBJECT
  {
  }

  lemma {:induction false} ItemsAreRead(items: seq<Json>, rest: Text)
    requires items != []
    ensures ParseItems(PrintItems(items) + ([CLOSE_ARRAY] + rest)) == Done(CanonItems(items), rest)
    decreases items, 0
  {
    var behind := [CLOSE_ARRAY] + rest;
    if |items| == 1 {
      PrintIsRead(items[0], behind);
      assert behind[1..] == rest;
      assert CanonItems(items) == [Canon(items[0])];
    } else {
      var more := PrintItems(items[1..]) + behind;
      ItemsAreRead(items[1..], rest);
      PrintIsRead(items[0], [COMMA] + more);
      ThenComma(Print(items[0]), PrintItems(items[1..]), behind);
    }
  }

  lemma ThenComma(a: Text, b: Text, behind: Text)
    ensures a + ([COMMA] + b) + behind == a + ([COMMA] + (b + behind)) && ([COMMA] + (b + behind))[1..] == b + behind
  {
  }

  lemma {:induction false} FieldsAreRead(obj: Json, keys: seq<Text>, rest: Text)
    requires obj.Obj? && keys != [] && forall k :: k in keys ==> k in Keys(obj.fields)
    ensures ParseFields(PrintFields(obj, keys) + ([CLOSE_OBJECT] + rest)) == Done(CanonFields(obj, keys), rest)
    decreases obj, 0, |keys|
  {
    var behind := [CLOSE_OBJECT] + rest;
    var v := obj.fields[At(obj.fields, keys[0])].value;
    var field := Quote(keys[0]) + ([COLON] + Print(v));
    if |keys| == 1 {
      PrintIsRead(v, behind);
      FieldIsRead(keys[0], v, behind);
      assert CanonFields(obj, keys) == [Field(keys[0], Canon(v))];
    } else {
      var more := PrintFields(obj, keys[1..]) + behind;
      FieldsAreRead(obj, keys[1..], rest);
      PrintIsRead(v, [COMMA] + more);
      FieldIsRead(keys[0], v, [COMMA] + more);
      ThenComma(field, PrintFields(obj, keys[1..]), behind);
    }
  }

  lemma FieldIsRead(key: Text, v: Json, rest: Text)
    requires Parse(Print(v) + rest) == Done(Canon(v), rest)
    ensures ParseField(Quote(key) + ([COLON] + Print(v)) + rest) == Done(Field(key, Canon(v)), rest)
  {
    var behind := [COLON] + (Print(v) + rest);
    assert Quote(key) + ([COLON] + Print(v)) + rest == Quote(key) + behind;
    QuoteIsRead(key, behind);
    assert behind[1..] == Print(v) + rest;
  }

  // ---- Sorting first, then writing ----------------------------------------------------------------

  /** Plain JSON text, fields in the order they have. */
  function Write(v: Json): Text {
    match v
    case Arr(items) => [OPEN_ARRAY] + (WriteItems(items) + [CLOSE_ARRAY])
    case Obj(fields) => [OPEN_OBJECT] + (WriteFields(fields) + [CLOSE_OBJECT])
    case _ => Print(v)
  }

  function WriteItems(items: seq<Json>): Text {
    if items == [] then []
    else if |items| == 1 then Write(items[0])
    else Write(items[0]) + ([COMMA] + WriteItems(items[1..]))
  }

  function WriteFields(fields: seq<Field>): Text {
    if fields == [] then []
    else
      var field := Quote(fields[0].key) + ([COLON] + Write(fields[0].value));
      if |fields| == 1 then field else field + ([COMMA] + WriteFields(fields[1..]))
  }

  /** Printing is writing the canonical form. */
  lemma {:induction false} PrintWritesCanon(v: Json)
    ensures Print(v) == Write(Canon(v))
    decreases v, 1, 0
  {
    match v
    case Arr(items) =>
      ItemsWriteCanon(items);
    case Obj(fields) =>
      SortKeepsKeys(Keys(fields));
      FieldsWriteCanon(v, Sort(Keys(fields)));
    case _ =>
  }

  lemma {:induction false} ItemsWriteCanon(items: seq<Json>)
    ensures PrintItems(items) == WriteItems(CanonItems(items))
    decreases items, 0
  {
    if items != [] {
      PrintWritesCanon(items[0]);
      ItemsWriteCanon(items[1..]);
      assert CanonItems(items)[1..] == CanonItems(items[1..]);
    }
  }

  lemma {:induction false} FieldsWriteCanon(obj: Json, keys: seq<Text>)
    requires obj.Obj? && forall k :: k in keys ==> k in Keys(obj.fields)
    ensures PrintFields(obj, keys) == WriteFields(CanonFields(obj, keys))
    decreases obj, 0, |keys|
  {
    if keys != [] {
      PrintWritesCanon(obj.fields[At(obj.fields, keys[0])].value);
      FieldsWriteCanon(obj, keys[1..]);
      assert CanonFields(obj, keys)[1..] == CanonFields(obj, keys[1..]);
    }
  }

  /** Two values print alike exactly when their canonical forms are the same. */
  lemma TextDeterminesCanon(a: Json, b: Json)
    ensures Print(a) == Print(b) <==> Canon(a) == Canon(b)
  {
    PrintIsRead(a, []);
    PrintIsRead(b, []);
    assert Print(a) + [] == Print(a) && Print(b) + [] == Print(b);
    if Canon(a) == Canon(b) {
      PrintWritesCanon(a);
      PrintWritesCanon(b);
    }
  }
}
