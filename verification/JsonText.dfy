/** JavaScript strings as JSON quotes them. */
module JsonText {
  import opened Collections
  import opened Options
  import opened KeyOrder

  const QUOTE: Code := 0x22
  const BACKSLASH: Code := 0x5C
  const LETTER_U: Code := 0x75

  // ---- Quoting ------------------------------------------------------------------------------------

  /** The letter of a two-character escape. */
  function Letter(u: Code): Option<Code> {
    match u
    case 0x08 => Some(0x62)
    case 0x09 => Some(0x74)
    case 0x0A => Some(0x6E)
    case 0x0C => Some(0x66)
    case 0x0D => Some(0x72)
    case 0x22 => Some(0x22)
    case 0x5C => Some(0x5C)
    case _ => None
  }

  function Hex(d: nat): Code
    requires d < 16
  {
    if d < 10 then 0x30 + d else 0x57 + d
  }

  function FourHex(u: Code): Text {
    [Hex(u / 0x1000), Hex(u / 0x100 % 16), Hex(u / 0x10 % 16), Hex(u % 16)]
  }

  predicate IsHigh(u: Code) {
    0xD800 <= u < 0xDC00
  }

  predicate IsLow(u: Code) {
    0xDC00 <= u < 0xE000
  }

  /** How many units are escaped together: a surrogate pair is left as it is. */
  function Width(s: Text): (n: nat)
    requires s != []
    ensures 1 <= n <= |s|
  {
    if |s| > 1 && IsHigh(s[0]) && IsLow(s[1]) then 2 else 1
  }

  function EscapeUnit(u: Code): Text {
    if Letter(u).Some? then [BACKSLASH, Letter(u).value]
    else if u < 0x20 || IsHigh(u) || IsLow(u) then [BACKSLASH, LETTER_U] + FourHex(u)
    else [u]
  }

  function Escape(s: Text): Text {
    if s == [] then []
    else if Width(s) == 2 then s[..2] + Escape(s[2..])
    else EscapeUnit(s[0]) + Escape(s[1..])
  }

  function Quote(s: Text): Text {
    [QUOTE] + (Escape(s) + [QUOTE])
  }

  // ---- Reading back -----------------------------------------------------------------------------

  datatype Parsed<T> = Done(value: T, rest: Text) | Fail

  function Unletter(c: Code): Option<Code> {
    match c
    case 0x62 => Some(0x08)
    case 0x74 => Some(0x09)
    case 0x6E => Some(0x0A)
    case 0x66 => Some(0x0C)
    case 0x72 => Some(0x0D)
    case 0x22 => Some(0x22)
    case 0x5C => Some(0x5C)
    case _ => None
  }

  function HexValue(c: Code): Option<nat> {
    if 0x30 <= c <= 0x39 then Some(c - 0x30)
    else if 0x61 <= c <= 0x66 then Some(c - 0x57)
    else None
  }

  /** One unit of a quoted string. */
  function ParseUnit(t: Text): (p: Parsed<Code>)
    ensures p.Done? ==> |p.rest| < |t|
  {
    if t == [] then Fail
    else if t[0] != BACKSLASH then Done(t[0], t[1..])
    else if |t| < 2 then Fail
    else if Unletter(t[1]).Some? then Done(Unletter(t[1]).value, t[2..])
    else if t[1] != LETTER_U || |t| < 6 then Fail
    else
      var a, b, c, d := HexValue(t[2]), HexValue(t[3]), HexValue(t[4]), HexValue(t[5]);
      if a.None? || b.None? || c.None? || d.None? then Fail
      else if a.value < 16 && b.value < 16 && c.value < 16 && d.value < 16 then
        Done(((a.value * 16 + b.value) * 16 + c.value) * 16 + d.value, t[6..])
      else Fail
  }

  /** The units up to the closing quote. */
  function ParseUnits(t: Text): (p: Parsed<Text>)
    ensures p.Done? ==> |p.rest| < |t|
    decreases |t|
  {
    if t == [] then Fail
    else if t[0] == QUOTE then Done([], t[1..])
    else
      match ParseUnit(t)
      case Fail => Fail
      case Done(u, rest) =>
        match ParseUnits(rest)
        case Fail => Fail
        case Done(more, end) => Done([u] + more, end)
  }

  lemma EscapedUnitIsRead(u: Code, rest: Text)
    ensures EscapeUnit(u)[0] != QUOTE
    ensures ParseUnit(EscapeUnit(u) + rest) == Done(u, rest)
  {
    if Letter(u).Some? {
      assert ([BACKSLASH, Letter(u).value] + rest)[2..] == rest;
    } else if u < 0x20 || IsHigh(u) || IsLow(u) {
      HexUnitIsRead(u, rest);
    } else {
      assert ([u] + rest)[1..] == rest;
    }
  }

  lemma HexUnitIsRead(u: Code, rest: Text)
    ensures ParseUnit([BACKSLASH, LETTER_U] + FourHex(u) + rest) == Done(u, rest)
  {
    var a, b, c, d := u / 0x1000, u / 0x100 % 16, u / 0x10 % 16, u % 16;
    var t := [BACKSLASH, LETTER_U, Hex(a), Hex(b), Hex(c), Hex(d)] + rest;
    assert [BACKSLASH, LETTER_U] + FourHex(u) + rest == t;
    assert t[2] == Hex(a) && t[3] == Hex(b) && t[4] == Hex(c) && t[5] == Hex(d);
    assert t[6..] == rest;
    DigitsMakeUnit(u);
  }

  lemma DigitsMakeUnit(u: Code)
    ensures ((u / 0x1000 * 16 + u / 0x100 % 16) * 16 + u / 0x10 % 16) * 16 + u % 16 == u
  {
    assert u / 0x10 == u / 0x100 * 16 + u / 0x10 % 16;
    assert u / 0x100 == u / 0x1000 * 16 + u / 0x100 % 16;
  }

  /** A quoted string is read back, whatever follows it. */
  lemma {:induction false} EscapeIsRead(s: Text, rest: Text)
    ensures ParseUnits(Escape(s) + ([QUOTE] + rest)) == Done(s, rest)
  {
    var end := [QUOTE] + rest;
    if s == [] {
      assert [] + end == end;
    } else if Width(s) == 2 {
      EscapeIsRead(s[2..], rest);
      PairIsRead(s[0], s[1], Escape(s[2..]) + end);
      Regroup(s[..2], Escape(s[2..]), end);
      FirstTwo(s);
    } else {
      EscapeIsRead(s[1..], rest);
      Regroup(EscapeUnit(s[0]), Escape(s[1..]), end);
      UnitThenRest(s[0], Escape(s[1..]) + end);
      FirstOne(s);
    }
  }

  lemma UnitThenRest(u: Code, rest: Text)
    ensures ParseUnits(EscapeUnit(u) + rest)
            == match ParseUnits(rest) case Fail => Fail case Done(more, end) => Done([u] + more, end)
  {
    EscapedUnitIsRead(u, rest);
    assert (EscapeUnit(u) + rest)[0] == EscapeUnit(u)[0];
  }

  lemma FirstOne(s: Text)
    requires s != []
    ensures s == [s[0]] + s[1..]
  {
  }

  lemma FirstTwo(s: Text)
    requires |s| >= 2
    ensures s[..2] == [s[0], s[1]] && s == [s[0], s[1]] + s[2..]
  {
  }

  lemma PairIsRead(a: Code, b: Code, rest: Text)
    requires IsHigh(a) && IsLow(b)
    ensures ParseUnits([a, b] + rest)
            == match ParseUnits(rest) case Fail => Fail case Done(more, end) => Done([a, b] + more, end)
  {
    assert [a, b] + rest == [a] + ([b] + rest);
    assert ParseUnits([b] + rest) == match ParseUnits(rest) case Fail => Fail case Done(more, end) => Done([b] + more, end);
    if ParseUnits(rest).Done? {
      assert [a] + ([b] + ParseUnits(rest).value) == [a, b] + ParseUnits(rest).value;
    }
  }
}
