/** The line normaliser run before a handler is hashed: it drops blank lines and trailing white space,
    except where a string or template literal protects the text. */
module DigestPieces {
  import opened Collections
  import opened JsText

  datatype Unit = Unit(ch: char, protected: bool)
  datatype Piece = Piece(text: string, protected: bool)

  function Units(text: string, protected: bool): (u: seq<Unit>)
    ensures |u| == |text|
  {
    if text == "" then [] else Units(text[..|text| - 1], protected) + [Unit(text[|text| - 1], protected)]
  }

  function UnitsOf(pieces: seq<Piece>): seq<Unit> {
    if pieces == [] then []
    else UnitsOf(pieces[..|pieces| - 1]) + Units(pieces[|pieces| - 1].text, pieces[|pieces| - 1].protected)
  }

  function Chars(units: seq<Unit>): (s: string)
    ensures |s| == |units| && forall i :: 0 <= i < |s| ==> s[i] == units[i].ch
  {
    if units == [] then "" else Chars(units[..|units| - 1]) + [units[|units| - 1].ch]
  }

  // ---- Lines ------------------------------------------------------------------------------------

  predicate IsEnd(u: Unit) {
    IsLineEnd(u.ch)
  }

  /** Trailing white space that may go. */
  predicate IsLoose(u: Unit) {
    !u.protected && IsBlank(u.ch)
  }

  /** The length of the text before the first line ending. */
  function BodyLength(units: seq<Unit>): (k: nat)
    ensures k <= |units|
    ensures forall i :: 0 <= i < k ==> !IsEnd(units[i])
    ensures k < |units| ==> IsEnd(units[k])
  {
    if units == [] || IsEnd(units[0]) then 0 else 1 + BodyLength(units[1..])
  }

  /** One for a single line ending, two for a carriage return with its line feed. */
  function EndLength(units: seq<Unit>, k: nat): (n: nat)
    requires k < |units|
    ensures 1 <= n <= 2 && k + n <= |units|
  {
    if units[k].ch == '\r' && k + 1 < |units| && units[k + 1].ch == '\n' then 2 else 1
  }

  function TrimLoose(body: seq<Unit>): (r: seq<Unit>)
    ensures r <= body
    ensures r != [] ==> !IsLoose(r[|r| - 1])
  {
    if body != [] && IsLoose(body[|body| - 1]) then TrimLoose(body[..|body| - 1]) else body
  }

  /** A line's text, its ending, and what follows. */
  datatype Line = Line(body: seq<Unit>, ending: seq<Unit>, rest: seq<Unit>)

  function FirstLine(units: seq<Unit>): (l: Line)
    requires BodyLength(units) < |units|
    ensures l.ending != [] && |l.rest| < |units|
  {
    var k := BodyLength(units);
    var next := k + EndLength(units, k);
    Line(units[..k], units[k..next], units[next..])
  }

  lemma LineParts(units: seq<Unit>)
    requires BodyLength(units) < |units|
    ensures
      var l := FirstLine(units);
      && 1 <= |l.ending| <= 2 && IsEnd(l.ending[0])
      && units == l.body + (l.ending + l.rest)
      && (forall i :: 0 <= i < |l.body| ==> !IsEnd(l.body[i]))
      && |l.ending| == EndLength(l.ending + l.rest, 0)
  {
    var k := BodyLength(units);
    var n := EndLength(units, k);
    SuffixParts(units, k, n);
    PrefixHasNoEnds(units, k);
  }

  lemma PrefixHasNoEnds(units: seq<Unit>, k: nat)
    requires k <= |units| && forall i :: 0 <= i < k ==> !IsEnd(units[i])
    ensures forall i :: 0 <= i < k ==> !IsEnd(units[..k][i])
  {
  }

  lemma SuffixParts(units: seq<Unit>, k: nat, n: nat)
    requires k < |units| && n == EndLength(units, k)
    ensures units == units[..k] + (units[k..k + n] + units[k + n..])
    ensures units[k..k + n][0] == units[k] && n == EndLength(units[k..k + n] + units[k + n..], 0)
  {
    assert units[k..k + n] + units[k + n..] == units[k..];
    assert units[..k] + units[k..] == units;
  }

  /** A line survives when something is left of it or its ending is protected. */
  predicate Survives(body: seq<Unit>, ending: seq<Unit>)
    requires ending != []
  {
    TrimLoose(body) != [] || ending[0].protected
  }

  /** What is written for a line. */
  function Emit(body: seq<Unit>, ending: seq<Unit>): seq<Unit>
    requires ending != []
  {
    if Survives(body, ending) then TrimLoose(body) + ending else []
  }

  function EmitLast(body: seq<Unit>, last: seq<Unit>): seq<Unit> {
    TrimLoose(body) + if TrimLoose(body) != [] then last else []
  }

  /** The normalised text, line by line. `last` is the last ending met, repeated after a final line that has none. */
  function Normal(units: seq<Unit>, last: seq<Unit>): seq<Unit>
    decreases |units|
  {
    if BodyLength(units) == |units| then EmitLast(units, last)
    else
      var l := FirstLine(units);
      Emit(l.body, l.ending) + Normal(l.rest, Loosened(l.ending))
  }

  /** An ending as it is repeated: the copy is not protected text. */
  function Loosened(ending: seq<Unit>): (r: seq<Unit>)
    ensures |r| == |ending| && forall i :: 0 <= i < |r| ==> r[i] == Unit(ending[i].ch, false)
  {
    if ending == [] then [] else Loosened(ending[..|ending| - 1]) + [Unit(ending[|ending| - 1].ch, false)]
  }

  lemma BodyIs(units: seq<Unit>, k: nat)
    requires k <= |units| && (forall i :: 0 <= i < k ==> !IsEnd(units[i])) && (k < |units| ==> IsEnd(units[k]))
    ensures BodyLength(units) == k
  {
  }

  // ---- The loop ---------------------------------------------------------------------------------

  lemma CharsConcat(a: seq<Unit>, b: seq<Unit>)
    ensures Chars(a + b) == Chars(a) + Chars(b)
  {
  }

  lemma TrimLooseAppend(body: seq<Unit>, u: Unit)
    ensures TrimLoose(body + [u]) == if IsLoose(u) then TrimLoose(body) else body + [u]
  {
    assert (body + [u])[..|body|] == body;
  }

  /** What the loop holds of the current line. */
  ghost predicate Held(line: string, trailing: string, lineProtected: bool, body: seq<Unit>) {
    && line == Chars(TrimLoose(body)) && line + trailing == Chars(body)
    && (lineProtected ==> line != "")
    && forall j :: 0 <= j < |body| ==> !IsEnd(body[j])
  }

  lemma NoEndAppend(body: seq<Unit>, u: Unit)
    requires (forall j :: 0 <= j < |body| ==> !IsEnd(body[j])) && !IsEnd(u)
    ensures forall j :: 0 <= j < |body + [u]| ==> !IsEnd((body + [u])[j])
  {
  }

  lemma ReadLoose(line: string, trailing: string, lineProtected: bool, body: seq<Unit>, u: Unit)
    requires Held(line, trailing, lineProtected, body) && !IsEnd(u) && IsLoose(u)
    ensures Held(line, trailing + [u.ch], lineProtected, body + [u])
  {
    TrimLooseAppend(body, u);
    CharsAppend(body, u);
    NoEndAppend(body, u);
    Regroup(line, trailing, [u.ch]);
  }

  lemma ReadFirm(line: string, trailing: string, lineProtected: bool, body: seq<Unit>, u: Unit)
    requires Held(line, trailing, lineProtected, body) && !IsEnd(u) && !IsLoose(u)
    ensures Held(line + trailing + [u.ch], "", true, body + [u])
    ensures Held(line + trailing + [u.ch], "", lineProtected, body + [u])
  {
    TrimLooseAppend(body, u);
    CharsAppend(body, u);
  }

  lemma CharsAppend(units: seq<Unit>, u: Unit)
    ensures Chars(units + [u]) == Chars(units) + [u.ch]
  {
  }

  /** Reading on from the middle of a line, with `body` of it already read. */
  ghost function Scan(rest: seq<Unit>, body: seq<Unit>, last: seq<Unit>): seq<Unit>
    decreases |rest|
  {
    if rest == [] then EmitLast(body, last)
    else if !IsEnd(rest[0]) then Scan(rest[1..], body + [rest[0]], last)
    else
      var ending := rest[..EndLength(rest, 0)];
      Emit(body, ending) + Scan(rest[|ending|..], [], Loosened(ending))
  }

  lemma {:induction false} ScanIsNormal(rest: seq<Unit>, body: seq<Unit>, last: seq<Unit>)
    requires forall j :: 0 <= j < |body| ==> !IsEnd(body[j])
    ensures Scan(rest, body, last) == Normal(body + rest, last)
    decreases |rest|
  {
    if rest == [] {
      assert body + rest == body;
      BodyIs(body, |body|);
    } else if !IsEnd(rest[0]) {
      ScanIsNormal(rest[1..], body + [rest[0]], last);
      assert body + [rest[0]] + rest[1..] == body + rest;
    } else {
      var n := EndLength(rest, 0);
      FirstLineIs(body, rest);
      ScanIsNormal(rest[n..], [], Loosened(rest[..n]));
      assert [] + rest[n..] == rest[n..];
    }
  }

  /** The first line of known text in front of an ending. */
  lemma FirstLineIs(body: seq<Unit>, tail: seq<Unit>)
    requires (forall j :: 0 <= j < |body| ==> !IsEnd(body[j])) && tail != [] && IsEnd(tail[0])
    ensures BodyLength(body + tail) < |body + tail|
    ensures FirstLine(body + tail) == Line(body, tail[..EndLength(tail, 0)], tail[EndLength(tail, 0)..])
  {
    var units, n := body + tail, EndLength(tail, 0);
    forall j | 0 <= j < |body| ensures !IsEnd(units[j]) {
      assert units[j] == body[j];
    }
    BodyIs(units, |body|);
    assert |tail| > 1 ==> units[|body| + 1] == tail[1];
    assert units[..|body|] == body && units[|body|..|body| + n] == tail[..n] && units[|body| + n..] == tail[n..];
  }

  /** What is written and what is still to come make up the whole. */
  ghost predicate Sums(written: string, rest: seq<Unit>, body: seq<Unit>, last: seq<Unit>, whole: string) {
    written + Chars(Scan(rest, body, last)) == whole
  }

  /** Ending a line writes it when it survives. */
  lemma LineEndsInFront(written: string, line: string, rest: seq<Unit>, body: seq<Unit>, last: seq<Unit>, whole: string)
    requires rest != [] && IsEnd(rest[0])
    requires line == Chars(TrimLoose(body)) && Sums(written, rest, body, last, whole)
    ensures
      var ending := rest[..EndLength(rest, 0)];
      Sums(if line != "" || rest[0].protected then written + (line + Chars(ending)) else written,
           rest[|ending|..], [], Loosened(ending), whole)
  {
    var ending := rest[..EndLength(rest, 0)];
    Written(written, line, body, ending, Scan(rest[|ending|..], [], Loosened(ending)));
  }

  lemma EndingAt(units: seq<Unit>, i: nat)
    requires i < |units|
    ensures
      var n := EndLength(units, i);
      && n == EndLength(units[i..], 0)
      && units[i..][..n] == units[i..i + n] && units[i..][n..] == units[i + n..]
      && Chars(Loosened(units[i..i + n])) == Chars(units[i..i + n])
  {
  }

  /** The same at a position of the whole text. */
  lemma LineEnds(
    written: string, line: string, units: seq<Unit>, i: nat, next: nat, body: seq<Unit>, last: seq<Unit>, whole: string)
    requires i < next <= |units| && IsEnd(units[i]) && next == i + EndLength(units, i)
    requires line == Chars(TrimLoose(body)) && Sums(written, units[i..], body, last, whole)
    ensures
      var ending := units[i..next];
      Sums(if line != "" || units[i].protected then written + (line + Chars(ending)) else written,
           units[next..], [], Loosened(ending), whole)
    ensures Chars(Loosened(units[i..next])) == Chars(units[i..next])
  {
    EndingAt(units, i);
    assert units[i..][0] == units[i];
    LineEndsInFront(written, line, units[i..], body, last, whole);
  }

  lemma Written(written: string, line: string, body: seq<Unit>, ending: seq<Unit>, tail: seq<Unit>)
    requires ending != [] && line == Chars(TrimLoose(body))
    ensures written + Chars(Emit(body, ending) + tail)
            == (if line != "" || ending[0].protected then written + (line + Chars(ending)) else written) + Chars(tail)
  {
    if Survives(body, ending) {
      CharsConcat(TrimLoose(body) + ending, tail);
      CharsConcat(TrimLoose(body), ending);
      Regroup(written, line + Chars(ending), Chars(tail));
    } else {
      assert [] + tail == tail;
    }
  }

  /** Reading on within a line writes nothing yet. */
  lemma LineGoesOn(written: string, units: seq<Unit>, i: nat, body: seq<Unit>, last: seq<Unit>, whole: string)
    requires i < |units| && !IsEnd(units[i]) && Sums(written, units[i..], body, last, whole)
    ensures Sums(written, units[i + 1..], body + [units[i]], last, whole)
  {
    assert units[i..][1..] == units[i + 1..];
  }

  /** A carriage return takes the line feed after it along, whichever of the two is protected. */
  method ReadEnding(units: seq<Unit>, i: nat) returns (ending: string, next: nat)
    requires i < |units|
    ensures next == i + EndLength(units, i) && ending == Chars(units[i..next])
  {
    ending, next := [units[i].ch], i + 1;
    if units[i].ch == '\r' && i + 1 < |units| && units[i + 1].ch == '\n' {
      ending, next := ending + [units[i + 1].ch], i + 2;
    }
  }

  /** A last line without an ending takes the last one met. */
  lemma TextEnds(written: string, line: string, body: seq<Unit>, last: seq<Unit>)
    requires line == Chars(TrimLoose(body))
    ensures written + Chars(Scan([], body, last)) == written + line + (if line != "" then Chars(last) else "")
  {
    CharsConcat(TrimLoose(body), last);
    assert TrimLoose(body) + [] == TrimLoose(body);
    Regroup(written, line, Chars(last));
  }

  /** Everything the loop knows with some text still to read. */
  ghost predicate AtWork(
    normalized: string, line: string, trailing: string, lineProtected: bool, lastEnding: string,
    rest: seq<Unit>, body: seq<Unit>, last: seq<Unit>, whole: string)
  {
    && lastEnding == Chars(last)
    && Held(line, trailing, lineProtected, body) && Sums(normalized, rest, body, last, whole)
  }

  /** A character within a line: loose white space waits for what comes next. */
  method ReadInLine(
    line: string, trailing: string, lineProtected: bool, units: seq<Unit>, i: nat,
    ghost normalized: string, ghost lastEnding: string, ghost body: seq<Unit>, ghost last: seq<Unit>, ghost whole: string)
    returns (line': string, trailing': string, lineProtected': bool)
    requires i < |units| && !IsEnd(units[i])
    requires AtWork(normalized, line, trailing, lineProtected, lastEnding, units[i..], body, last, whole)
    ensures AtWork(normalized, line', trailing', lineProtected', lastEnding, units[i + 1..], body + [units[i]], last, whole)
  {
    var u := units[i];
    LineGoesOn(normalized, units, i, body, last, whole);
    line', trailing', lineProtected' := line, trailing, lineProtected;
    if !u.protected && IsBlank(u.ch) {
      ReadLoose(line, trailing, lineProtected, body, u);
      trailing' := trailing + [u.ch];
    } else {
      ReadFirm(line, trailing, lineProtected, body, u);
      line', trailing' := line + trailing + [u.ch], "";
      if u.protected { lineProtected' := true; }
    }
  }

  /** The end of a line: it is written when something is left of it or its ending is protected. */
  method EndLine(
    normalized: string, line: string, lineProtected: bool, units: seq<Unit>, i: nat,
    ghost trailing: string, ghost lastEnding: string, ghost body: seq<Unit>, ghost last: seq<Unit>, ghost whole: string)
    returns (normalized': string, ending: string, next: nat)
    requires i < |units| && IsEnd(units[i])
    requires AtWork(normalized, line, trailing, lineProtected, lastEnding, units[i..], body, last, whole)
    ensures i < next <= |units|
    ensures AtWork(normalized', "", "", false, ending, units[next..], [], Loosened(units[i..next]), whole)
  {
    ending, next := ReadEnding(units, i);
    LineEnds(normalized, line, units, i, next, body, last, whole);
    normalized' := normalized;
    if line != "" || lineProtected || units[i].protected {
      normalized' := normalized + (line + ending);
    }
  }

  lemma TextIsRead(
    normalized: string, line: string, trailing: string, lineProtected: bool, lastEnding: string,
    units: seq<Unit>, body: seq<Unit>, last: seq<Unit>)
    requires AtWork(normalized, line, trailing, lineProtected, lastEnding, [], body, last, Chars(Scan(units, [], [])))
    ensures normalized + line + (if line != "" then lastEnding else "") == Chars(Normal(units, []))
  {
    TextEnds(normalized, line, body, last);
    ScanFromStart(units);
  }

  lemma EmptyTail(units: seq<Unit>)
    ensures units[|units|..] == []
  {
  }

  lemma ScanFromStart(units: seq<Unit>)
    ensures Scan(units, [], []) == Normal(units, [])
  {
    ScanIsNormal(units, [], []);
    assert [] + units == units;
  }

  /** The character loop computes the line-by-line normal form. */
  method NormalizeDigestPieces(pieces: seq<Piece>) returns (r: string)
    ensures r == Chars(Normal(UnitsOf(pieces), []))
  {
    var units := UnitsOf(pieces);
    var normalized, line, trailing, lineProtected, lastEnding := "", "", "", false, "";
    ghost var body: seq<Unit>, last: seq<Unit>, whole := [], [], Chars(Scan(units, [], []));
    var i := 0;
    assert units[0..] == units;
    while i < |units|
      invariant i <= |units|
      invariant AtWork(normalized, line, trailing, lineProtected, lastEnding, units[i..], body, last, whole)
      decreases |units| - i
    {
      if IsEnd(units[i]) {
        var next;
        normalized, lastEnding, next :=
          EndLine(normalized, line, lineProtected, units, i, trailing, lastEnding, body, last, whole);
        line, trailing, lineProtected := "", "", false;
        body, last, i := [], Loosened(units[i..next]), next;
      } else {
        line, trailing, lineProtected :=
          ReadInLine(line, trailing, lineProtected, units, i, normalized, lastEnding, body, last, whole);
        body, i := body + [units[i]], i + 1;
      }
    }
    EmptyTail(units);
    TextIsRead(normalized, line, trailing, lineProtected, lastEnding, units, body, last);
    return normalized + line + (if line != "" && lastEnding != "" then lastEnding else "");
  }
}
