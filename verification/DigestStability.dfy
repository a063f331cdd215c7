/** The normal form is stable, and outside protected text it has no blank line and no trailing white space. */
module DigestStability {
  import opened Collections
  import opened DigestPieces

  ghost predicate Unprotected(units: seq<Unit>) {
    forall i :: 0 <= i < |units| ==> !units[i].protected
  }

  /** A single line ending, or a carriage return with its line feed. */
  ghost predicate IsEnding(e: seq<Unit>) {
    (|e| == 1 && IsEnd(e[0])) || (|e| == 2 && e[0].ch == '\r' && e[1].ch == '\n')
  }

  ghost predicate NoEnds(units: seq<Unit>) {
    forall i :: 0 <= i < |units| ==> !IsEnd(units[i])
  }

  /** Every line has text, and none ends in loose white space. */
  ghost predicate CleanLines(units: seq<Unit>)
    decreases |units|
  {
    if BodyLength(units) == |units| then units != [] ==> IsClean(units)
    else IsClean(FirstLine(units).body) && CleanLines(FirstLine(units).rest)
  }

  ghost predicate IsClean(body: seq<Unit>) {
    body != [] && !IsLoose(body[|body| - 1])
  }

  ghost predicate StartsInLine(units: seq<Unit>) {
    units != [] ==> !IsEnd(units[0])
  }

  /** Either one unended line, or every line ended. */
  ghost predicate Terminated(units: seq<Unit>) {
    units != [] ==> IsEnd(units[|units| - 1])
  }

  // ---- Reading back one line ----------------------------------------------------------------------

  lemma ReadLine(body: seq<Unit>, ending: seq<Unit>, tail: seq<Unit>)
    requires NoEnds(body) && IsEnding(ending) && StartsInLine(tail)
    ensures BodyLength(body + ending + tail) < |body + ending + tail|
    ensures FirstLine(body + ending + tail) == Line(body, ending, tail)
  {
    Regroup(body, ending, tail);
    EndingIsRead(ending, tail);
    FirstLineIs(body, ending + tail);
  }

  lemma EndingIsRead(ending: seq<Unit>, tail: seq<Unit>)
    requires IsEnding(ending) && StartsInLine(tail)
    ensures EndLength(ending + tail, 0) == |ending|
    ensures (ending + tail)[..|ending|] == ending && (ending + tail)[|ending|..] == tail
  {
  }

  lemma EndingOf(units: seq<Unit>)
    requires BodyLength(units) < |units|
    ensures IsEnding(FirstLine(units).ending) && IsEnding(Loosened(FirstLine(units).ending))
  {
    LineParts(units);
    var l := FirstLine(units);
    assert |l.ending| == 2 ==> (l.ending + l.rest)[1] == l.ending[1];
  }

  lemma RestEndsAlike(units: seq<Unit>)
    requires BodyLength(units) < |units|
    ensures
      var l := FirstLine(units);
      units[|units| - 1] == if l.rest != [] then l.rest[|l.rest| - 1] else l.ending[|l.ending| - 1]
  {
  }

  lemma PartsJoin(units: seq<Unit>)
    requires BodyLength(units) < |units|
    ensures units == FirstLine(units).body + FirstLine(units).ending + FirstLine(units).rest
  {
    LineParts(units);
    Regroup(FirstLine(units).body, FirstLine(units).ending, FirstLine(units).rest);
  }

  // ---- Stability ----------------------------------------------------------------------------------

  /** Text whose lines are clean, and ended unless there is only one, is its own normal form. */
  lemma {:induction false} CleanTextIsFixed(units: seq<Unit>, last: seq<Unit>)
    requires CleanLines(units) && (last == [] || Terminated(units)) && (NoEnds(units) || Terminated(units))
    ensures Normal(units, last) == units
    decreases |units|
  {
    if BodyLength(units) < |units| {
      var l := FirstLine(units);
      CleanRest(units);
      CleanTextIsFixed(l.rest, Loosened(l.ending));
      CleanStays(l.body);
      PartsJoin(units);
    } else {
      if units != [] { CleanStays(units); }
      assert units + [] == units;
    }
  }

  lemma CleanRest(units: seq<Unit>)
    requires BodyLength(units) < |units| && CleanLines(units) && (NoEnds(units) || Terminated(units))
    ensures IsClean(FirstLine(units).body) && CleanLines(FirstLine(units).rest) && Terminated(FirstLine(units).rest)
  {
    RestEndsAlike(units);
    assert IsEnd(units[BodyLength(units)]);
  }

  lemma CleanStays(body: seq<Unit>)
    requires IsClean(body)
    ensures TrimLoose(body) == body
  {
  }

  /** The normal form of unprotected text has clean lines. */
  lemma {:induction false} NormalIsClean(units: seq<Unit>, last: seq<Unit>)
    requires Unprotected(units) && (last == [] || IsEnding(last))
    ensures CleanLines(Normal(units, last)) && StartsInLine(Normal(units, last))
    ensures last != [] || !NoEnds(units) ==> Terminated(Normal(units, last))
    ensures NoEnds(units) && last == [] ==> NoEnds(Normal(units, last))
    decreases |units|
  {
    if BodyLength(units) == |units| {
      LastLineIsClean(TrimLoose(units), last);
    } else {
      var l := FirstLine(units);
      RestIsUnprotected(units);
      EndingOf(units);
      NormalIsClean(l.rest, Loosened(l.ending));
      LineIsClean(l.body, l.ending, Normal(l.rest, Loosened(l.ending)));
    }
  }

  lemma RestIsUnprotected(units: seq<Unit>)
    requires BodyLength(units) < |units| && Unprotected(units)
    ensures !FirstLine(units).ending[0].protected && Unprotected(FirstLine(units).rest) && NoEnds(FirstLine(units).body)
    ensures !NoEnds(units)
  {
  }

  lemma LastLineIsClean(body: seq<Unit>, last: seq<Unit>)
    requires NoEnds(body) && (body != [] ==> IsClean(body)) && (last == [] || IsEnding(last))
    ensures
      var text := body + if body != [] then last else [];
      CleanLines(text) && StartsInLine(text) && (last != [] ==> Terminated(text)) && (last == [] ==> NoEnds(text))
  {
    if body == [] || last == [] {
      assert body + [] == body;
      BodyIs(body, |body|);
    } else {
      ReadLine(body, last, []);
      assert body + last + [] == body + last;
      assert CleanLines([]);
    }
  }

  lemma LineIsClean(body: seq<Unit>, ending: seq<Unit>, tail: seq<Unit>)
    requires NoEnds(body) && IsEnding(ending) && !ending[0].protected
    requires CleanLines(tail) && StartsInLine(tail) && Terminated(tail)
    ensures
      var text := Emit(body, ending) + tail;
      CleanLines(text) && StartsInLine(text) && Terminated(text)
  {
    if TrimLoose(body) == [] {
      assert [] + tail == tail;
    } else {
      KeptLineIsClean(TrimLoose(body), ending, tail);
    }
  }

  lemma KeptLineIsClean(kept: seq<Unit>, ending: seq<Unit>, tail: seq<Unit>)
    requires NoEnds(kept) && IsClean(kept) && IsEnding(ending)
    requires CleanLines(tail) && StartsInLine(tail) && Terminated(tail)
    ensures
      var text := kept + ending + tail;
      CleanLines(text) && StartsInLine(text) && Terminated(text)
  {
    var text := kept + ending + tail;
    ReadLine(kept, ending, tail);
    assert text[0] == kept[0];
    LastOfJoined(kept, ending, tail);
  }

  lemma LastOfJoined(a: seq<Unit>, b: seq<Unit>, c: seq<Unit>)
    requires b != []
    ensures
      var whole := a + b + c;
      whole[|whole| - 1] == if c != [] then c[|c| - 1] else b[|b| - 1]
  {
  }

  /** Normalising twice changes nothing more, on unprotected text. */
  lemma NormalIsIdempotent(units: seq<Unit>)
    requires Unprotected(units)
    ensures Normal(Normal(units, []), []) == Normal(units, [])
  {
    NormalIsClean(units, []);
    CleanTextIsFixed(Normal(units, []), []);
  }

  /** The text the method returns. */
  function Normalized(pieces: seq<Piece>): string {
    Chars(Normal(UnitsOf(pieces), []))
  }

  lemma {:induction false} UnitsOfChars(units: seq<Unit>)
    requires Unprotected(units)
    ensures Units(Chars(units), false) == units
  {
    if units != [] {
      UnitsOfChars(units[..|units| - 1]);
      assert Chars(units)[..|units| - 1] == Chars(units[..|units| - 1]);
    }
  }

  lemma {:induction false} UnitsAreUnprotected(text: string)
    ensures Unprotected(Units(text, false))
  {
    if text != "" {
      UnitsAreUnprotected(text[..|text| - 1]);
    }
  }

  lemma BodyIsUnprotected(units: seq<Unit>)
    requires BodyLength(units) < |units| && Unprotected(units)
    ensures Unprotected(Emit(FirstLine(units).body, FirstLine(units).ending))
  {
    var l := FirstLine(units);
    assert Unprotected(l.body) && Unprotected(l.ending);
    EmitIsUnprotected(l.body, l.ending);
  }

  lemma EmitIsUnprotected(body: seq<Unit>, ending: seq<Unit>)
    requires ending != [] && Unprotected(body) && Unprotected(ending)
    ensures Unprotected(Emit(body, ending))
  {
  }

  lemma {:induction false} NormalStaysUnprotected(units: seq<Unit>, last: seq<Unit>)
    requires Unprotected(units) && Unprotected(last)
    ensures Unprotected(Normal(units, last))
    decreases |units|
  {
    if BodyLength(units) < |units| {
      RestIsUnprotected(units);
      BodyIsUnprotected(units);
      NormalStaysUnprotected(FirstLine(units).rest, Loosened(FirstLine(units).ending));
    }
  }

  /** On plain text, normalising the normalised text again changes nothing. */
  lemma NormalizingTwice(text: string)
    ensures Normalized([Piece(Normalized([Piece(text, false)]), false)]) == Normalized([Piece(text, false)])
  {
    var units := Units(text, false);
    var once := Normal(units, []);
    OnePiece(text);
    OnePiece(Chars(once));
    UnitsAreUnprotected(text);
    NormalStaysUnprotected(units, []);
    UnitsOfChars(once);
    NormalIsIdempotent(units);
  }

  lemma OnePiece(text: string)
    ensures UnitsOf([Piece(text, false)]) == Units(text, false)
  {
    assert [Piece(text, false)][..0] == [];
  }
}
