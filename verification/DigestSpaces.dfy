/** White space in front of a line ending is not seen. */
module DigestSpaces {
  import opened Collections
  import opened DigestPieces
  import opened DigestStability

  ghost predicate AllLoose(spaces: seq<Unit>) {
    forall i :: 0 <= i < |spaces| ==> IsLoose(spaces[i])
  }

  lemma {:induction false} TrimIgnoresLoose(body: seq<Unit>, spaces: seq<Unit>)
    requires AllLoose(spaces)
    ensures TrimLoose(body + spaces) == TrimLoose(body)
    decreases |spaces|
  {
    if spaces == [] {
      assert body + spaces == body;
    } else {
      TrimIgnoresLoose(body, spaces[..|spaces| - 1]);
      assert body + spaces == body + spaces[..|spaces| - 1] + [spaces[|spaces| - 1]];
      TrimLooseAppend(body + spaces[..|spaces| - 1], spaces[|spaces| - 1]);
    }
  }

  /** The line feed of a carriage return is the one ending that white space would cut off. */
  ghost predicate CutsPair(before: seq<Unit>, ending: Unit) {
    before != [] && before[|before| - 1].ch == '\r' && ending.ch == '\n'
  }

  /** Text that starts with whole lines: the first is read alike whatever follows. */
  lemma FirstLineStays(before: seq<Unit>, tail: seq<Unit>)
    requires BodyLength(before) < |before| && tail != []
    requires before[|before| - 1].ch == '\r' ==> tail[0].ch != '\n'
    ensures BodyLength(before + tail) < |before + tail|
    ensures FirstLine(before + tail) == FirstLine(before).(rest := FirstLine(before).rest + tail)
  {
    var l := FirstLine(before);
    assert NoEnds(l.body) && IsEnd(l.ending[0]) && |l.ending| == EndLength(l.ending + l.rest, 0) by {
      LineParts(before);
    }
    assert before + tail == l.body + (l.ending + (l.rest + tail)) by {
      LineParts(before);
      Reassociate(before, l.body, l.ending, l.rest, tail);
    }
    RestEndsAlike(before);
    LineStays(l, tail);
  }

  lemma Reassociate(whole: seq<Unit>, a: seq<Unit>, b: seq<Unit>, c: seq<Unit>, d: seq<Unit>)
    requires whole == a + (b + c)
    ensures whole + d == a + (b + (c + d))
  {
  }

  lemma LineStays(l: Line, tail: seq<Unit>)
    requires NoEnds(l.body) && l.ending != [] && IsEnd(l.ending[0]) && tail != []
    requires |l.ending| == EndLength(l.ending + l.rest, 0)
    requires l.rest == [] && l.ending[|l.ending| - 1].ch == '\r' ==> tail[0].ch != '\n'
    ensures
      var whole := l.body + (l.ending + (l.rest + tail));
      BodyLength(whole) < |whole| && FirstLine(whole) == l.(rest := l.rest + tail)
  {
    EndingStays(l.ending, l.rest, tail);
    FirstLineIs(l.body, l.ending + (l.rest + tail));
  }

  /** What stands behind a line does not change where its ending stops. */
  lemma EndingStays(ending: seq<Unit>, rest: seq<Unit>, tail: seq<Unit>)
    requires ending != [] && IsEnd(ending[0]) && tail != [] && |ending| == EndLength(ending + rest, 0)
    requires rest == [] && ending[|ending| - 1].ch == '\r' ==> tail[0].ch != '\n'
    ensures
      var behind := ending + (rest + tail);
      && EndLength(behind, 0) == |ending|
      && behind[..|ending|] == ending && behind[|ending|..] == rest + tail
  {
    var behind := ending + (rest + tail);
    if |ending| == 1 {
      assert behind[1] == if rest == [] then tail[0] else rest[0];
      assert rest != [] ==> (ending + rest)[1] == rest[0];
    } else {
      assert behind[1] == ending[1] && (ending + rest)[1] == ending[1];
    }
  }

  /** The first line of known text is written, then what follows it. */
  lemma FirstLineWrites(before: seq<Unit>, tail: seq<Unit>, last: seq<Unit>)
    requires BodyLength(before) < |before| && tail != []
    requires before[|before| - 1].ch == '\r' ==> tail[0].ch != '\n'
    ensures
      var l := FirstLine(before);
      Normal(before + tail, last) == Emit(l.body, l.ending) + Normal(l.rest + tail, Loosened(l.ending))
  {
    FirstLineStays(before, tail);
  }

  lemma SpacesOnOneLine(before: seq<Unit>, spaces: seq<Unit>, tail: seq<Unit>, last: seq<Unit>)
    requires NoEnds(before) && tail != [] && IsEnd(tail[0]) && AllLoose(spaces)
    ensures Normal(before + (spaces + tail), last) == Normal(before + tail, last)
  {
    Regroup(before, spaces, tail);
    FirstLineIs(before + spaces, tail);
    FirstLineIs(before, tail);
    TrimIgnoresLoose(before, spaces);
  }

  lemma {:induction false} SpacesInFrontVanish(before: seq<Unit>, spaces: seq<Unit>, tail: seq<Unit>, last: seq<Unit>)
    requires tail != [] && IsEnd(tail[0]) && AllLoose(spaces) && !CutsPair(before, tail[0])
    ensures Normal(before + (spaces + tail), last) == Normal(before + tail, last)
    decreases |before|
  {
    if BodyLength(before) == |before| {
      SpacesOnOneLine(before, spaces, tail, last);
    } else {
      var l := FirstLine(before);
      RestEndsAlike(before);
      SpacesInFrontVanish(l.rest, spaces, tail, Loosened(l.ending));
      assert (spaces + tail)[0] == if spaces == [] then tail[0] else spaces[0];
      FirstLineWrites(before, spaces + tail, last);
      FirstLineWrites(before, tail, last);
    }
  }

  // ---- Cutting a line feed off its carriage return ---------------------------------------------------

  /** The text behind the last line ending. */
  function OpenLine(units: seq<Unit>): seq<Unit>
    decreases |units|
  {
    if BodyLength(units) == |units| then units else OpenLine(FirstLine(units).rest)
  }

  /** An unended last line with text, which repeats the ending before it. */
  ghost predicate RepeatsEnding(after: seq<Unit>) {
    NoEnds(after) && TrimLoose(after) != []
  }

  /** When white space between the two is seen: the line and the lone line feed are not kept or dropped
      alike, or the shortened ending is repeated at the end of the text. */
  ghost predicate CutIsSeen(before: seq<Unit>, lf: Unit, after: seq<Unit>)
    requires before != []
  {
    var k := |before| - 1;
    Survives(OpenLine(before[..k]), [before[k]]) != lf.protected || RepeatsEnding(after)
  }

  lemma LastEndingMatters(after: seq<Unit>, x: seq<Unit>, y: seq<Unit>)
    ensures !RepeatsEnding(after) ==> Normal(after, x) == Normal(after, y)
    ensures RepeatsEnding(after) ==> Normal(after, x) == TrimLoose(after) + x
  {
    if NoEnds(after) {
      BodyIs(after, |after|);
    } else {
      var i :| 0 <= i < |after| && IsEnd(after[i]);
    }
  }

  /** A line read in front of any text that cannot be taken for more of its ending. */
  lemma LineIsRead(b: seq<Unit>, ending: seq<Unit>, rest: seq<Unit>, last: seq<Unit>)
    requires NoEnds(b) && IsEnding(ending)
    requires |ending| == 1 && ending[0].ch == '\r' && rest != [] ==> rest[0].ch != '\n'
    ensures Normal(b + (ending + rest), last) == Emit(b, ending) + Normal(rest, Loosened(ending))
  {
    HeadAndTail(ending, rest);
    assert EndLength(ending + rest, 0) == |ending|;
    FirstLineIs(b, ending + rest);
  }

  /** Both readings of a line whose carriage return may have lost its line feed. */
  lemma CutLineReads(b: seq<Unit>, cr: Unit, spaces: seq<Unit>, lf: Unit, after: seq<Unit>, last: seq<Unit>)
    requires NoEnds(b) && cr.ch == '\r' && lf.ch == '\n' && spaces != [] && AllLoose(spaces)
    ensures Normal(b + ([cr] + (spaces + ([lf] + after))), last)
            == Emit(b, [cr]) + (Emit(spaces, [lf]) + Normal(after, Loosened([lf])))
    ensures Normal(b + ([cr] + ([lf] + after)), last) == Emit(b, [cr, lf]) + Normal(after, Loosened([cr, lf]))
  {
    var behind := spaces + ([lf] + after);
    assert behind[0] == spaces[0] && IsLoose(spaces[0]);
    LineIsRead(b, [cr], behind, last);
    LineIsRead(spaces, [lf], after, Loosened([cr]));
    LineIsRead(b, [cr, lf], after, last);
    PairJoins(cr, lf, after);
  }

  lemma PairJoins(cr: Unit, lf: Unit, after: seq<Unit>)
    ensures [cr] + ([lf] + after) == [cr, lf] + after
  {
  }

  lemma HeadAndTail(a: seq<Unit>, b: seq<Unit>)
    ensures (a + b)[..|a|] == a && (a + b)[|a|..] == b
  {
  }

  lemma SpacesTrimAway(spaces: seq<Unit>)
    requires AllLoose(spaces)
    ensures TrimLoose(spaces) == []
  {
    TrimIgnoresLoose([], spaces);
    assert [] + spaces == spaces;
  }

  lemma CharsOfEmit(body: seq<Unit>, ending: seq<Unit>)
    requires ending != []
    ensures Chars(Emit(body, ending)) == if Survives(body, ending) then Chars(TrimLoose(body)) + Chars(ending) else ""
  {
    CharsConcat(TrimLoose(body), ending);
  }

  lemma EndingChars(cr: Unit, lf: Unit)
    ensures Chars([cr]) == [cr.ch] && Chars([cr, lf]) == [cr.ch] + [lf.ch]
    ensures Chars(Loosened([lf])) == [lf.ch] && Chars(Loosened([cr, lf])) == [cr.ch] + [lf.ch]
  {
  }

  /** What the cut text and the whole one print behind the line's carriage return, if it is kept. */
  function CutPart(lf: Unit, after: seq<Unit>): string {
    (if lf.protected then "\n" else "") + Chars(Normal(after, Loosened([lf])))
  }

  function WholePart(kept: bool, cr: Unit, lf: Unit, after: seq<Unit>): string {
    (if kept then "\n" else "") + Chars(Normal(after, Loosened([cr, lf])))
  }

  lemma LineText(b: seq<Unit>, ending: seq<Unit>, rest: seq<Unit>)
    requires ending != []
    ensures Chars(Emit(b, ending) + rest)
            == (if Survives(b, ending) then Chars(TrimLoose(b)) + Chars(ending) else "") + Chars(rest)
  {
    CharsConcat(Emit(b, ending), rest);
    CharsOfEmit(b, ending);
  }

  /** What is written of the line up to its carriage return. */
  function Front(b: seq<Unit>, cr: Unit): string {
    if Survives(b, [cr]) then Chars(TrimLoose(b)) + "\r" else ""
  }

  lemma CutText(b: seq<Unit>, cr: Unit, spaces: seq<Unit>, lf: Unit, after: seq<Unit>)
    requires cr.ch == '\r' && lf.ch == '\n' && AllLoose(spaces)
    ensures Chars(Emit(b, [cr]) + (Emit(spaces, [lf]) + Normal(after, Loosened([lf])))) == Front(b, cr) + CutPart(lf, after)
  {
    SpacesTrimAway(spaces);
    EndingChars(cr, lf);
    EndingChars(lf, lf);
    LineText(spaces, [lf], Normal(after, Loosened([lf])));
    LineText(b, [cr], Emit(spaces, [lf]) + Normal(after, Loosened([lf])));
  }

  lemma WholeText(b: seq<Unit>, cr: Unit, lf: Unit, after: seq<Unit>)
    requires cr.ch == '\r' && lf.ch == '\n'
    ensures Chars(Emit(b, [cr, lf]) + Normal(after, Loosened([cr, lf])))
            == Front(b, cr) + WholePart(Survives(b, [cr]), cr, lf, after)
  {
    var two := Chars(Normal(after, Loosened([cr, lf])));
    EndingChars(cr, lf);
    LineText(b, [cr, lf], Normal(after, Loosened([cr, lf])));
    Regroup(Chars(TrimLoose(b)), "\r", "\n");
    Regroup(Chars(TrimLoose(b)) + "\r", "\n", two);
  }

  lemma RepeatedEndingDiffers(feed: string, whole: string, t: string, one: string, two: string)
    requires |feed| <= 1 && |whole| <= 1 && t != "" && (feed != "" ==> feed[0] != t[0]) && |one| < |two|
    ensures feed + (t + one) != whole + (t + two)
  {
    if |feed| == 1 && whole == "" {
      assert (feed + (t + one))[0] == feed[0] && (whole + (t + two))[0] == t[0];
    } else {
      assert |feed + (t + one)| < |whole + (t + two)|;
    }
  }

  lemma TrimmedText(after: seq<Unit>)
    requires RepeatsEnding(after)
    ensures Chars(TrimLoose(after)) != "" && Chars(TrimLoose(after))[0] != '\n'
  {
    assert TrimLoose(after)[0] == after[0] && !IsEnd(after[0]);
  }

  lemma PartsWithRepeatedEnding(kept: bool, cr: Unit, lf: Unit, after: seq<Unit>)
    requires cr.ch == '\r' && lf.ch == '\n' && RepeatsEnding(after)
    ensures CutPart(lf, after) != WholePart(kept, cr, lf, after)
  {
    var t, one, two := TrimLoose(after), Loosened([lf]), Loosened([cr, lf]);
    LastEndingMatters(after, one, []);
    LastEndingMatters(after, two, []);
    CharsConcat(t, one);
    CharsConcat(t, two);
    TrimmedText(after);
    RepeatedEndingDiffers(if lf.protected then "\n" else "", if kept then "\n" else "", Chars(t), Chars(one), Chars(two));
  }

  lemma PartsDiffer(kept: bool, cr: Unit, lf: Unit, after: seq<Unit>)
    requires cr.ch == '\r' && lf.ch == '\n'
    ensures CutPart(lf, after) == WholePart(kept, cr, lf, after) <==> kept == lf.protected && !RepeatsEnding(after)
  {
    if RepeatsEnding(after) {
      PartsWithRepeatedEnding(kept, cr, lf, after);
    } else {
      LastEndingMatters(after, Loosened([lf]), Loosened([cr, lf]));
      CancelBack(if lf.protected then "\n" else "", if kept then "\n" else "", Chars(Normal(after, Loosened([lf]))));
    }
  }

  lemma CancelFront(a: string, x: string, y: string)
    ensures a + x == a + y <==> x == y
  {
    assert (a + x)[|a|..] == x && (a + y)[|a|..] == y;
  }

  lemma CancelBack(x: string, y: string, a: string)
    ensures x + a == y + a <==> x == y
  {
    if x + a == y + a {
      assert |x| == |y|;
      assert x == (x + a)[..|x|] && y == (y + a)[..|y|];
    }
  }

  /** On one line the two readings print alike exactly when the cut is not seen. */
  lemma CutLineIsSeen(b: seq<Unit>, cr: Unit, spaces: seq<Unit>, lf: Unit, after: seq<Unit>, last: seq<Unit>)
    requires NoEnds(b) && cr.ch == '\r' && lf.ch == '\n' && spaces != [] && AllLoose(spaces)
    ensures Chars(Normal(b + ([cr] + (spaces + ([lf] + after))), last)) == Chars(Normal(b + ([cr] + ([lf] + after)), last))
            <==> Survives(b, [cr]) == lf.protected && !RepeatsEnding(after)
  {
    CutLineReads(b, cr, spaces, lf, after, last);
    CutText(b, cr, spaces, lf, after);
    WholeText(b, cr, lf, after);
    PartsDiffer(Survives(b, [cr]), cr, lf, after);
    CancelFront(Front(b, cr), CutPart(lf, after), WholePart(Survives(b, [cr]), cr, lf, after));
  }

  /** The same behind any whole lines. */
  lemma {:induction false} CutIsSeenExactly(
    b: seq<Unit>, cr: Unit, spaces: seq<Unit>, lf: Unit, after: seq<Unit>, last: seq<Unit>)
    requires cr.ch == '\r' && lf.ch == '\n' && spaces != [] && AllLoose(spaces)
    ensures Chars(Normal(b + ([cr] + (spaces + ([lf] + after))), last)) == Chars(Normal(b + ([cr] + ([lf] + after)), last))
            <==> Survives(OpenLine(b), [cr]) == lf.protected && !RepeatsEnding(after)
    decreases |b|
  {
    if BodyLength(b) == |b| {
      CutLineIsSeen(b, cr, spaces, lf, after, last);
    } else {
      var l := FirstLine(b);
      var cut, whole := [cr] + (spaces + ([lf] + after)), [cr] + ([lf] + after);
      CutIsSeenExactly(l.rest, cr, spaces, lf, after, Loosened(l.ending));
      FirstLineWrites(b, cut, last);
      FirstLineWrites(b, whole, last);
      SameFirstLine(l, Normal(l.rest + cut, Loosened(l.ending)), Normal(l.rest + whole, Loosened(l.ending)));
    }
  }

  lemma SameFirstLine(l: Line, x: seq<Unit>, y: seq<Unit>)
    requires l.ending != []
    ensures Chars(Emit(l.body, l.ending) + x) == Chars(Emit(l.body, l.ending) + y) <==> Chars(x) == Chars(y)
  {
    CharsConcat(Emit(l.body, l.ending), x);
    CharsConcat(Emit(l.body, l.ending), y);
    CancelFront(Chars(Emit(l.body, l.ending)), Chars(x), Chars(y));
  }

  // ---- Every line ending ------------------------------------------------------------------------------

  /** White space put in front of a line ending, wherever it is put, is seen in exactly one case: it cuts a line
      feed off its carriage return, and the two are then not kept or dropped alike or the ending is repeated. */
  lemma SpacesBeforeEndingVanish(
    before: seq<Unit>, spaces: seq<Unit>, ending: Unit, after: seq<Unit>, last: seq<Unit>)
    requires IsEnd(ending) && AllLoose(spaces)
    ensures Chars(Normal(before + spaces + [ending] + after, last)) == Chars(Normal(before + [ending] + after, last))
            <==> !(spaces != [] && CutsPair(before, ending) && CutIsSeen(before, ending, after))
  {
    var tail := [ending] + after;
    Regroup(before + spaces, [ending], after);
    Regroup(before, [ending], after);
    if spaces == [] {
      assert before + [] == before;
    } else if CutsPair(before, ending) {
      var k := |before| - 1;
      assert before == before[..k] + [before[k]];
      Regroup(before[..k], [before[k]], tail);
      Regroup(before, spaces, tail);
      Regroup(before[..k], [before[k]], spaces + tail);
      CutIsSeenExactly(before[..k], before[k], spaces, ending, after, last);
    } else {
      Regroup(before, spaces, tail);
      SpacesInFrontVanish(before, spaces, tail, last);
    }
  }

  lemma NothingIsNormal(last: seq<Unit>)
    ensures Normal([], last) == [] && Chars([]) == ""
  {
  }

  /** A line and its two readings, with nothing behind it. */
  lemma LoneLine(b: seq<Unit>, cr: Unit, sp: Unit, lf: Unit)
    requires NoEnds(b) && cr.ch == '\r' && lf.ch == '\n' && IsLoose(sp) && !lf.protected
    ensures Chars(Normal(b + [cr] + [sp] + [lf], [])) == Front(b, cr) + CutPart(lf, [])
    ensures Chars(Normal(b + [cr] + [lf], [])) == Front(b, cr) + WholePart(Survives(b, [cr]), cr, lf, [])
  {
    CutLineReads(b, cr, [sp], lf, [], []);
    CutText(b, cr, [sp], lf, []);
    WholeText(b, cr, lf, []);
    LoneTexts(b, cr, sp, lf);
  }

  lemma LoneParts(kept: bool, cr: Unit, lf: Unit)
    requires !lf.protected
    ensures CutPart(lf, []) == "" && WholePart(kept, cr, lf, []) == if kept then "\n" else ""
  {
    NothingIsNormal(Loosened([lf]));
    NothingIsNormal(Loosened([cr, lf]));
  }

  lemma LoneTexts(b: seq<Unit>, cr: Unit, sp: Unit, lf: Unit)
    ensures b + ([cr] + ([sp] + ([lf] + []))) == b + [cr] + [sp] + [lf]
    ensures b + ([cr] + ([lf] + [])) == b + [cr] + [lf]
  {
  }

  lemma LetterFront()
    ensures Survives([Unit('a', false)], [Unit('\r', false)]) && Front([Unit('a', false)], Unit('\r', false)) == "a\r"
  {
    var a := [Unit('a', false)];
    assert TrimLoose(a) == a && Chars(a) == "a";
  }

  /** A line with text shows the cut: "a\r \n" prints as "a\r", not as "a\r\n". */
  lemma CutPairIsSeen()
    ensures
      var a, cr, sp, lf := Unit('a', false), Unit('\r', false), Unit(' ', false), Unit('\n', false);
      && Chars(Normal([a] + [cr] + [sp] + [lf], [])) == "a\r"
      && Chars(Normal([a] + [cr] + [lf], [])) == "a\r\n"
  {
    LoneLine([Unit('a', false)], Unit('\r', false), Unit(' ', false), Unit('\n', false));
    LetterFront();
    LoneParts(true, Unit('\r', false), Unit('\n', false));
  }

  /** A blank line does not. */
  lemma BlankCutIsNotSeen()
    ensures
      var cr, sp, lf := Unit('\r', false), Unit(' ', false), Unit('\n', false);
      Chars(Normal([] + [cr] + [sp] + [lf], [])) == "" == Chars(Normal([] + [cr] + [lf], []))
  {
    LoneLine([], Unit('\r', false), Unit(' ', false), Unit('\n', false));
    LoneParts(false, Unit('\r', false), Unit('\n', false));
  }
}
