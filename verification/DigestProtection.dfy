/** What becomes of protected characters. */
module DigestProtection {
  import opened DigestPieces
  import opened DigestStability

  function ProtectedOf(units: seq<Unit>): string {
    if units == [] then ""
    else ProtectedOf(units[..|units| - 1]) + if units[|units| - 1].protected then [units[|units| - 1].ch] else ""
  }

  lemma {:induction false} ProtectedConcat(a: seq<Unit>, b: seq<Unit>)
    ensures ProtectedOf(a + b) == ProtectedOf(a) + ProtectedOf(b)
    decreases |b|
  {
    if b == [] {
      assert a + b == a;
    } else {
      ProtectedConcat(a, b[..|b| - 1]);
      assert (a + b)[..|a + b| - 1] == a + b[..|b| - 1];
    }
  }

  lemma {:induction false} TrimKeepsProtected(body: seq<Unit>)
    ensures ProtectedOf(TrimLoose(body)) == ProtectedOf(body)
  {
    if body != [] && IsLoose(body[|body| - 1]) {
      TrimKeepsProtected(body[..|body| - 1]);
    }
  }

  lemma {:induction false} NoneProtected(units: seq<Unit>)
    requires Unprotected(units)
    ensures ProtectedOf(units) == ""
  {
    if units != [] {
      NoneProtected(units[..|units| - 1]);
    }
  }

  /** The protected characters dropped with a line: the line feed of a blank line whose carriage return
      is not protected. */
  function Dropped(body: seq<Unit>, ending: seq<Unit>): nat
    requires ending != []
  {
    if !Survives(body, ending) && |ending| == 2 && ending[1].protected then 1 else 0
  }

  function Lost(units: seq<Unit>): nat
    decreases |units|
  {
    if BodyLength(units) == |units| then 0
    else
      var l := FirstLine(units);
      Dropped(l.body, l.ending) + Lost(l.rest)
  }

  lemma EndingProtected(ending: seq<Unit>)
    requires IsEnding(ending) && !ending[0].protected
    ensures |ProtectedOf(ending)| == if |ending| == 2 && ending[1].protected then 1 else 0
  {
    if |ending| == 2 {
      assert ending[..1] == [ending[0]] && [ending[0]][..0] == [];
    } else {
      assert ending[..0] == [];
    }
  }

  lemma {:induction false} ProtectedAccount(units: seq<Unit>, last: seq<Unit>)
    requires Unprotected(last)
    ensures |ProtectedOf(Normal(units, last))| + Lost(units) == |ProtectedOf(units)|
    ensures Lost(units) == 0 ==> ProtectedOf(Normal(units, last)) == ProtectedOf(units)
    decreases |units|
  {
    if BodyLength(units) == |units| {
      var kept := TrimLoose(units);
      TrimKeepsProtected(units);
      NoneProtected(last);
      ProtectedConcat(kept, if kept != [] then last else []);
    } else {
      var l := FirstLine(units);
      EndingOf(units);
      ProtectedAccount(l.rest, Loosened(l.ending));
      LineKeepsAccount(l.body, l.ending, l.rest, Normal(l.rest, Loosened(l.ending)));
      PartsJoin(units);
    }
  }

  /** What one line contributes to the account. */
  lemma LineKeepsAccount(body: seq<Unit>, ending: seq<Unit>, rest: seq<Unit>, tail: seq<Unit>)
    requires IsEnding(ending)
    ensures
      var out := Emit(body, ending) + tail;
      var whole := body + ending + rest;
      && |ProtectedOf(out)| + Dropped(body, ending) + |ProtectedOf(rest)| == |ProtectedOf(whole)| + |ProtectedOf(tail)|
      && (Dropped(body, ending) == 0 && ProtectedOf(tail) == ProtectedOf(rest) ==> ProtectedOf(out) == ProtectedOf(whole))
  {
    TrimKeepsProtected(body);
    LineAccount(body, ending, rest);
    if Survives(body, ending) {
      LineAccount(TrimLoose(body), ending, tail);
    } else {
      assert [] + tail == tail && ProtectedOf([]) == "";
      EndingProtected(ending);
    }
  }

  lemma LineAccount(body: seq<Unit>, ending: seq<Unit>, rest: seq<Unit>)
    ensures ProtectedOf(body + ending + rest) == ProtectedOf(body) + ProtectedOf(ending) + ProtectedOf(rest)
  {
    ProtectedConcat(body + ending, rest);
    ProtectedConcat(body, ending);
  }

  /** Every protected character is kept, in order, exactly when no blank line ends in an unprotected
      carriage return directly followed by a protected line feed. */
  lemma ProtectedIsKeptExactly(units: seq<Unit>)
    ensures ProtectedOf(Normal(units, [])) == ProtectedOf(units) <==> Lost(units) == 0
  {
    ProtectedAccount(units, []);
  }

  /** An unprotected carriage return right before a protected line feed. */
  ghost predicate Crosses(units: seq<Unit>, i: nat)
    requires i + 1 < |units|
  {
    units[i].ch == '\r' && !units[i].protected && units[i + 1].ch == '\n' && units[i + 1].protected
  }

  /** An empty line ended by such a pair shows the loss: its protected line feed is gone. */
  lemma ProtectedLineFeedIsLost()
    ensures ProtectedOf([Unit('\r', false), Unit('\n', true)]) == "\n"
    ensures Normal([Unit('\r', false), Unit('\n', true)], []) == []
  {
    var cr, lf := Unit('\r', false), Unit('\n', true);
    assert [cr, lf][..1] == [cr] && [cr][..0] == [];
    var l := FirstLine([cr, lf]);
    assert l == Line([], [cr, lf], []);
  }

  ghost predicate NoCrossing(units: seq<Unit>) {
    forall i :: 0 <= i < |units| - 1 ==> !Crosses(units, i)
  }

  /** In particular nothing is lost when no protected piece starts with a line feed right after an
      unprotected carriage return. */
  lemma {:induction false} NothingLostWithoutCrossing(units: seq<Unit>)
    requires NoCrossing(units)
    ensures Lost(units) == 0
    decreases |units|
  {
    if BodyLength(units) < |units| {
      NoCrossingInParts(units);
      EndingOf(units);
      var ending := FirstLine(units).ending;
      assert |ending| == 2 ==> !Crosses(ending, 0);
      NothingLostWithoutCrossing(FirstLine(units).rest);
    }
  }

  lemma NoCrossingInPart(units: seq<Unit>, a: nat, b: nat)
    requires NoCrossing(units) && a <= b <= |units|
    ensures NoCrossing(units[a..b])
  {
    forall i | 0 <= i < b - a - 1 ensures !Crosses(units[a..b], i) {
      assert !Crosses(units, a + i);
    }
  }

  lemma NoCrossingInParts(units: seq<Unit>)
    requires NoCrossing(units) && BodyLength(units) < |units|
    ensures NoCrossing(FirstLine(units).rest) && NoCrossing(FirstLine(units).ending)
  {
    var k := BodyLength(units);
    var next := k + EndLength(units, k);
    NoCrossingInPart(units, next, |units|);
    NoCrossingInPart(units, k, next);
    assert units[next..|units|] == units[next..];
  }
}
