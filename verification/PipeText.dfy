/** Text fields joined by '|', and ASCII lower case. */
module PipeText {

  predicate PipeFree(s: string) {
    '|' !in s
  }

  predicate AllPipeFree(fields: seq<string>) {
    forall i :: 0 <= i < |fields| ==> PipeFree(fields[i])
  }

  function Join(fields: seq<string>): string
    requires fields != []
  {
    if |fields| == 1 then fields[0] else fields[0] + "|" + Join(fields[1..])
  }

  lemma {:induction false} JoinConcat(a: seq<string>, b: seq<string>)
    requires a != [] && b != []
    ensures Join(a + b) == Join(a) + "|" + Join(b)
  {
    if |a| == 1 {
      assert (a + b)[1..] == b;
    } else {
      JoinConcat(a[1..], b);
      assert (a + b)[1..] == a[1..] + b;
    }
  }

  /** Text continued by more fields, if there are any. */
  function Continued(text: string, fields: seq<string>): string {
    if fields == [] then text else text + "|" + Join(fields)
  }

  lemma ContinuedIsJoin(a: seq<string>, b: seq<string>)
    requires a != []
    ensures Continued(Join(a), b) == Join(a + b)
  {
    if b == [] {
      assert a + b == a;
    } else {
      JoinConcat(a, b);
    }
  }

  lemma FirstFieldIsFixed(x: string, rest: string, y: string, rest': string)
    requires PipeFree(x) && PipeFree(y) && x + "|" + rest == y + "|" + rest'
    ensures x == y && rest == rest'
  {
    var s := x + "|" + rest;
    assert s[|x|] == '|' && s[|y|] == '|';
    assert s[..|x|] == x && s[|x| + 1..] == rest && s[|y| + 1..] == rest';
  }

  /** Joined text has one reading: the number of fields and every field. */
  lemma {:induction false} JoinInjective(a: seq<string>, b: seq<string>)
    requires a != [] && b != [] && AllPipeFree(a) && AllPipeFree(b) && Join(a) == Join(b)
    ensures a == b
  {
    if |a| > 1 && |b| > 1 {
      FirstFieldIsFixed(a[0], Join(a[1..]), b[0], Join(b[1..]));
      JoinInjective(a[1..], b[1..]);
    }
  }

  function LowerChar(c: char): char {
    if 'A' <= c <= 'Z' then (c as int + 32) as char else c
  }

  function Lower(s: string): (r: string)
    ensures |r| == |s| && forall i :: 0 <= i < |s| ==> r[i] == LowerChar(s[i])
  {
    if s == "" then "" else Lower(s[..|s| - 1]) + [LowerChar(s[|s| - 1])]
  }

  /** The same letter, one of them a capital. */
  predicate OtherCase(a: char, b: char) {
    'A' <= a <= 'Z' && b as int == a as int - 'A' as int + 'a' as int
  }

  /** Equal but for case. */
  predicate SameLetter(a: char, b: char) {
    a == b || OtherCase(a, b) || OtherCase(b, a)
  }

  lemma OneCase(a: char, b: char)
    ensures LowerChar(a) == LowerChar(b) <==> SameLetter(a, b)
  {
  }

  /** Lower case makes two texts equal exactly when they differ in nothing but the case of letters. */
  lemma LowerFoldsCase(a: string, b: string)
    ensures Lower(a) == Lower(b) <==> |a| == |b| && forall i :: 0 <= i < |a| ==> SameLetter(a[i], b[i])
  {
    if Lower(a) == Lower(b) {
      forall i | 0 <= i < |a| ensures SameLetter(a[i], b[i]) {
        assert Lower(a)[i] == Lower(b)[i];
        OneCase(a[i], b[i]);
      }
    }
    if |a| == |b| && forall i :: 0 <= i < |a| ==> SameLetter(a[i], b[i]) {
      forall i | 0 <= i < |a| ensures Lower(a)[i] == Lower(b)[i] {
        OneCase(a[i], b[i]);
      }
    }
  }

  predicate IsHex(s: string) {
    forall i :: 0 <= i < |s| ==> '0' <= s[i] <= '9' || 'a' <= s[i] <= 'f' || 'A' <= s[i] <= 'F'
  }
}
