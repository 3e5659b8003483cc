/**
 The number scanner accepts exactly the literals of section 6 of RFC 8259 whose
 exponent digits do not exceed the bound, and takes them whole.
 */
module JsonNumbers {
  import opened Sequences
  import opened Json

  ghost predicate AllDigits(s: string) {
    forall i :: 0 <= i < |s| ==> IsDigit(s[i])
  }

  /** The text after an optional sign. */
  ghost function Unsigned(s: string, plus: bool): string {
    if At(s, '-') || (plus && At(s, '+')) then s[1..] else s
  }

  /** int: an optional minus, then zero or a digit string that does not start with it. */
  ghost predicate IsInt(p: string) {
    var d := Unsigned(p, false);
    d == "0" || (d != [] && AllDigits(d) && d[0] != '0')
  }

  /** frac, possibly absent. */
  ghost predicate IsFrac(p: string) {
    p == [] || (p[0] == '.' && |p| > 1 && AllDigits(p[1..]))
  }

  /** exp, possibly absent, its digits within the bound. */
  ghost predicate IsExp(p: string) {
    p == [] ||
    ((p[0] == 'e' || p[0] == 'E') &&
     IsExpDigits(Unsigned(p[1..], true)))
  }

  /** number = int [frac] [exp]. */
  ghost predicate IsNumber(literal: string) {
    exists i, f, e :: literal == i + (f + e) && IsInt(i) && IsFrac(f) && IsExp(e)
  }

  /** What can follow a number inside a document. */
  ghost predicate Ends(q: string) {
    q == [] || (!IsDigit(q[0]) && q[0] != '.' && q[0] != 'e' && q[0] != 'E')
  }

  // ---- Digits -------------------------------------------------------------------

  lemma {:induction false} DigitsTaken(s: string) returns (p: string)
    ensures s == p + Digits(s) && AllDigits(p)
    ensures s != [] && IsDigit(s[0]) ==> p != [] && p[0] == s[0]
    ensures |p| == |s| - |Digits(s)|
  {
    p := [];
    if s != [] && IsDigit(s[0]) {
      var rest := DigitsTaken(s[1..]);
      p := [s[0]] + rest;
      Associate([s[0]], rest, Digits(s));
    }
  }

  lemma {:induction false} DigitsOf(p: string, q: string)
    requires AllDigits(p) && (q == [] || !IsDigit(q[0]))
    ensures Digits(p + q) == q
  {
    if p == [] {
      assert p + q == q;
    } else {
      DigitsOf(p[1..], q);
      assert (p + q)[1..] == p[1..] + q;
    }
  }

  // ---- The three parts ------------------------------------------------------------

  lemma IntegerTaken(s: string) returns (p: string)
    requires IntegerPart(s).Ok?
    ensures s == p + IntegerPart(s).rest && IsInt(p)
  {
    var t := if At(s, '-') then s[1..] else s;
    var sign := if At(s, '-') then "-" else "";
    assert s == sign + t;
    var d := "0";
    if t[0] == '0' {
      assert t == d + t[1..];
    } else {
      d := DigitsTaken(t);
    }
    p := sign + d;
    Associate(sign, d, IntegerPart(s).rest);
    assert d[0] == t[0];
    assert Unsigned(p, false) == d;
  }

  lemma IntegerOf(p: string, q: string)
    requires IsInt(p) && (q == [] || !IsDigit(q[0]))
    ensures IntegerPart(p + q) == Ok((), q)
    ensures p != [] && (p[0] == '-' || IsDigit(p[0]))
  {
    var d := Unsigned(p, false);
    var s := p + q;
    assert p != [] && s[0] == p[0];
    var t := if At(s, '-') then s[1..] else s;
    assert t == d + q && t[0] == d[0];
    if d == "0" {
      assert t[1..] == q;
    } else {
      DigitsOf(d, q);
    }
  }

  lemma FractionTaken(s: string) returns (p: string)
    requires FractionPart(s).Ok?
    ensures s == p + FractionPart(s).rest && IsFrac(p)
  {
    p := [];
    if At(s, '.') {
      var d := DigitsTaken(s[1..]);
      p := "." + d;
      Associate(".", d, FractionPart(s).rest);
      assert p[1..] == d;
    }
  }

  lemma FractionOf(p: string, q: string)
    requires IsFrac(p) && (q == [] || (!IsDigit(q[0]) && q[0] != '.'))
    ensures FractionPart(p + q) == Ok((), q)
  {
    if p == [] {
      assert p + q == q;
    } else {
      assert (p + q)[1..] == p[1..] + q;
      DigitsOf(p[1..], q);
    }
  }

  ghost predicate IsExpDigits(d: string) {
    d != [] && AllDigits(d) && DecimalValue(d) <= MAX_DECIMAL_EXPONENT
  }

  lemma ExponentDigitsTaken(u: string) returns (d: string)
    requires ExponentDigits(u).Ok?
    ensures u == d + ExponentDigits(u).rest && IsExpDigits(d) && d[0] == u[0]
  {
    d := DigitsTaken(u);
    assert u[..|u| - |Digits(u)|] == d;
  }

  lemma ExponentDigitsOf(d: string, q: string)
    requires IsExpDigits(d) && Ends(q)
    ensures ExponentDigits(d + q) == Ok((), q)
  {
    DigitsOf(d, q);
    assert (d + q)[0] == d[0];
    assert (d + q)[..|d|] == d;
  }

  lemma ExponentTaken(s: string) returns (p: string)
    requires ExponentPart(s).Ok?
    ensures s == p + ExponentPart(s).rest && IsExp(p)
  {
    p := [];
    if At(s, 'e') || At(s, 'E') {
      var t, rest := s[1..], ExponentPart(s).rest;
      if At(t, '+') || At(t, '-') {
        var d := ExponentDigitsTaken(t[1..]);
        p := [s[0], t[0]] + d;
        assert p[1..] == [t[0]] + d && Unsigned([t[0]] + d, true) == d;
        assert s == [s[0], t[0]] + t[1..];
        Associate([s[0], t[0]], d, rest);
      } else {
        var d := ExponentDigitsTaken(t);
        p := [s[0]] + d;
        assert p[1..] == d && Unsigned(d, true) == d;
        Associate([s[0]], d, rest);
      }
    }
  }

  lemma ExponentOf(p: string, q: string)
    requires IsExp(p) && Ends(q)
    ensures ExponentPart(p + q) == Ok((), q)
  {
    if p == [] {
      assert p + q == q;
    } else {
      var tail := p[1..];
      assert (p + q)[0] == p[0] && (p + q)[1..] == tail + q;
      SignedOf(tail, q);
    }
  }

  lemma SignedOf(tail: string, q: string)
    requires IsExpDigits(Unsigned(tail, true)) && Ends(q)
    ensures var t := tail + q; ExponentDigits(if At(t, '+') || At(t, '-') then t[1..] else t) == Ok((), q)
  {
    ExponentDigitsOf(Unsigned(tail, true), q);
    assert (tail + q)[0] == tail[0];
    if At(tail, '+') || At(tail, '-') {
      assert (tail + q)[1..] == tail[1..] + q;
    }
  }

  // ---- The whole literal ------------------------------------------------------------

  /** Before anything that can follow it, a literal is taken whole. */
  lemma NumberOf(literal: string, q: string)
    requires IsNumber(literal) && Ends(q)
    ensures NumberAt(literal + q) == Ok(Number(literal), q)
    ensures literal != [] && (literal[0] == '-' || IsDigit(literal[0]))
  {
    var i, f, e :| literal == i + (f + e) && IsInt(i) && IsFrac(f) && IsExp(e);
    ExponentOf(e, q);
    FractionOf(f, e + q);
    IntegerOf(i, f + (e + q));
    Associate(f, e, q);
    Associate(i, f + e, q);
    assert literal + q == i + (f + (e + q));
    assert (literal + q)[..|literal|] == literal;
  }

  /** What the scanner takes is a literal of the grammar. */
  lemma NumberTaken(s: string) returns (literal: string)
    requires NumberAt(s).Ok?
    ensures s == literal + NumberAt(s).rest && IsNumber(literal)
    ensures NumberAt(s).value == Number(literal)
  {
    var s1 := IntegerPart(s).rest;
    var s2 := FractionPart(s1).rest;
    var s3 := ExponentPart(s2).rest;
    var i := IntegerTaken(s);
    var f := FractionTaken(s1);
    var e := ExponentTaken(s2);
    literal := i + (f + e);
    Associate(f, e, s3);
    Associate(i, f + e, s3);
    assert s[..|s| - |s3|] == literal;
  }
}
