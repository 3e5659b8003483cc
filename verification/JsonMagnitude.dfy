/**
 How large a number an accepted literal can name. The scanner bounds the
 exponent and not the digits before it, so the exponent bound keeps a literal
 within a range only together with a bound on its integer digits.
 */
module JsonMagnitude {
  import opened Json
  import opened JsonNumbers

  // ---- Powers of ten ------------------------------------------------------------

  function Power(k: nat): (r: nat)
    ensures r > 0
  {
    if k == 0 then 1 else 10 * Power(k - 1)
  }

  /** v with its decimal point moved x places to the right. */
  ghost function Shift(v: real, x: int): real
    decreases if x < 0 then -x else x
  {
    if x == 0 then v else if x > 0 then 10.0 * Shift(v, x - 1) else Shift(v, x + 1) / 10.0
  }

  ghost function Ten(k: int): real {
    Shift(1.0, k)
  }

  lemma {:induction false} ShiftOrder(v: real, w: real, x: int)
    ensures v < w <==> Shift(v, x) < Shift(w, x)
    decreases if x < 0 then -x else x
  {
    if x > 0 {
      ShiftOrder(v, w, x - 1);
    } else if x < 0 {
      ShiftOrder(v, w, x + 1);
    }
  }

  lemma {:induction false} ShiftTwice(v: real, a: int, b: int)
    ensures Shift(Shift(v, a), b) == Shift(v, a + b)
    decreases if b < 0 then -b else b
  {
    if b > 0 {
      ShiftTwice(v, a, b - 1);
      assert Shift(v, a + b) == 10.0 * Shift(v, a + (b - 1));
    } else if b < 0 {
      ShiftTwice(v, a, b + 1);
      assert Shift(v, a + b) == Shift(v, a + (b + 1)) / 10.0;
    }
  }

  lemma {:induction false} TenIsPower(k: nat)
    ensures Ten(k) == Power(k) as real
  {
    if k > 0 {
      TenIsPower(k - 1);
    }
  }

  lemma {:induction false} TenGrows(a: int, b: int)
    requires a <= b
    ensures 0.0 < Ten(a) <= Ten(b)
    decreases b - a
  {
    if a < b {
      TenGrows(a, b - 1);
      assert Ten(b) == 10.0 * Ten(b - 1);
    } else {
      ShiftOrder(0.0, 1.0, a);
      ShiftZero(a);
    }
  }

  lemma {:induction false} ShiftZero(x: int)
    ensures Shift(0.0, x) == 0.0
    decreases if x < 0 then -x else x
  {
    if x > 0 {
      ShiftZero(x - 1);
    } else if x < 0 {
      ShiftZero(x + 1);
    }
  }

  // ---- The number a literal names -----------------------------------------------

  /** The digits after the point. */
  ghost function FractionDigits(f: string): string {
    if f == [] then [] else f[1..]
  }

  ghost function Exponent(e: string): int {
    if e == [] then 0
    else if At(e[1..], '-') then 0 - DecimalValue(e[2..])
    else DecimalValue(Unsigned(e[1..], true))
  }

  /** The number without its sign: all its digits as an integer, scaled by the exponent less the fraction digits. */
  ghost function Magnitude(i: string, f: string, e: string): real {
    Shift(DecimalValue(Unsigned(i, false) + FractionDigits(f)) as real, Exponent(e) - |FractionDigits(f)|)
  }

  lemma ExponentBounded(e: string)
    requires IsExp(e)
    ensures -MAX_DECIMAL_EXPONENT <= Exponent(e) <= MAX_DECIMAL_EXPONENT
  {
    if e != [] {
      assert At(e[1..], '-') ==> e[1..][1..] == e[2..];
    }
  }

  /** n digits name a number below the n-th power of ten, and not below the one before unless they begin with a zero. */
  lemma {:induction false} DigitsBound(s: string)
    requires s != [] && AllDigits(s)
    ensures DecimalValue(s) < Power(|s|)
    ensures DecimalValue(s) >= Power(|s| - 1) <==> s[0] != '0'
  {
    if |s| == 1 {
      assert s[..0] == [] && Power(1) == 10 * Power(0);
    } else {
      DigitsBound(s[..|s| - 1]);
    }
  }

  /** Comparing with a power of ten is the same after a shift. */
  lemma ShiftedOrder(v: real, c: nat, x: int)
    ensures v < Ten(c) <==> Shift(v, x) < Ten(c + x)
  {
    ShiftOrder(v, Ten(c), x);
    ShiftTwice(1.0, c, x);
  }

  /** A literal lies in the decade that its integer digits and its exponent name, or below it when it begins with a zero. */
  lemma Decade(i: string, f: string, e: string)
    requires IsInt(i) && IsFrac(f)
    ensures var d, top := Unsigned(i, false), |Unsigned(i, false)| + Exponent(e);
            && Magnitude(i, f, e) < Ten(top)
            && (Magnitude(i, f, e) >= Ten(top - 1) <==> d[0] != '0')
  {
    var d, g := Unsigned(i, false), FractionDigits(f);
    var s, x := d + g, Exponent(e) - |g|;
    DigitsBound(s);
    TenIsPower(|s|);
    TenIsPower(|s| - 1);
    ShiftedOrder(DecimalValue(s) as real, |s|, x);
    ShiftedOrder(DecimalValue(s) as real, |s| - 1, x);
    assert |s| + x == |d| + Exponent(e);
    assert s[0] == d[0];
  }

  /**
   The bound, exact in the digits: from the largest exponent on, a literal
   reaches a power of ten exactly when its integer does not begin with a zero
   and its integer digits and exponent together exceed that power.
   */
  lemma ReachesIff(i: string, f: string, e: string, k: nat)
    requires IsInt(i) && IsFrac(f) && IsExp(e) && k >= MAX_DECIMAL_EXPONENT
    ensures Magnitude(i, f, e) >= Ten(k) <==> Unsigned(i, false)[0] != '0' && |Unsigned(i, false)| + Exponent(e) > k
  {
    var d, top := Unsigned(i, false), |Unsigned(i, false)| + Exponent(e);
    ExponentBounded(e);
    Decade(i, f, e);
    if d[0] == '0' {
      TenGrows(top - 1, k);
    } else if top > k {
      TenGrows(k, top - 1);
    } else {
      TenGrows(top, k);
    }
  }

  // ---- The largest double --------------------------------------------------------

  /** What lies between the decimal exponents 308 and 309, as the largest finite double and the first number rounded past it do. */
  ghost predicate DoubleLimit(limit: real) {
    Ten(308) < limit <= Ten(309)
  }

  /** Digits and exponent of 308 together keep a literal finite; of 310 they do not, unless it begins with a zero. */
  lemma FiniteByDigits(i: string, f: string, e: string, limit: real)
    requires IsInt(i) && IsFrac(f) && IsExp(e) && DoubleLimit(limit)
    ensures |Unsigned(i, false)| + Exponent(e) <= 308 ==> Magnitude(i, f, e) < limit
    ensures Unsigned(i, false)[0] == '0' ==> Magnitude(i, f, e) < limit
    ensures Unsigned(i, false)[0] != '0' && |Unsigned(i, false)| + Exponent(e) >= 310 ==> Magnitude(i, f, e) >= limit
  {
    ReachesIff(i, f, e, 308);
    ReachesIff(i, f, e, 309);
  }

  /** The integer literal of a power of ten. */
  ghost function OneAndZeros(n: nat): string {
    if n == 0 then "1" else OneAndZeros(n - 1) + "0"
  }

  lemma {:induction false} OneAndZerosIs(n: nat)
    ensures var s := OneAndZeros(n); |s| == n + 1 && AllDigits(s) && s[0] == '1' && DecimalValue(s) == Power(n)
  {
    var s := OneAndZeros(n);
    if n > 0 {
      OneAndZerosIs(n - 1);
      assert s[..|s| - 1] == OneAndZeros(n - 1);
    } else {
      assert s[..0] == [];
    }
  }

  /** Without an exponent there is no bound at all: the scanner takes the literal of every power of ten whole. */
  lemma EveryPowerIsAccepted(n: nat)
    ensures NumberAt(OneAndZeros(n)) == Ok(Number(OneAndZeros(n)), [])
    ensures Magnitude(OneAndZeros(n), [], []) == Ten(n)
  {
    var s := OneAndZeros(n);
    OneAndZerosIs(n);
    assert IsInt(s) && IsFrac([]) && IsExp([]);
    assert s == s + ([] + []);
    NumberOf(s, []);
    assert s + [] == s;
    TenIsPower(n);
  }

  lemma LargestExponent(e: string)
    requires e == "e300"
    ensures IsExp(e) && Exponent(e) == MAX_DECIMAL_EXPONENT
  {
    var d := e[1..];
    assert d == "300" && Unsigned(d, true) == d;
    var tens := d[..2];
    assert tens == "30" && tens[..1] == "3" && tens[..1][..0] == "";
    assert DecimalValue(tens[..1]) == 3 && DecimalValue(tens) == 30;
  }

  /** Ten digits are enough with the largest exponent: accepted, and past the largest double. */
  lemma TenDigitsOverflow(i: string, e: string, limit: real)
    requires i == OneAndZeros(9) && e == "e300" && DoubleLimit(limit)
    ensures NumberAt(i + e) == Ok(Number(i + e), [])
    ensures Magnitude(i, [], e) >= limit
  {
    OneAndZerosIs(9);
    LargestExponent(e);
    assert IsInt(i) && IsFrac([]);
    assert i + e == i + ([] + e);
    NumberOf(i + e, []);
    assert (i + e) + [] == i + e;
    FiniteByDigits(i, [], e, limit);
  }
}
