/**
 The in-place radix-2 transform. The butterflies are proved against a
 recursive reading of each stage, and the last stage against the DFT sum.
 */
module Fft {
  import opened Ring
  import opened BitReversal

  /** X[k] = sum over j < n of x[j] * w^(j*k). */
  function DftSum<T(!new)>(R: Ring<T>, w: T, x: seq<T>, k: nat, n: nat): T
    requires n <= |x|
  {
    if n == 0 then R.zero else R.Add(DftSum(R, w, x, k, n - 1), R.Mul(x[n - 1], Pow(R, w, (n - 1) * k)))
  }

  function Dft<T(!new)>(R: Ring<T>, w: T, x: seq<T>): seq<T> {
    seq(|x|, k requires 0 <= k => DftSum(R, w, x, k, |x|))
  }

  /** The principal root the code computes for each block length. */
  datatype Roots<!T> = Roots(of: nat -> T) {
    function Of(length: nat): T { of(length) }
  }

  /** What the stages need of root(length) = exp(-2 pi i / length), for every length up to n. */
  ghost predicate HalvingRoots<T(!new)>(R: Ring<T>, root: Roots<T>, n: nat) {
    && root.Of(2) == R.Neg(R.one)
    && forall t: nat {:trigger Pow2(t)} :: 0 < t && 2 * Pow2(t) <= n ==>
         R.Mul(root.Of(2 * Pow2(t)), root.Of(2 * Pow2(t))) == root.Of(Pow2(t))
  }

  // ---- The sum as a polynomial value ----------------------------------

  ghost function Eval<T(!new)>(R: Ring<T>, x: seq<T>, z: T): T {
    if |x| == 0 then R.zero else R.Add(x[0], R.Mul(z, Eval(R, x[1..], z)))
  }

  lemma {:induction false} EvalAppend<T(!new)>(R: Ring<T>, x: seq<T>, a: T, z: T)
    requires IsCommutativeRing(R)
    ensures Eval(R, x + [a], z) == R.Add(Eval(R, x, z), R.Mul(a, Pow(R, z, |x|)))
  {
    if |x| == 0 {
      assert (x + [a])[1..] == [];
      MulZero(R, z);
      Unit(R, a);
      Swap(R, R.zero, a);
    } else {
      assert (x + [a])[1..] == x[1..] + [a];
      EvalAppend(R, x[1..], a, z);
      var e, p := Eval(R, x[1..], z), Pow(R, z, |x| - 1);
      Distribute(R, z, e, R.Mul(a, p));
      Assoc(R, x[0], R.Mul(z, e), R.Mul(z, R.Mul(a, p)));
      Swap(R, z, R.Mul(a, p));
      Assoc(R, a, p, z);
    }
  }

  lemma {:induction false} DftIsEval<T(!new)>(R: Ring<T>, w: T, x: seq<T>, k: nat, n: nat)
    requires IsCommutativeRing(R) && n <= |x|
    ensures DftSum(R, w, x, k, n) == Eval(R, x[..n], Pow(R, w, k))
  {
    if n > 0 {
      DftIsEval(R, w, x, k, n - 1);
      assert x[..n] == x[..n - 1] + [x[n - 1]];
      EvalAppend(R, x[..n - 1], x[n - 1], Pow(R, w, k));
      PowOfPow(R, w, k, n - 1);
      assert (n - 1) * k == k * (n - 1);
    }
  }

  ghost function Evens<T>(x: seq<T>): (r: seq<T>)
    ensures |r| == |x| / 2
  {
    seq(|x| / 2, i requires 0 <= i < |x| / 2 => x[2 * i])
  }

  ghost function Odds<T>(x: seq<T>): (r: seq<T>)
    ensures |r| == |x| / 2
  {
    seq(|x| / 2, i requires 0 <= i < |x| / 2 => x[2 * i + 1])
  }

  /** The decimation identity: a polynomial from its even and odd coefficients. */
  lemma {:induction false} EvalSplit<T(!new)>(R: Ring<T>, x: seq<T>, z: T)
    requires IsCommutativeRing(R) && |x| % 2 == 0
    ensures Eval(R, x, z) == R.Add(Eval(R, Evens(x), R.Mul(z, z)), R.Mul(z, Eval(R, Odds(x), R.Mul(z, z))))
  {
    var q := R.Mul(z, z);
    if |x| == 0 {
      MulZero(R, z);
      Unit(R, R.zero);
    } else {
      var t := x[2..];
      assert Evens(x)[1..] == Evens(t) && Odds(x)[1..] == Odds(t);
      EvalSplit(R, t, z);
      var a, b, e, o := x[0], x[1], Eval(R, Evens(t), q), Eval(R, Odds(t), q);
      assert x[1..][1..] == t;
      assert Eval(R, x[1..], z) == R.Add(b, R.Mul(z, R.Add(e, R.Mul(z, o))));
      calc {
        R.Mul(z, Eval(R, x[1..], z));
        { Distribute(R, z, b, R.Mul(z, R.Add(e, R.Mul(z, o)))); }
        R.Add(R.Mul(z, b), R.Mul(z, R.Mul(z, R.Add(e, R.Mul(z, o)))));
        { Assoc(R, z, z, R.Add(e, R.Mul(z, o))); }
        R.Add(R.Mul(z, b), R.Mul(q, R.Add(e, R.Mul(z, o))));
        { Distribute(R, q, e, R.Mul(z, o)); }
        R.Add(R.Mul(z, b), R.Add(R.Mul(q, e), R.Mul(q, R.Mul(z, o))));
        { AddLeftSwap(R, R.Mul(z, b), R.Mul(q, e), R.Mul(q, R.Mul(z, o))); }
        R.Add(R.Mul(q, e), R.Add(R.Mul(z, b), R.Mul(q, R.Mul(z, o))));
        { Assoc(R, q, z, o); Swap(R, q, z); Assoc(R, z, q, o); }
        R.Add(R.Mul(q, e), R.Add(R.Mul(z, b), R.Mul(z, R.Mul(q, o))));
        { Distribute(R, z, b, R.Mul(q, o)); }
        R.Add(R.Mul(q, e), R.Mul(z, R.Add(b, R.Mul(q, o))));
      }
      Assoc(R, a, R.Mul(q, e), R.Mul(z, R.Add(b, R.Mul(q, o))));
    }
  }

  // ---- The stages ------------------------------------------------------

  /** The first k values of the polynomial at the powers of w. */
  ghost function Values<T(!new)>(R: Ring<T>, w: T, x: seq<T>, k: nat): (r: seq<T>)
    ensures |r| == k
  {
    if k == 0 then [] else Values(R, w, x, k - 1) + [Eval(R, x, Pow(R, w, k - 1))]
  }

  ghost function Spectrum<T(!new)>(R: Ring<T>, root: Roots<T>, x: seq<T>): (r: seq<T>)
    ensures |r| == |x|
  {
    Values(R, root.Of(|x|), x, |x|)
  }

  lemma {:induction false} ValueAt<T(!new)>(R: Ring<T>, w: T, x: seq<T>, n: nat, k: nat)
    requires k < n
    ensures Values(R, w, x, n)[k] == Eval(R, x, Pow(R, w, k))
  {
    if k < n - 1 {
      ValueAt(R, w, x, n - 1, k);
    }
  }

  /** After the stages below it, level t of the recursion is what the buffer holds. */
  ghost function Stage<T(!new)>(R: Ring<T>, root: Roots<T>, x: seq<T>, m: nat, t: nat): (r: seq<T>)
    requires |x| == Pow2(m) && t <= m
    ensures |r| == |x|
    decreases t
  {
    if t == 0 then Spectrum(R, root, x)
    else Stage(R, root, Evens(x), m - 1, t - 1) + Stage(R, root, Odds(x), m - 1, t - 1)
  }

  /** The deepest level is the bit-reversed input. */
  lemma {:induction false} StageAtBottom<T(!new)>(R: Ring<T>, root: Roots<T>, x: seq<T>, m: nat)
    requires IsCommutativeRing(R) && |x| == Pow2(m)
    ensures Stage(R, root, x, m, m) == Permuted(x, m)
    decreases m
  {
    if m == 0 {
      MulZero(R, Pow(R, root.Of(1), 0));
      Unit(R, x[0]);
      assert x[1..] == [];
      assert Permuted(x, 0)[0] == x[0];
      assert Stage(R, root, x, 0, 0) == Spectrum(R, root, x);
      var z := Pow(R, root.Of(1), 0);
      assert |x| == 1 && Eval(R, x, z) == R.Add(x[0], R.Mul(z, Eval(R, x[1..], z)));
      assert Eval(R, x[1..], z) == R.zero;
      assert Spectrum(R, root, x)[0] == x[0];
    } else {
      StageAtBottom(R, root, Evens(x), m - 1);
      StageAtBottom(R, root, Odds(x), m - 1);
      PermutedHalves(x, m);
    }
  }

  lemma PermutedHalf<T>(x: seq<T>, m: nat, top: bool, low: nat)
    requires m > 0 && |x| == Pow2(m) && low < Pow2(m - 1)
    ensures var k := low + if top then Pow2(m - 1) else 0;
            k < |x| && Permuted(x, m)[k] == if top then Permuted(Odds(x), m - 1)[low] else Permuted(Evens(x), m - 1)[low]
  {
    RevTop(top, low, m);
    RevBound(low, m - 1);
  }

  lemma PermutedHalves<T>(x: seq<T>, m: nat)
    requires m > 0 && |x| == Pow2(m)
    ensures Permuted(x, m) == Permuted(Evens(x), m - 1) + Permuted(Odds(x), m - 1)
  {
    var h := Pow2(m - 1);
    var e, o, p := Permuted(Evens(x), m - 1), Permuted(Odds(x), m - 1), Permuted(x, m);
    forall k | 0 <= k < 2 * h
      ensures (e + o)[k] == p[k]
    {
      PermutedHalf(x, m, k >= h, if k < h then k else k - h);
    }
  }

  /** The upper outputs of the first k butterflies. */
  function Sums<T(!new)>(R: Ring<T>, w: T, e: seq<T>, o: seq<T>, k: nat): (r: seq<T>)
    requires k <= |e| && k <= |o|
    ensures |r| == k
  {
    if k == 0 then []
    else Sums(R, w, e, o, k - 1) + [R.Add(e[k - 1], R.Mul(o[k - 1], Pow(R, w, k - 1)))]
  }

  /** The lower outputs of the first k butterflies. */
  function Differences<T(!new)>(R: Ring<T>, w: T, e: seq<T>, o: seq<T>, k: nat): (r: seq<T>)
    requires k <= |e| && k <= |o|
    ensures |r| == k
  {
    if k == 0 then []
    else Differences(R, w, e, o, k - 1) + [R.Sub(e[k - 1], R.Mul(o[k - 1], Pow(R, w, k - 1)))]
  }

  /** The butterflies of one block; w is the root for |block|. */
  function Combine<T(!new)>(R: Ring<T>, w: T, block: seq<T>): (r: seq<T>)
    requires |block| % 2 == 0
    ensures |r| == |block|
  {
    var h := |block| / 2;
    Sums(R, w, block[..h], block[h..], h) + Differences(R, w, block[..h], block[h..], h)
  }

  lemma {:induction false} HalfTurn<T(!new)>(R: Ring<T>, root: Roots<T>, n: nat, t: nat)
    requires IsCommutativeRing(R) && HalvingRoots(R, root, n)
    requires 2 * Pow2(t) <= n
    ensures Pow(R, root.Of(2 * Pow2(t)), Pow2(t)) == R.Neg(R.one)
  {
    var w := root.Of(2 * Pow2(t));
    if t == 0 {
      assert Pow2(0) == 1;
      assert Pow(R, w, 1) == R.Mul(Pow(R, w, 0), w);
      Swap(R, R.one, w);
      Unit(R, w);
    } else {
      HalfTurn(R, root, n, t - 1);
      PowOfSquare(R, w, Pow2(t - 1));
    }
  }

  /** One butterfly: both outputs are values of the interleaved polynomial. */
  lemma ButterflyPoint<T(!new)>(R: Ring<T>, x: seq<T>, w: T, h: nat, k: nat, e: T, o: T)
    requires IsCommutativeRing(R) && |x| % 2 == 0
    requires Pow(R, w, h) == R.Neg(R.one)
    requires var q := R.Mul(Pow(R, w, k), Pow(R, w, k)); e == Eval(R, Evens(x), q) && o == Eval(R, Odds(x), q)
    ensures R.Add(e, R.Mul(o, Pow(R, w, k))) == Eval(R, x, Pow(R, w, k))
    ensures R.Sub(e, R.Mul(o, Pow(R, w, k))) == Eval(R, x, Pow(R, w, k + h))
  {
    var z, z' := Pow(R, w, k), Pow(R, w, k + h);
    EvalSplit(R, x, z);
    Swap(R, z, o);
    PowAdd(R, w, k, h);
    MulNeg(R, z, R.one);
    Unit(R, z);
    assert z' == R.Neg(z);
    MulNeg(R, z, R.Neg(z));
    MulNeg(R, z, z);
    NegNeg(R, R.Mul(z, z));
    EvalSplit(R, x, z');
    MulNeg(R, z, o);
  }

  /** Outputs k and k + |x| / 2 of the combined block, from the half-length spectra. */
  lemma PointOfSpectrum<T(!new)>(R: Ring<T>, root: Roots<T>, n: nat, x: seq<T>, m: nat, k: nat, e: T, o: T)
    requires IsCommutativeRing(R) && HalvingRoots(R, root, n)
    requires m > 0 && |x| == Pow2(m) <= n && k < Pow2(m - 1)
    requires e == Spectrum(R, root, Evens(x))[k] && o == Spectrum(R, root, Odds(x))[k]
    ensures var w := root.Of(|x|); Eval(R, x, Pow(R, w, k)) == R.Add(e, R.Mul(o, Pow(R, w, k)))
    ensures var w := root.Of(|x|); Eval(R, x, Pow(R, w, k + Pow2(m - 1))) == R.Sub(e, R.Mul(o, Pow(R, w, k)))
  {
    var w, h := root.Of(|x|), Pow2(m - 1);
    assert |x| == 2 * h;
    assert Pow(R, w, h) == R.Neg(R.one) by {
      HalfTurn(R, root, n, m - 1);
    }
    var q := R.Mul(Pow(R, w, k), Pow(R, w, k));
    assert e == Eval(R, Evens(x), q) && o == Eval(R, Odds(x), q) by {
      HalfSpectra(R, root, n, x, m, k);
    }
    ButterflyPoint(R, x, w, h, k, e, o);
  }

  lemma {:induction false} SumsAreValues<T(!new)>(R: Ring<T>, w: T, x: seq<T>, e: seq<T>, o: seq<T>, k: nat)
    requires k <= |e| && k <= |o|
    requires forall i: nat {:trigger e[i]} :: i < k ==> Eval(R, x, Pow(R, w, i)) == R.Add(e[i], R.Mul(o[i], Pow(R, w, i)))
    ensures Sums(R, w, e, o, k) == Values(R, w, x, k)
  {
    if k > 0 {
      SumsAreValues(R, w, x, e, o, k - 1);
      assert e[k - 1] == e[k - 1];
    }
  }

  lemma {:induction false} DifferencesAreValues<T(!new)>(R: Ring<T>, w: T, x: seq<T>, h: nat, e: seq<T>, o: seq<T>, k: nat)
    requires k <= |e| && k <= |o|
    requires forall i: nat {:trigger e[i]} :: i < k ==> Eval(R, x, Pow(R, w, i + h)) == R.Sub(e[i], R.Mul(o[i], Pow(R, w, i)))
    ensures Values(R, w, x, h) + Differences(R, w, e, o, k) == Values(R, w, x, h + k)
  {
    if k > 0 {
      DifferencesAreValues(R, w, x, h, e, o, k - 1);
      var last := R.Sub(e[k - 1], R.Mul(o[k - 1], Pow(R, w, k - 1)));
      assert last == Eval(R, x, Pow(R, w, k - 1 + h));
      assert Values(R, w, x, h + k) == Values(R, w, x, h + k - 1) + [last];
    }
  }

  /** One block: two half-length spectra combine into the spectrum of the interleaved input. */
  lemma CombineSpectra<T(!new)>(R: Ring<T>, root: Roots<T>, n: nat, x: seq<T>, m: nat)
    requires IsCommutativeRing(R) && HalvingRoots(R, root, n)
    requires m > 0 && |x| == Pow2(m) <= n
    ensures Combine(R, root.Of(|x|), Spectrum(R, root, Evens(x)) + Spectrum(R, root, Odds(x))) == Spectrum(R, root, x)
  {
    var w, h := root.Of(|x|), Pow2(m - 1);
    var e, o := Spectrum(R, root, Evens(x)), Spectrum(R, root, Odds(x));
    assert (e + o)[..h] == e && (e + o)[h..] == o;
    forall i: nat {:trigger e[i]} | i < h
      ensures Eval(R, x, Pow(R, w, i)) == R.Add(e[i], R.Mul(o[i], Pow(R, w, i)))
      ensures Eval(R, x, Pow(R, w, i + h)) == R.Sub(e[i], R.Mul(o[i], Pow(R, w, i)))
    {
      PointOfSpectrum(R, root, n, x, m, i, e[i], o[i]);
    }
    SumsAreValues(R, w, x, e, o, h);
    DifferencesAreValues(R, w, x, h, e, o, h);
  }

  lemma NegNeg<T(!new)>(R: Ring<T>, x: T)
    requires IsCommutativeRing(R)
    ensures R.Neg(R.Neg(x)) == x
  {
    Unit(R, x);
    Swap(R, x, R.Neg(x));
    NegUnique(R, R.Neg(x), x);
  }

  lemma HalfSpectra<T(!new)>(R: Ring<T>, root: Roots<T>, n: nat, x: seq<T>, m: nat, k: nat)
    requires IsCommutativeRing(R) && HalvingRoots(R, root, n)
    requires m > 0 && |x| == Pow2(m) <= n && k < Pow2(m - 1)
    ensures var z := Pow(R, root.Of(|x|), k);
            && Spectrum(R, root, Evens(x))[k] == Eval(R, Evens(x), R.Mul(z, z))
            && Spectrum(R, root, Odds(x))[k] == Eval(R, Odds(x), R.Mul(z, z))
  {
    var half := Pow2(m - 1);
    assert Pow(R, root.Of(half), k) == R.Mul(Pow(R, root.Of(|x|), k), Pow(R, root.Of(|x|), k)) by {
      if m == 1 {
        Unit(R, R.one);
      } else {
        PowOfSquare(R, root.Of(|x|), k);
      }
    }
    ValueAt(R, root.Of(half), Evens(x), half, k);
    ValueAt(R, root.Of(half), Odds(x), half, k);
  }

  /** One stage over the whole buffer: every block of the given length combined. */
  function Butterflies<T(!new)>(R: Ring<T>, w: T, data: seq<T>, length: nat): (r: seq<T>)
    requires length > 0 && length % 2 == 0
    ensures |data| == 0 ==> r == []
    decreases |data|
  {
    if |data| < length then [] else Combine(R, w, data[..length]) + Butterflies(R, w, data[length..], length)
  }

  /** The size of a number of equal blocks. */
  ghost function Times(blocks: nat, length: nat): nat {
    if blocks == 0 then 0 else Times(blocks - 1, length) + length
  }

  lemma {:induction false} ButterfliesConcat<T(!new)>(R: Ring<T>, w: T, a: seq<T>, b: seq<T>, length: nat, blocks: nat)
    requires length > 0 && length % 2 == 0 && |a| == Times(blocks, length)
    ensures Butterflies(R, w, a + b, length) == Butterflies(R, w, a, length) + Butterflies(R, w, b, length)
    ensures |Butterflies(R, w, a, length)| == |a|
    decreases blocks
  {
    if blocks == 0 {
      assert a == [] && a + b == b;
    } else {
      var c, a', s := Combine(R, w, a[..length]), a[length..], a + b;
      assert s[..length] == a[..length] && s[length..] == a' + b;
      ButterfliesConcat(R, w, a', b, length, blocks - 1);
      var x, y := Butterflies(R, w, a', length), Butterflies(R, w, b, length);
      assert Butterflies(R, w, s, length) == c + (x + y) == (c + x) + y;
    }
  }

  lemma {:induction false} TimesDouble(blocks: nat, length: nat)
    ensures Times(2 * blocks, length) == Times(blocks, 2 * length)
  {
    if blocks > 0 {
      TimesDouble(blocks - 1, length);
      assert Times(2 * blocks, length) == Times(2 * blocks - 1, length) + length;
    }
  }

  lemma {:induction false} BlocksInPower(s: nat, m: nat)
    requires s <= m
    ensures Times(Pow2(m - s), Pow2(s)) == Pow2(m)
    decreases m - s
  {
    if s == m {
      assert Pow2(0) == 1 && Times(1, Pow2(s)) == Times(0, Pow2(s)) + Pow2(s);
    } else {
      BlocksInPower(s + 1, m);
      TimesDouble(Pow2(m - s - 1), Pow2(s));
    }
  }

  /** One stage climbs one level of the recursion. */
  lemma {:induction false} StageStep<T(!new)>(R: Ring<T>, root: Roots<T>, n: nat, x: seq<T>, m: nat, t: nat)
    requires IsCommutativeRing(R) && HalvingRoots(R, root, n)
    requires |x| == Pow2(m) <= n && 0 < t <= m
    ensures var length := Pow2(m - t + 1);
            Butterflies(R, root.Of(length), Stage(R, root, x, m, t), length) == Stage(R, root, x, m, t - 1)
    decreases t
  {
    var length := Pow2(m - t + 1);
    var e, o := Stage(R, root, Evens(x), m - 1, t - 1), Stage(R, root, Odds(x), m - 1, t - 1);
    if t == 1 {
      CombineSpectra(R, root, n, x, m);
      var s := e + o;
      assert s[..length] == s && s[length..] == [];
      assert Butterflies(R, root.Of(length), s[length..], length) == [];
    } else {
      StageStep(R, root, n, Evens(x), m - 1, t - 1);
      StageStep(R, root, n, Odds(x), m - 1, t - 1);
      BlocksInPower(m - t + 1, m - 1);
      ButterfliesConcat(R, root.Of(length), e, o, length, Pow2(t - 2));
    }
  }

  // ---- The loops ---------------------------------------------------------

  /** The buffer after the first k butterflies of the block at start, as the loop leaves it. */
  ghost function AfterPairs<T(!new)>(R: Ring<T>, w: T, s: seq<T>, start: nat, h: nat, k: nat): (r: seq<T>)
    requires k <= h && start + 2 * h <= |s|
    ensures |r| == |s|
  {
    if k == 0 then s
    else
      var r, i, j := AfterPairs(R, w, s, start, h, k - 1), start + k - 1, start + h + k - 1;
      var odd := R.Mul(s[j], Pow(R, w, k - 1));
      r[i := R.Add(s[i], odd)][j := R.Sub(s[i], odd)]
  }

  lemma {:induction false} AfterPairsElsewhere<T(!new)>(R: Ring<T>, w: T, s: seq<T>, start: nat, h: nat, k: nat, i: nat)
    requires k <= h && start + 2 * h <= |s|
    requires i < |s| && !(start <= i < start + k) && !(start + h <= i < start + h + k)
    ensures AfterPairs(R, w, s, start, h, k)[i] == s[i]
  {
    if k > 0 {
      AfterPairsElsewhere(R, w, s, start, h, k - 1, i);
    }
  }

  lemma {:induction false} AfterPairsAt<T(!new)>(R: Ring<T>, w: T, s: seq<T>, start: nat, h: nat, k: nat, p: nat)
    requires p < k <= h && start + 2 * h <= |s|
    ensures var odd := R.Mul(s[start + h + p], Pow(R, w, p));
            && AfterPairs(R, w, s, start, h, k)[start + p] == R.Add(s[start + p], odd)
            && AfterPairs(R, w, s, start, h, k)[start + h + p] == R.Sub(s[start + p], odd)
  {
    if p < k - 1 {
      AfterPairsAt(R, w, s, start, h, k - 1, p);
    }
  }

  lemma {:induction false} SumAt<T(!new)>(R: Ring<T>, w: T, e: seq<T>, o: seq<T>, k: nat, p: nat)
    requires p < k <= |e| && k <= |o|
    ensures var odd := R.Mul(o[p], Pow(R, w, p));
            && Sums(R, w, e, o, k)[p] == R.Add(e[p], odd)
            && Differences(R, w, e, o, k)[p] == R.Sub(e[p], odd)
  {
    if p < k - 1 {
      SumAt(R, w, e, o, k - 1, p);
    }
  }

  /** All pairs of a block done: the block is combined and nothing else has changed. */
  lemma BlockDone<T(!new)>(R: Ring<T>, w: T, s: seq<T>, start: nat, h: nat)
    requires start + 2 * h <= |s|
    ensures AfterPairs(R, w, s, start, h, h) == s[..start] + Combine(R, w, s[start..start + 2 * h]) + s[start + 2 * h..]
  {
    var done := AfterPairs(R, w, s, start, h, h);
    var c := Combine(R, w, s[start..start + 2 * h]);
    forall i | 0 <= i < 2 * h ensures c[i] == done[start + i] {
      BlockElement(R, w, s, start, h, i >= h, if i < h then i else i - h);
    }
    forall i | 0 <= i < |s| && !(start <= i < start + 2 * h) ensures done[i] == s[i] {
      AfterPairsElsewhere(R, w, s, start, h, h, i);
    }
    SeqInThree(s, done, start, c);
  }

  lemma BlockElement<T(!new)>(R: Ring<T>, w: T, s: seq<T>, start: nat, h: nat, lower: bool, p: nat)
    requires start + 2 * h <= |s| && p < h
    ensures var i := p + if lower then h else 0;
            Combine(R, w, s[start..start + 2 * h])[i] == AfterPairs(R, w, s, start, h, h)[start + i]
  {
    var block := s[start..start + 2 * h];
    assert block[..h][p] == s[start + p] && block[h..][p] == s[start + h + p];
    SumAt(R, w, block[..h], block[h..], h, p);
    AfterPairsAt(R, w, s, start, h, h, p);
  }

  lemma SeqInThree<T>(s: seq<T>, done: seq<T>, start: nat, c: seq<T>)
    requires |done| == |s| && start + |c| <= |s|
    requires forall i :: 0 <= i < |c| ==> c[i] == done[start + i]
    requires forall i :: 0 <= i < |s| && !(start <= i < start + |c|) ==> done[i] == s[i]
    ensures done == s[..start] + c + s[start + |c|..]
  {
  }

  lemma OneMorePair<T(!new)>(R: Ring<T>, w: T, s: seq<T>, start: nat, h: nat, k: nat, i: nat, j: nat, odd: T)
    requires k < h && start + 2 * h <= |s| && i == start + k && j == start + h + k && odd == R.Mul(s[j], Pow(R, w, k))
    ensures AfterPairs(R, w, s, start, h, k + 1)
            == AfterPairs(R, w, s, start, h, k)[i := R.Add(s[i], odd)][j := R.Sub(s[i], odd)]
  {
  }

  /** The innermost loop: one block of butterflies, the twiddle advanced by multiplication. */
  method CombineBlock<T(!new)>(R: Ring<T>, w: T, data: array<T>, start: nat, length: nat)
    requires length % 2 == 0 && start + length <= data.Length
    modifies data
    ensures data[..] == AfterPairs(R, w, old(data[..]), start, length / 2, length / 2)
  {
    var twiddle := R.one;
    var h := length / 2;
    ghost var s := data[..];
    var k := 0;
    while k < h
      invariant 0 <= k <= h && twiddle == Pow(R, w, k)
      invariant data[..] == AfterPairs(R, w, s, start, h, k)
    {
      ghost var now := AfterPairs(R, w, s, start, h, k);
      var i, j := start + k, start + k + h;
      AfterPairsElsewhere(R, w, s, start, h, k, i);
      AfterPairsElsewhere(R, w, s, start, h, k, j);
      assert data[..][i] == s[i] && data[..][j] == s[j];
      var even := data[i];
      var odd := R.Mul(data[j], twiddle);
      OneMorePair(R, w, s, start, h, k, i, j, odd);
      data[i] := R.Add(even, odd);
      data[j] := R.Sub(even, odd);
      assert data[..] == now[i := R.Add(even, odd)][j := R.Sub(even, odd)];
      twiddle := R.Mul(twiddle, w);
      k := k + 1;
    }
  }

  /** The buffer after some number of blocks of a stage. */
  ghost function AfterBlocks<T(!new)>(R: Ring<T>, w: T, s: seq<T>, length: nat, done: nat): (r: seq<T>)
    requires length > 0 && length % 2 == 0 && Times(done, length) <= |s|
    ensures |r| == |s|
  {
    if done == 0 then s
    else AfterPairs(R, w, AfterBlocks(R, w, s, length, done - 1), Times(done - 1, length), length / 2, length / 2)
  }

  lemma BlockStep<T(!new)>(R: Ring<T>, w: T, s: seq<T>, b: seq<T>, start: nat, end: nat, length: nat, was: seq<T>, now: seq<T>)
    requires length % 2 == 0 && |b| == start && end == start + length <= |s| && was == b + s[start..]
    requires now == AfterPairs(R, w, was, start, length / 2, length / 2)
    ensures now == b + Combine(R, w, s[start..end]) + s[end..]
  {
    SlicesOfConcat(b, s, start, length);
    BlockDone(R, w, b + s[start..], start, length / 2);
  }

  /** The first so many blocks, each combined, one after the other. */
  ghost function CombinedTo<T(!new)>(R: Ring<T>, w: T, s: seq<T>, length: nat, done: nat): (r: seq<T>)
    requires length % 2 == 0 && Times(done, length) <= |s|
    ensures |r| == Times(done, length)
  {
    if done == 0 then []
    else CombinedTo(R, w, s, length, done - 1) + Combine(R, w, s[Times(done - 1, length)..Times(done, length)])
  }

  lemma OneMoreBlock<T(!new)>(R: Ring<T>, w: T, s: seq<T>, length: nat, done: nat, was: seq<T>, now: seq<T>)
    requires length % 2 == 0 && done > 0 && Times(done, length) <= |s|
    requires was == CombinedTo(R, w, s, length, done - 1) + s[Times(done - 1, length)..]
    requires now == AfterPairs(R, w, was, Times(done - 1, length), length / 2, length / 2)
    ensures now == CombinedTo(R, w, s, length, done) + s[Times(done, length)..]
  {
    BlockStep(R, w, s, CombinedTo(R, w, s, length, done - 1), Times(done - 1, length), Times(done, length), length, was, now);
  }

  lemma NoBlocks<T(!new)>(R: Ring<T>, w: T, s: seq<T>, length: nat)
    requires length > 0 && length % 2 == 0
    ensures AfterBlocks(R, w, s, length, 0) == CombinedTo(R, w, s, length, 0) + s[Times(0, length)..]
  {
  }

  lemma {:induction false} BlocksDone<T(!new)>(R: Ring<T>, w: T, s: seq<T>, length: nat, done: nat)
    requires length > 0 && length % 2 == 0 && Times(done, length) <= |s|
    ensures AfterBlocks(R, w, s, length, done) == CombinedTo(R, w, s, length, done) + s[Times(done, length)..]
  {
    if done == 0 {
      NoBlocks(R, w, s, length);
    } else {
      BlocksDone(R, w, s, length, done - 1);
      OneMoreBlock(R, w, s, length, done, AfterBlocks(R, w, s, length, done - 1), AfterBlocks(R, w, s, length, done));
    }
  }

  lemma {:induction false} CombinedIsButterflies<T(!new)>(R: Ring<T>, w: T, s: seq<T>, length: nat, done: nat)
    requires length > 0 && length % 2 == 0 && Times(done, length) <= |s|
    ensures CombinedTo(R, w, s, length, done) == Butterflies(R, w, s[..Times(done, length)], length)
  {
    if done > 0 {
      CombinedIsButterflies(R, w, s, length, done - 1);
      AppendBlock(R, w, s, Times(done - 1, length), Times(done, length), length, done - 1);
    }
  }

  lemma SlicesOfConcat<T>(a: seq<T>, s: seq<T>, start: nat, length: nat)
    requires |a| == start && start + length <= |s|
    ensures var was := a + s[start..];
            was[..start] == a && was[start..start + length] == s[start..start + length] && was[start + length..] == s[start + length..]
  {
  }

  lemma AppendBlock<T(!new)>(R: Ring<T>, w: T, was: seq<T>, start: nat, end: nat, length: nat, done: nat)
    requires length > 0 && length % 2 == 0 && start == Times(done, length) && end == start + length <= |was|
    ensures Butterflies(R, w, was[..end], length)
            == Butterflies(R, w, was[..start], length) + Combine(R, w, was[start..end])
  {
    var a, b := was[..start], was[start..end];
    assert was[..end] == a + b;
    ButterfliesConcat(R, w, a, b, length, done);
    assert b[..length] == b && b[length..] == [];
    assert Butterflies(R, w, b, length) == Combine(R, w, b) + Butterflies(R, w, b[length..], length);
  }

  /** The middle loop: one stage over every block. */
  method RunStage<T(!new)>(R: Ring<T>, w: T, data: array<T>, length: nat, ghost blocks: nat)
    requires length > 0 && length % 2 == 0 && data.Length == Times(blocks, length)
    modifies data
    ensures data[..] == Butterflies(R, w, old(data[..]), length)
  {
    var start := 0;
    ghost var s := data[..];
    ghost var done := 0;
    while start < data.Length
      invariant done <= blocks && start == Times(done, length) <= data.Length
      invariant data[..] == AfterBlocks(R, w, s, length, done)
      decreases data.Length - start
    {
      RoomForBlock(done, blocks, length);
      NextBlock(R, w, s, length, done);
      CombineBlock(R, w, data, start, length);
      start := start + length;
      done := done + 1;
    }
    AllBlocksDone(R, w, s, length, done);
  }

  lemma NextBlock<T(!new)>(R: Ring<T>, w: T, s: seq<T>, length: nat, done: nat)
    requires length > 0 && length % 2 == 0 && Times(done + 1, length) <= |s|
    ensures Times(done, length) + length <= |s|
    ensures AfterBlocks(R, w, s, length, done + 1)
            == AfterPairs(R, w, AfterBlocks(R, w, s, length, done), Times(done, length), length / 2, length / 2)
  {
  }

  lemma AllBlocksDone<T(!new)>(R: Ring<T>, w: T, s: seq<T>, length: nat, blocks: nat)
    requires length > 0 && length % 2 == 0 && Times(blocks, length) == |s|
    ensures AfterBlocks(R, w, s, length, blocks) == Butterflies(R, w, s, length)
  {
    BlocksDone(R, w, s, length, blocks);
    CombinedIsButterflies(R, w, s, length, blocks);
    assert s[..|s|] == s && s[|s|..] == [];
  }

  lemma RoomForBlock(done: nat, blocks: nat, length: nat)
    requires done <= blocks && Times(done, length) < Times(blocks, length)
    ensures done < blocks && Times(done + 1, length) <= Times(blocks, length)
  {
    assert done < blocks;
    TimesMonotone(done + 1, blocks, length);
  }

  lemma {:induction false} TimesMonotone(a: nat, b: nat, length: nat)
    requires a <= b
    ensures Times(a, length) <= Times(b, length)
    decreases b
  {
    if a < b {
      TimesMonotone(a, b - 1, length);
    }
  }

  /**
   The whole transform. A length that is not a power of two is refused with the
   buffer untouched; every other buffer ends as the DFT of what it held.
   */
  method Forward<T(!new)>(R: Ring<T>, root: Roots<T>, data: array<T>) returns (ok: bool)
    requires IsCommutativeRing(R) && HalvingRoots(R, root, data.Length)
    modifies data
    ensures ok <==> exists m: nat :: data.Length == Pow2(m)
    ensures !ok ==> data[..] == old(data[..])
    ensures ok ==> data[..] == Dft(R, root.Of(data.Length), old(data[..]))
  {
    var n := data.Length;
    PowerOfTwoTest(n);
    if !IsPowerOfTwo(n) {
      return false;
    }
    ghost var m: nat :| n == Pow2(m);
    ghost var x := data[..];
    SpectrumIsDft(R, root, x);
    StageAtBottom(R, root, x, m);
    if n <= 1 {
      assert m == 0;
      assert Permuted(x, 0) == x;
      return true;
    }
    Permute(data, m);
    RunStages(R, root, data, x, m);
    return true;
  }

  /** The outer loop: one pass per doubling of the block length. */
  method RunStages<T(!new)>(R: Ring<T>, root: Roots<T>, data: array<T>, ghost x: seq<T>, ghost m: nat)
    requires IsCommutativeRing(R) && HalvingRoots(R, root, data.Length)
    requires m > 0 && |x| == data.Length == Pow2(m)
    requires data[..] == Stage(R, root, x, m, m)
    modifies data
    ensures data[..] == Spectrum(R, root, x)
  {
    var length := 2;
    ghost var t := m;
    while length <= data.Length
      invariant 0 <= t <= m && length == Pow2(m - t + 1)
      invariant data[..] == Stage(R, root, x, m, t)
      decreases t
    {
      LengthAtLevel(m, t);
      BlocksInPower(m - t + 1, m);
      RunStage(R, root.Of(length), data, length, Pow2(t - 1));
      StageStep(R, root, data.Length, x, m, t);
      length := length * 2;
      t := t - 1;
    }
    LengthAtLevel(m, t);
  }

  lemma {:induction false} LengthAtLevel(m: nat, t: nat)
    requires t <= m
    ensures Pow2(m - t + 1) <= Pow2(m) <==> t > 0
    decreases t
  {
    if t > 1 {
      LengthAtLevel(m, t - 1);
    }
  }

  lemma SpectrumIsDft<T(!new)>(R: Ring<T>, root: Roots<T>, x: seq<T>)
    requires IsCommutativeRing(R)
    ensures Spectrum(R, root, x) == Dft(R, root.Of(|x|), x)
  {
    var w := root.Of(|x|);
    forall k | 0 <= k < |x| ensures Spectrum(R, root, x)[k] == Dft(R, w, x)[k] {
      DftIsEval(R, w, x, k, |x|);
      assert x[..|x|] == x;
      ValueAt(R, w, x, |x|, k);
    }
  }
}
