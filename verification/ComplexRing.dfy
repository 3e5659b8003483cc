/** The exact complex numbers meet the transform's assumptions. */
module ComplexRing {
  import opened Ring
  import opened Fft

  datatype Complex = Complex(re: real, im: real)

  const ZERO := Complex(0.0, 0.0)
  const ONE := Complex(1.0, 0.0)

  function Plus(x: Complex, y: Complex): Complex {
    Complex(x.re + y.re, x.im + y.im)
  }

  function Minus(x: Complex): Complex {
    Complex(-x.re, -x.im)
  }

  function Times(x: Complex, y: Complex): Complex {
    Complex(x.re * y.re - x.im * y.im, x.re * y.im + x.im * y.re)
  }

  function Numbers(): Ring<Complex> {
    Ring(ZERO, ONE, (x, y) => Plus(x, y), x => Minus(x), (x, y) => Times(x, y))
  }

  lemma TimesAssociates(x: Complex, y: Complex, z: Complex)
    ensures Times(Times(x, y), z) == Times(x, Times(y, z))
  {
  }

  lemma TimesDistributes(x: Complex, y: Complex, z: Complex)
    ensures Times(x, Plus(y, z)) == Plus(Times(x, y), Times(x, z))
  {
  }

  /** The exact complex numbers are a commutative ring. */
  lemma ComplexLaws()
    ensures IsCommutativeRing(Numbers())
  {
    var R := Numbers();
    forall x: Complex
      ensures R.Add(x, R.zero) == x && R.Add(x, R.Neg(x)) == R.zero && R.Mul(x, R.one) == x
    {
      assert Plus(x, ZERO) == x && Plus(x, Minus(x)) == ZERO && Times(x, ONE) == x;
    }
    forall x: Complex, y: Complex
      ensures R.Add(x, y) == R.Add(y, x) && R.Mul(x, y) == R.Mul(y, x)
    {
      assert Plus(x, y) == Plus(y, x) && Times(x, y) == Times(y, x);
    }
    forall x: Complex, y: Complex, z: Complex
      ensures R.Add(R.Add(x, y), z) == R.Add(x, R.Add(y, z))
      ensures R.Mul(R.Mul(x, y), z) == R.Mul(x, R.Mul(y, z))
      ensures R.Mul(x, R.Add(y, z)) == R.Add(R.Mul(x, y), R.Mul(x, z))
    {
      assert Plus(Plus(x, y), z) == Plus(x, Plus(y, z));
      TimesAssociates(x, y, z);
      TimesDistributes(x, y, z);
    }
  }

  /** exp(-2 pi i / length) for the lengths whose cosine and sine are rational. */
  function ShortRoots(): Roots<Complex> {
    Roots((length: nat) => if length == 2 then Complex(-1.0, 0.0) else Complex(0.0, -1.0))
  }

  /** Lengths up to four need no irrational root, and their roots halve as required. */
  lemma ShortRootsHalve()
    ensures HalvingRoots(Numbers(), ShortRoots(), 4)
  {
  }
}
