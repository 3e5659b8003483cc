/**
 Commutative rings as values, so that the transform can be stated over exact
 arithmetic instead of rounded complex doubles.
 */
module Ring {

  datatype Ring<!T(!new)> = Ring(zero: T, one: T, add: (T, T) -> T, neg: T -> T, mul: (T, T) -> T) {
    function Add(x: T, y: T): T { add(x, y) }

    function Neg(x: T): T { neg(x) }

    function Mul(x: T, y: T): T { mul(x, y) }

    function Sub(x: T, y: T): T { Add(x, Neg(y)) }
  }

  // The laws below are instantiated only where a proof names its points: a law
  // that fires by itself on every sum and product would swamp the solver.
  ghost predicate At1<T>(x: T) { true }

  ghost predicate At2<T>(x: T, y: T) { true }

  ghost predicate At3<T>(x: T, y: T, z: T) { true }

  ghost predicate IsCommutativeRing<T(!new)>(R: Ring<T>) {
    && (forall x: T {:trigger At1(x)} :: R.Add(x, R.zero) == x && R.Add(x, R.Neg(x)) == R.zero && R.Mul(x, R.one) == x)
    && (forall x: T, y: T {:trigger At2(x, y)} :: R.Add(x, y) == R.Add(y, x) && R.Mul(x, y) == R.Mul(y, x))
    && (forall x: T, y: T, z: T {:trigger At3(x, y, z)} ::
          && R.Add(R.Add(x, y), z) == R.Add(x, R.Add(y, z))
          && R.Mul(R.Mul(x, y), z) == R.Mul(x, R.Mul(y, z))
          && R.Mul(x, R.Add(y, z)) == R.Add(R.Mul(x, y), R.Mul(x, z)))
  }

  lemma Unit<T(!new)>(R: Ring<T>, x: T)
    requires IsCommutativeRing(R)
    ensures R.Add(x, R.zero) == x && R.Add(x, R.Neg(x)) == R.zero && R.Mul(x, R.one) == x
  {
    assert At1(x);
  }

  lemma Swap<T(!new)>(R: Ring<T>, x: T, y: T)
    requires IsCommutativeRing(R)
    ensures R.Add(x, y) == R.Add(y, x) && R.Mul(x, y) == R.Mul(y, x)
  {
    assert At2(x, y);
  }

  lemma Assoc<T(!new)>(R: Ring<T>, x: T, y: T, z: T)
    requires IsCommutativeRing(R)
    ensures R.Add(R.Add(x, y), z) == R.Add(x, R.Add(y, z))
    ensures R.Mul(R.Mul(x, y), z) == R.Mul(x, R.Mul(y, z))
  {
    assert At3(x, y, z);
  }

  lemma Distribute<T(!new)>(R: Ring<T>, x: T, y: T, z: T)
    requires IsCommutativeRing(R)
    ensures R.Mul(x, R.Add(y, z)) == R.Add(R.Mul(x, y), R.Mul(x, z))
    ensures R.Mul(R.Add(y, z), x) == R.Add(R.Mul(y, x), R.Mul(z, x))
  {
    assert At3(x, y, z);
    Swap(R, x, R.Add(y, z));
    Swap(R, x, y);
    Swap(R, x, z);
  }

  /** x + (y + z) with the first two addends exchanged. */
  lemma AddLeftSwap<T(!new)>(R: Ring<T>, x: T, y: T, z: T)
    requires IsCommutativeRing(R)
    ensures R.Add(x, R.Add(y, z)) == R.Add(y, R.Add(x, z))
  {
    Assoc(R, x, y, z);
    Assoc(R, y, x, z);
    Swap(R, x, y);
  }

  lemma NegUnique<T(!new)>(R: Ring<T>, x: T, y: T)
    requires IsCommutativeRing(R)
    requires R.Add(x, y) == R.zero
    ensures y == R.Neg(x)
  {
    calc {
      y;
      { Unit(R, y); Unit(R, x); }
      R.Add(y, R.Add(x, R.Neg(x)));
      { Assoc(R, y, x, R.Neg(x)); Swap(R, x, y); }
      R.Add(R.zero, R.Neg(x));
      { Swap(R, R.zero, R.Neg(x)); Unit(R, R.Neg(x)); }
      R.Neg(x);
    }
  }

  lemma MulZero<T(!new)>(R: Ring<T>, x: T)
    requires IsCommutativeRing(R)
    ensures R.Mul(x, R.zero) == R.zero
  {
    var p := R.Mul(x, R.zero);
    Unit(R, R.zero);
    Distribute(R, x, R.zero, R.zero);
    assert R.Add(p, p) == p;
    calc {
      p;
      { Unit(R, p); }
      R.Add(p, R.Add(p, R.Neg(p)));
      { Assoc(R, p, p, R.Neg(p)); }
      R.Add(p, R.Neg(p));
      { Unit(R, p); }
      R.zero;
    }
  }

  lemma MulNeg<T(!new)>(R: Ring<T>, x: T, y: T)
    requires IsCommutativeRing(R)
    ensures R.Mul(x, R.Neg(y)) == R.Neg(R.Mul(x, y))
    ensures R.Mul(R.Neg(x), y) == R.Neg(R.Mul(x, y))
  {
    Distribute(R, x, y, R.Neg(y));
    Unit(R, y);
    MulZero(R, x);
    NegUnique(R, R.Mul(x, y), R.Mul(x, R.Neg(y)));
    Distribute(R, y, x, R.Neg(x));
    Unit(R, x);
    MulZero(R, y);
    Swap(R, x, y);
    Swap(R, R.Neg(x), y);
    NegUnique(R, R.Mul(y, x), R.Mul(y, R.Neg(x)));
  }

  function Pow<T(!new)>(R: Ring<T>, x: T, k: nat): T {
    if k == 0 then R.one else R.Mul(Pow(R, x, k - 1), x)
  }

  lemma {:induction false} PowAdd<T(!new)>(R: Ring<T>, x: T, j: nat, k: nat)
    requires IsCommutativeRing(R)
    ensures Pow(R, x, j + k) == R.Mul(Pow(R, x, j), Pow(R, x, k))
  {
    if k == 0 {
      Unit(R, Pow(R, x, j));
    } else {
      PowAdd(R, x, j, k - 1);
      Assoc(R, Pow(R, x, j), Pow(R, x, k - 1), x);
    }
  }

  lemma {:induction false} PowOfSquare<T(!new)>(R: Ring<T>, x: T, k: nat)
    requires IsCommutativeRing(R)
    ensures Pow(R, R.Mul(x, x), k) == R.Mul(Pow(R, x, k), Pow(R, x, k))
    ensures Pow(R, R.Mul(x, x), k) == Pow(R, x, 2 * k)
  {
    if k == 0 {
      Unit(R, R.one);
    } else {
      PowOfSquare(R, x, k - 1);
      var p := Pow(R, x, 2 * (k - 1));
      assert Pow(R, x, 2 * k - 1) == R.Mul(p, x);
      assert Pow(R, x, 2 * k) == R.Mul(R.Mul(p, x), x);
      Assoc(R, p, x, x);
    }
    PowAdd(R, x, k, k);
    assert k + k == 2 * k;
  }

  lemma {:induction false} PowOfPow<T(!new)>(R: Ring<T>, x: T, j: nat, k: nat)
    requires IsCommutativeRing(R)
    ensures Pow(R, Pow(R, x, j), k) == Pow(R, x, j * k)
  {
    if k == 0 {
      assert j * k == 0;
    } else {
      PowOfPow(R, x, j, k - 1);
      assert j * k == j * (k - 1) + j;
      PowAdd(R, x, j * (k - 1), j);
    }
  }
}
