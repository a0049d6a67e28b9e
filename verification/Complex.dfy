/** Complex numbers as pairs of exact reals, with the laws of the field that the
    transform proofs use by name, so that those proofs never multiply out. */
module Complex {
  import opened Sums

  datatype Cx = Cx(re: real, im: real)

  const ZERO := Cx(0.0, 0.0)
  const ONE := Cx(1.0, 0.0)
  const MINUS_ONE := Cx(-1.0, 0.0)

  function Add(a: Cx, b: Cx): Cx { Cx(a.re + b.re, a.im + b.im) }
  function Sub(a: Cx, b: Cx): Cx { Cx(a.re - b.re, a.im - b.im) }
  function Mul(a: Cx, b: Cx): Cx { Cx(a.re * b.re - a.im * b.im, a.re * b.im + a.im * b.re) }
  function Scale(c: real, a: Cx): Cx { Cx(c * a.re, c * a.im) }
  function Conj(a: Cx): Cx { Cx(a.re, -a.im) }
  /** The squared magnitude, as std::norm. */
  function Norm(a: Cx): real { a.re * a.re + a.im * a.im }

  function Pow(w: Cx, k: nat): Cx {
    if k == 0 then ONE else Mul(Pow(w, k - 1), w)
  }

  lemma MulComm(a: Cx, b: Cx)
    ensures Mul(a, b) == Mul(b, a)
  {}

  lemma MulAssoc(a: Cx, b: Cx, c: Cx)
    ensures Mul(Mul(a, b), c) == Mul(a, Mul(b, c))
  {}

  lemma MulAdd(a: Cx, b: Cx, c: Cx)
    ensures Mul(a, Add(b, c)) == Add(Mul(a, b), Mul(a, c))
    ensures Mul(a, Sub(b, c)) == Sub(Mul(a, b), Mul(a, c))
  {}

  lemma MulOne(a: Cx)
    ensures Mul(a, ONE) == a && Mul(ONE, a) == a
    ensures Mul(a, ZERO) == ZERO && Mul(ZERO, a) == ZERO
    ensures Mul(a, MINUS_ONE) == Sub(ZERO, a)
  {}

  lemma MulSwapMiddle(a: Cx, b: Cx, c: Cx, d: Cx)
    ensures Mul(Mul(a, b), Mul(c, d)) == Mul(Mul(a, c), Mul(b, d))
  {
    hide Mul;
    MulAssoc(a, b, Mul(c, d)); MulAssoc(b, c, d); MulComm(b, c);
    MulAssoc(c, b, d); MulAssoc(a, c, Mul(b, d));
  }

  lemma ConjMul(a: Cx, b: Cx)
    ensures Conj(Mul(a, b)) == Mul(Conj(a), Conj(b))
  {}

  lemma ConjLaws(a: Cx, b: Cx)
    ensures Conj(Conj(a)) == a && Conj(Add(a, b)) == Add(Conj(a), Conj(b))
    ensures Norm(Conj(a)) == Norm(a) && Mul(a, Conj(a)) == Cx(Norm(a), 0.0)
  {}

  lemma NormScale(c: real, a: Cx)
    ensures Norm(Scale(c, a)) == c * c * Norm(a)
    ensures Norm(a) >= 0.0
  {
    assert c * a.re * (c * a.re) == c * c * (a.re * a.re);
    assert c * a.im * (c * a.im) == c * c * (a.im * a.im);
  }

  lemma NormMul(a: Cx, b: Cx)
    ensures Norm(Mul(a, b)) == Norm(a) * Norm(b)
  {
    var p := a.re * b.re; var q := a.im * b.im; var r := a.re * b.im; var s := a.im * b.re;
    assert p * q == r * s by {
      assert p * q == a.re * a.im * (b.re * b.im);
      assert r * s == a.re * a.im * (b.re * b.im);
    }
    assert p * p == a.re * a.re * (b.re * b.re);
    assert q * q == a.im * a.im * (b.im * b.im);
    assert r * r == a.re * a.re * (b.im * b.im);
    assert s * s == a.im * a.im * (b.re * b.re);
  }

  lemma NormZero(a: Cx)
    ensures Norm(a) >= 0.0
    ensures Norm(a) == 0.0 <==> a == ZERO
  {
    var p, q := a.re * a.re, a.im * a.im;
    assert p >= 0.0 && q >= 0.0;
    if a.re != 0.0 && p == 0.0 { RealFactor(a.re, a.re); }
    if a.im != 0.0 && q == 0.0 { RealFactor(a.im, a.im); }
  }

  /** The complex numbers have no zero divisors. */
  lemma NoZeroDivisors(a: Cx, b: Cx)
    requires Mul(a, b) == ZERO && a != ZERO
    ensures b == ZERO
  {
    hide *;
    NormMul(a, b); NormZero(a); NormZero(b); NormZero(ZERO);
    RealFactor(Norm(a), Norm(b));
  }

  lemma RealFactor(x: real, y: real)
    requires x * y == 0.0 && x != 0.0
    ensures y == 0.0
  {}

  // ----- Powers

  lemma {:induction false} PowAdd(w: Cx, j: nat, k: nat)
    ensures Pow(w, j + k) == Mul(Pow(w, j), Pow(w, k))
  {
    hide Mul;
    if k == 0 {
      MulOne(Pow(w, j));
    } else {
      PowAdd(w, j, k - 1);
      MulAssoc(Pow(w, j), Pow(w, k - 1), w);
    }
  }

  lemma {:induction false} PowPow(w: Cx, j: nat, k: nat)
    ensures Pow(w, j * k) == Pow(Pow(w, j), k)
  {
    hide Mul;
    if k > 0 {
      PowPow(w, j, k - 1);
      assert j * k == j * (k - 1) + j;
      PowAdd(w, j * (k - 1), j);
    } else {
      assert j * k == 0;
    }
  }

  lemma PowSquare(w: Cx, k: nat)
    ensures Pow(w, 2) == Mul(w, w)
    ensures Pow(w, 2 * k) == Pow(Mul(w, w), k)
  {
    hide Mul;
    MulOne(w);
    assert Pow(w, 1) == w by { assert Pow(w, 0) == ONE; }
    PowPow(w, 2, k);
  }

  lemma {:induction false} PowMul(u: Cx, v: Cx, k: nat)
    ensures Pow(Mul(u, v), k) == Mul(Pow(u, k), Pow(v, k))
  {
    hide Mul;
    MulOne(ONE);
    if k > 0 {
      PowMul(u, v, k - 1);
      MulSwapMiddle(Pow(u, k - 1), Pow(v, k - 1), u, v);
    }
  }

  lemma {:induction false} PowOne(k: nat)
    ensures Pow(ONE, k) == ONE
  {
    hide Mul;
    MulOne(ONE);
    if k > 0 { PowOne(k - 1); }
  }

  lemma {:induction false} PowConj(w: Cx, k: nat)
    ensures Conj(Pow(w, k)) == Pow(Conj(w), k)
  {
    hide Mul;
    if k > 0 {
      PowConj(w, k - 1);
      ConjMul(Pow(w, k - 1), w);
    }
  }

  lemma {:induction false} PowMinusOne(k: nat)
    requires k % 2 == 1
    ensures Pow(MINUS_ONE, k) == MINUS_ONE
  {
    hide Mul;
    var h := k / 2;
    assert k == 2 * h + 1;
    PowSquare(MINUS_ONE, h);
    MinusOneSquared();
    PowOne(h);
    MulOne(MINUS_ONE);
  }

  lemma MinusOneSquared()
    ensures Mul(MINUS_ONE, MINUS_ONE) == ONE
  {}

  // ----- Sums of complex numbers

  ghost function CSum(n: nat, f: int -> Cx): Cx {
    if n == 0 then ZERO else Add(CSum(n - 1, f), f(n - 1))
  }

  lemma {:induction false} CSumExt(n: nat, f: int -> Cx, g: int -> Cx)
    requires forall i :: 0 <= i < n ==> f(i) == g(i)
    ensures CSum(n, f) == CSum(n, g)
  {
    if n > 0 { CSumExt(n - 1, f, g); }
  }

  lemma {:induction false} CSumMul(n: nat, c: Cx, f: int -> Cx, g: int -> Cx)
    requires forall i :: 0 <= i < n ==> g(i) == Mul(c, f(i))
    ensures CSum(n, g) == Mul(c, CSum(n, f))
  {
    hide Mul;
    MulOne(c);
    if n > 0 {
      CSumMul(n - 1, c, f, g);
      MulAdd(c, CSum(n - 1, f), f(n - 1));
    }
  }

  lemma {:induction false} CSumAdd(n: nat, f: int -> Cx, g: int -> Cx, h: int -> Cx)
    requires forall i :: 0 <= i < n ==> h(i) == Add(f(i), g(i))
    ensures CSum(n, h) == Add(CSum(n, f), CSum(n, g))
  {
    if n > 0 { CSumAdd(n - 1, f, g, h); }
  }

  lemma {:induction false} CSumConj(n: nat, f: int -> Cx, g: int -> Cx)
    requires forall i :: 0 <= i < n ==> g(i) == Conj(f(i))
    ensures CSum(n, g) == Conj(CSum(n, f))
  {
    if n > 0 { CSumConj(n - 1, f, g); }
  }

  /** All terms but one vanish. */
  lemma {:induction false} CSumSingle(n: nat, f: int -> Cx, k: nat)
    requires k < n
    requires forall i :: 0 <= i < n && i != k ==> f(i) == ZERO
    ensures CSum(n, f) == f(k)
  {
    if k == n - 1 {
      CSumZero(n - 1, f);
    } else {
      CSumSingle(n - 1, f, k);
    }
  }

  lemma {:induction false} CSumZero(n: nat, f: int -> Cx)
    requires forall i :: 0 <= i < n ==> f(i) == ZERO
    ensures CSum(n, f) == ZERO
  {
    if n > 0 { CSumZero(n - 1, f); }
  }

  lemma {:induction false} CSumSwap(m: nat, n: nat, f: (int, int) -> Cx)
    ensures CSum(m, (i: int) => CSum(n, (j: int) => f(i, j)))
         == CSum(n, (j: int) => CSum(m, (i: int) => f(i, j)))
  {
    var rows := (i: int) => CSum(n, (j: int) => f(i, j));
    var cols := (j: int) => CSum(m, (i: int) => f(i, j));
    if m == 0 {
      CSumZero(n, cols);
    } else {
      CSumSwap(m - 1, n, f);
      var cols' := (j: int) => CSum(m - 1, (i: int) => f(i, j));
      var last := (j: int) => f(m - 1, j);
      CSumAdd(n, cols', last, cols);
      CSumExt(n, last, (j: int) => f(m - 1, j));
    }
  }

  /** The real part of a sum is the sum of the real parts. */
  lemma {:induction false} CSumRe(n: nat, f: int -> Cx, g: int -> real)
    requires forall i :: 0 <= i < n ==> f(i).re == g(i)
    ensures CSum(n, f).re == Sum(n, g)
  {
    if n > 0 { CSumRe(n - 1, f, g); }
  }
}
