/** Inversion, Parseval and the symmetry of real signals for the plain transform. */
module FourierInverse {
  import opened Sums
  import opened Complex
  import opened Fourier

  ghost function ConjAll(x: seq<Cx>): (r: seq<Cx>)
    ensures |r| == |x|
  {
    seq(|x|, (t: nat) requires t < |x| => Conj(x[t]))
  }

  /** Conjugate, transform, conjugate and divide by the length. */
  ghost function Idft(X: seq<Cx>, w: Cx): (x: seq<Cx>)
    requires |X| > 0
    ensures |x| == |X|
  {
    var D := Dft(ConjAll(X), w);
    seq(|X|, (t: nat) requires t < |D| => Scale(1.0 / |X| as real, Conj(D[t])))
  }

  /** x[t] * (w^t conj(w)^s)^k, the (k, t) entry of the double sum behind inversion. */
  ghost function Entry(x: seq<Cx>, w: Cx, s: nat): (int, int) -> Cx {
    (k: int, t: int) =>
      if 0 <= k && 0 <= t < |x| then Mul(x[t], Powers(Ratio(w, t, s))(k)) else ZERO
  }

  lemma EntryIsProduct(x: seq<Cx>, w: Cx, s: nat, k: nat, t: nat)
    requires t < |x|
    ensures Entry(x, w, s)(k, t)
         == Mul(Pow(Pow(Conj(w), s), k), PolyTerm(x, Pow(w, k))(t))
  {
    hide Mul;
    var a, b := Pow(w, t), Pow(Conj(w), s);
    PowMul(a, b, k);
    PowPow(w, t, k); PowPow(w, k, t);
    assert t * k == k * t;
    assert Pow(a, k) == Pow(Pow(w, k), t);
    assert Powers(Ratio(w, t, s))(k) == Mul(Pow(a, k), Pow(b, k));
    MulAssoc(x[t], Pow(a, k), Pow(b, k));
    MulComm(Mul(x[t], Pow(a, k)), Pow(b, k));
  }

  /** The transform at index s of the conjugated spectrum. */
  lemma ConjSpectrum(X: seq<Cx>, w: Cx, s: nat, g: int -> Cx)
    requires s < |X|
    requires forall k: nat :: k < |X| ==> g(k) == Mul(Pow(Pow(Conj(w), s), k), X[k])
    ensures Conj(Dft(ConjAll(X), w)[s]) == CSum(|X|, g)
  {
    hide Mul, Conj, CSum, Pow;
    var z := Pow(w, s);
    var f := PolyTerm(ConjAll(X), z);
    PowConj(w, s);
    forall k: nat | k < |X| ensures g(k) == Conj(f(k)) {
      ConjMul(Conj(X[k]), Pow(z, k));
      ConjLaws(X[k], X[k]);
      PowConj(z, k);
      MulComm(X[k], Pow(Conj(z), k));
    }
    CSumConj(|X|, f, g);
  }

  lemma DoubleRow(x: seq<Cx>, w: Cx, s: nat, k: nat, row: int -> Cx)
    requires k < |x|
    requires forall t: nat :: t < |x| ==> row(t) == Entry(x, w, s)(k, t)
    ensures CSum(|x|, row) == Mul(Pow(Pow(Conj(w), s), k), Dft(x, w)[k])
  {
    hide Mul, CSum, Entry, Pow, PolyTerm;
    var c := Pow(Pow(Conj(w), s), k);
    forall t: nat | t < |x| ensures row(t) == Mul(c, PolyTerm(x, Pow(w, k))(t)) {
      EntryIsProduct(x, w, s, k, t);
    }
    CSumMul(|x|, c, PolyTerm(x, Pow(w, k)), row);
  }

  lemma DoubleColumn(x: seq<Cx>, w: Cx, s: nat, t: nat, col: int -> Cx)
    requires Pow2(|x|) && IsRoot(w, |x|) && s < |x| && t < |x|
    requires forall k: nat :: k < |x| ==> col(k) == Entry(x, w, s)(k, t)
    ensures CSum(|x|, col) == if t == s then Scale(|x| as real, x[s]) else ZERO
  {
    hide Mul, CSum, Pow, IsRoot, Pow2, Ratio, Powers;
    CSumMul(|x|, x[t], Powers(Ratio(w, t, s)), col);
    Orthogonality(w, |x|, t, s);
    MulOne(x[t]);
    MulReal(x[t], |x| as real);
  }

  /** Forward then conjugate-forward gives the signal back, n times over. */
  lemma DoubleTransform(x: seq<Cx>, w: Cx, s: nat)
    requires Pow2(|x|) && IsRoot(w, |x|) && s < |x|
    ensures Conj(Dft(ConjAll(Dft(x, w)), w)[s]) == Scale(|x| as real, x[s])
  {
    hide Mul, CSum, Entry, IsRoot, Pow2, Dft, Scale, Pow, Conj;
    var n, F := |x|, Entry(x, w, s);
    var rows := (k: int) => CSum(n, (t: int) => F(k, t));
    var cols := (t: int) => CSum(n, (k: int) => F(k, t));
    forall k: nat | k < n ensures rows(k) == Mul(Pow(Pow(Conj(w), s), k), Dft(x, w)[k]) {
      DoubleRow(x, w, s, k, (t: int) => F(k, t));
    }
    ConjSpectrum(Dft(x, w), w, s, rows);
    CSumSwap(n, n, F);
    forall t: nat | t < n ensures cols(t) == if t == s then Scale(n as real, x[s]) else ZERO {
      DoubleColumn(x, w, s, t, (k: int) => F(k, t));
    }
    CSumSingle(n, cols, s);
  }

  lemma MulReal(a: Cx, c: real)
    ensures Mul(a, Cx(c, 0.0)) == Scale(c, a)
  {}

  /** The inverse transform undoes the transform, for every power-of-two length. */
  lemma {:induction false} InverseOfDft(x: seq<Cx>, w: Cx)
    requires Pow2(|x|) && IsRoot(w, |x|)
    ensures Idft(Dft(x, w), w) == x
  {
    hide Mul, Norm, IsRoot;
    forall s: nat | s < |x| ensures Idft(Dft(x, w), w)[s] == x[s] {
      DoubleTransform(x, w, s);
      ScaleBack(|x| as real, x[s]);
    }
  }

  lemma ScaleBack(c: real, a: Cx)
    requires c != 0.0
    ensures Scale(1.0 / c, Scale(c, a)) == a
  {
    Inverse(c, a.re); Inverse(c, a.im);
  }

  lemma DftScale(x: seq<Cx>, y: seq<Cx>, w: Cx, c: real, s: nat)
    requires |x| == |y| && s < |x|
    requires forall t: nat :: t < |x| ==> y[t] == Scale(c, x[t])
    ensures Dft(y, w)[s] == Scale(c, Dft(x, w)[s])
  {
    hide Mul, CSum, Pow, Scale;
    var z, r := Pow(w, s), Cx(c, 0.0);
    forall t: nat | t < |x| ensures PolyTerm(y, z)(t) == Mul(r, PolyTerm(x, z)(t)) {
      MulReal(x[t], c); MulComm(x[t], r);
      MulAssoc(r, x[t], Pow(z, t));
    }
    CSumMul(|x|, r, PolyTerm(x, z), PolyTerm(y, z));
    MulReal(Dft(x, w)[s], c); MulComm(Dft(x, w)[s], r);
  }

  /** And the transform undoes the inverse. */
  lemma {:induction false} DftOfInverse(Y: seq<Cx>, w: Cx)
    requires Pow2(|Y|) && IsRoot(w, |Y|)
    ensures Dft(Idft(Y, w), w) == Y
  {
    hide Mul, Norm, IsRoot, Dft, Scale, Conj;
    var D := Dft(ConjAll(Y), w);
    forall s: nat | s < |Y| ensures Dft(Idft(Y, w), w)[s] == Y[s] {
      DftScale(ConjAll(D), Idft(Y, w), w, 1.0 / |Y| as real, s);
      DoubleTransform(ConjAll(Y), w, s);
      ConjScale(|Y| as real, Y[s], Dft(ConjAll(D), w)[s]);
      ScaleBack(|Y| as real, Y[s]);
    }
  }

  lemma ConjScale(c: real, a: Cx, b: Cx)
    requires Conj(b) == Scale(c, Conj(a))
    ensures b == Scale(c, a)
  {}

  // ----- Parseval

  ghost function Norms(x: seq<Cx>): int -> real {
    (t: int) => if 0 <= t < |x| then Norm(x[t]) else 0.0
  }

  ghost function CEnergy(x: seq<Cx>): real {
    Sum(|x|, Norms(x))
  }

  /** conj(X[k]) times the (k, t) term of the transform of x. */
  ghost function PowerEntry(x: seq<Cx>, X: seq<Cx>, w: Cx): (int, int) -> Cx {
    (k: int, t: int) =>
      if 0 <= k < |X| && 0 <= t < |x| then Mul(Conj(X[k]), PolyTerm(x, Pow(w, k))(t)) else ZERO
  }

  lemma PowerRow(x: seq<Cx>, w: Cx, k: nat, row: int -> Cx)
    requires k < |x|
    requires forall t: nat :: t < |x| ==> row(t) == PowerEntry(x, Dft(x, w), w)(k, t)
    ensures CSum(|x|, row).re == Norm(Dft(x, w)[k])
  {
    hide Mul, Norm, CSum;
    var X := Dft(x, w);
    CSumMul(|x|, Conj(X[k]), PolyTerm(x, Pow(w, k)), row);
    MulComm(Conj(X[k]), X[k]);
    ConjLaws(X[k], X[k]);
  }

  lemma PowerEntryTransposed(x: seq<Cx>, X: seq<Cx>, w: Cx, k: nat, t: nat)
    requires k < |X| && t < |x|
    ensures PowerEntry(x, X, w)(k, t) == Mul(x[t], PolyTerm(ConjAll(X), Pow(w, t))(k))
  {
    hide Mul, Pow;
    PowPow(w, k, t); PowPow(w, t, k);
    assert k * t == t * k;
    var p := Pow(Pow(w, k), t);
    assert p == Pow(Pow(w, t), k);
    assert ConjAll(X)[k] == Conj(X[k]);
    assert PolyTerm(ConjAll(X), Pow(w, t))(k) == Mul(Conj(X[k]), p);
    assert PolyTerm(x, Pow(w, k))(t) == Mul(x[t], p);
    assert PowerEntry(x, X, w)(k, t) == Mul(Conj(X[k]), Mul(x[t], p));
    MulAssoc(Conj(X[k]), x[t], p); MulComm(Conj(X[k]), x[t]); MulAssoc(x[t], Conj(X[k]), p);
  }

  lemma PowerColumn(x: seq<Cx>, w: Cx, t: nat, col: int -> Cx)
    requires Pow2(|x|) && IsRoot(w, |x|) && t < |x|
    requires forall k: nat :: k < |x| ==> col(k) == PowerEntry(x, Dft(x, w), w)(k, t)
    ensures CSum(|x|, col).re == |x| as real * Norm(x[t])
  {
    hide Mul, Norm, CSum, IsRoot, PowerEntry;
    var X := Dft(x, w);
    var C := Dft(ConjAll(X), w);
    forall k: nat | k < |x| ensures col(k) == Mul(x[t], PolyTerm(ConjAll(X), Pow(w, t))(k)) {
      PowerEntryTransposed(x, X, w, k, t);
    }
    CSumMul(|x|, x[t], PolyTerm(ConjAll(X), Pow(w, t)), col);
    DoubleTransform(x, w, t);
    MulConjScale(|x| as real, x[t], C[t]);
  }

  lemma PowerRows(x: seq<Cx>, w: Cx, F: (int, int) -> Cx)
    requires F == PowerEntry(x, Dft(x, w), w)
    ensures CSum(|x|, (k: int) => CSum(|x|, (t: int) => F(k, t))).re == CEnergy(Dft(x, w))
  {
    hide Mul, Norm, CSum, PowerEntry, Dft;
    var rows := (k: int) => CSum(|x|, (t: int) => F(k, t));
    forall k: nat | k < |x| ensures rows(k).re == Norms(Dft(x, w))(k) {
      PowerRow(x, w, k, (t: int) => F(k, t));
    }
    CSumRe(|x|, rows, Norms(Dft(x, w)));
  }

  lemma PowerColumns(x: seq<Cx>, w: Cx, F: (int, int) -> Cx)
    requires Pow2(|x|) && IsRoot(w, |x|) && F == PowerEntry(x, Dft(x, w), w)
    ensures CSum(|x|, (t: int) => CSum(|x|, (k: int) => F(k, t))).re == |x| as real * CEnergy(x)
  {
    hide Mul, Norm, IsRoot, CSum, PowerEntry, Dft, Pow2;
    var n := |x| as real;
    var cols := (t: int) => CSum(|x|, (k: int) => F(k, t));
    var scaled := ScaledNorms(n, x);
    forall t: nat | t < |x| ensures cols(t).re == scaled(t) {
      PowerColumn(x, w, t, (k: int) => F(k, t));
    }
    CSumRe(|x|, cols, scaled);
    SumScale(|x|, n, Norms(x), scaled);
  }

  ghost function ScaledNorms(c: real, x: seq<Cx>): int -> real {
    (t: int) => if 0 <= t < |x| then c * Norm(x[t]) else 0.0
  }

  /** The transform preserves energy up to the length. */
  lemma {:induction false} Parseval(x: seq<Cx>, w: Cx)
    requires Pow2(|x|) && IsRoot(w, |x|)
    ensures CEnergy(Dft(x, w)) == |x| as real * CEnergy(x)
  {
    hide *;
    var F := PowerEntry(x, Dft(x, w), w);
    PowerRows(x, w, F);
    CSumSwap(|x|, |x|, F);
    PowerColumns(x, w, F);
  }

  lemma MulConjScale(c: real, a: Cx, b: Cx)
    requires Conj(b) == Scale(c, a)
    ensures Mul(a, b).re == c * Norm(a)
  {
    assert b == Cx(c * a.re, -(c * a.im));
    assert a.re * (c * a.re) == c * (a.re * a.re);
    assert a.im * (c * a.im) == c * (a.im * a.im);
  }

  // ----- Real signals

  ghost predicate IsReal(x: seq<Cx>) {
    forall t :: 0 <= t < |x| ==> x[t].im == 0.0
  }

  /** X[n - k] is the conjugate of X[k], and the two self-mirrored bins are real. */
  ghost predicate Symmetric(X: seq<Cx>) {
    && (|X| > 0 ==> X[0].im == 0.0)
    && forall k :: 0 < k < |X| ==> X[|X| - k] == Conj(X[k])
  }

  /** On the unit circle z^(n - k) mirrors z^k when z^n is one. */
  lemma MirrorPower(z: Cx, n: nat, k: nat)
    requires Norm(z) == 1.0 && Pow(z, n) == ONE && k <= n
    ensures Pow(z, n - k) == Conj(Pow(z, k))
  {
    hide Mul, Norm, Conj, Pow;
    PowAdd(z, n - k, k);
    ConjInverse(z, k); PowConj(z, k);
    MulComm(Pow(z, k), Pow(Conj(z), k));
    Cancel(z, Pow(z, n - k), Pow(Conj(z), k), k);
  }

  lemma EvalAtConj(x: seq<Cx>, z: Cx)
    requires IsReal(x)
    ensures Eval(x, Conj(z)) == Conj(Eval(x, z))
  {
    forall t: nat | t < |x| ensures PolyTerm(x, Conj(z))(t) == Conj(PolyTerm(x, z)(t)) {
      hide Mul;
      ConjMul(x[t], Pow(z, t)); PowConj(z, t);
      assert Conj(x[t]) == x[t];
    }
    CSumConj(|x|, PolyTerm(x, z), PolyTerm(x, Conj(z)));
  }

  lemma RealBins(x: seq<Cx>, w: Cx, k: nat)
    requires IsRoot(w, |x|) && IsReal(x) && 0 < k < |x|
    ensures Dft(x, w)[|x| - k] == Conj(Dft(x, w)[k])
  {
    hide Mul, Norm, IsRoot, Eval, Conj, IsReal;
    RootPower(w, |x|);
    MirrorPower(w, |x|, k);
    EvalAtConj(x, Pow(w, k));
  }

  lemma RealFirstBin(x: seq<Cx>, w: Cx)
    requires IsReal(x) && |x| > 0
    ensures Dft(x, w)[0].im == 0.0
  {
    hide Mul, Eval, IsReal;
    EvalAtConj(x, ONE);
    assert Conj(ONE) == ONE && Pow(w, 0) == ONE;
  }

  /** The spectrum of a real signal is conjugate-symmetric. */
  lemma RealHasSymmetricDft(x: seq<Cx>, w: Cx)
    requires Pow2(|x|) && IsRoot(w, |x|) && IsReal(x)
    ensures Symmetric(Dft(x, w))
  {
    hide Dft, IsRoot, IsReal, Pow2, Conj;
    Pow2Positive(|x|);
    forall k | 0 < k < |x| ensures Dft(x, w)[|x| - k] == Conj(Dft(x, w)[k]) { RealBins(x, w, k); }
    RealFirstBin(x, w);
  }

  lemma MirrorTerm(Y: seq<Cx>, z: Cx, k: nat)
    requires Symmetric(Y) && k < |Y| && 0 < |Y|
    requires Norm(z) == 1.0 && Pow(z, |Y|) == ONE
    ensures var m := if k == 0 then 0 else |Y| - k;
      PolyTerm(Y, z)(m) == Conj(PolyTerm(Y, z)(k))
  {
    hide Mul, Norm;
    var n := |Y|;
    if k == 0 {
      MulOne(Y[0]);
      assert Conj(Y[0]) == Y[0];
    } else {
      MirrorPower(z, n, k);
      ConjMul(Y[k], Pow(z, k));
    }
  }

  lemma {:induction false} CSumRotate(n: nat, f: int -> Cx)
    requires n > 0
    ensures CSum(n, f) == Add(f(0), CSum(n - 1, (i: int) => f(i + 1)))
  {
    if n > 1 { CSumRotate(n - 1, f); }
  }

  lemma {:induction false} CSumReverse(n: nat, f: int -> Cx, g: int -> Cx)
    requires forall i :: 0 <= i < n ==> g(i) == f(n - 1 - i)
    ensures CSum(n, f) == CSum(n, g)
  {
    if n > 0 {
      var tail := (i: int) => g(i + 1);
      CSumRotate(n, g);
      CSumReverse(n - 1, f, tail);
    }
  }

  /** A sum whose terms mirror into their conjugates is real. */
  lemma MirroredSum(n: nat, f: int -> Cx)
    requires n > 0 && Conj(f(0)) == f(0)
    requires forall k :: 0 < k < n ==> f(n - k) == Conj(f(k))
    ensures Conj(CSum(n, f)) == CSum(n, f)
  {
    hide Conj, CSum;
    var c := (i: int) => Conj(f(i));
    var tail, ctail := (i: int) => f(i + 1), (i: int) => c(i + 1);
    CSumRotate(n, f); CSumRotate(n, c);
    forall i | 0 <= i < n - 1 ensures ctail(i) == tail(n - 2 - i) {
      assert f(n - (i + 1)) == Conj(f(i + 1));
    }
    CSumReverse(n - 1, tail, ctail);
    CSumExt(n - 1, tail, (i: int) => f(i + 1));
    CSumExt(n - 1, ctail, (i: int) => c(i + 1));
    CSumConj(n, f, c);
  }

  /** A conjugate-symmetric spectrum evaluates to a real number at every root. */
  lemma SymmetricEvalIsReal(Y: seq<Cx>, z: Cx)
    requires Symmetric(Y) && 0 < |Y| && Norm(z) == 1.0 && Pow(z, |Y|) == ONE
    ensures Eval(Y, z).im == 0.0
  {
    hide Mul, Norm, Pow, Symmetric, PolyTerm, CSum;
    var n, f := |Y|, PolyTerm(Y, z);
    MirrorTerm(Y, z, 0);
    forall k | 0 < k < n ensures f(n - k) == Conj(f(k)) { MirrorTerm(Y, z, k); }
    MirroredSum(n, f);
  }

  lemma RootOfOne(w: Cx, n: nat, t: nat)
    requires n > 0 && IsRoot(w, n)
    ensures Norm(Pow(w, t)) == 1.0 && Pow(Pow(w, t), n) == ONE
  {
    hide Mul, Norm;
    RootPower(w, n);
    PowPow(w, t, n); PowPow(w, n, t); PowOne(t);
    assert t * n == n * t;
    NormPow(w, t);
  }

  /** The inverse transform of a conjugate-symmetric spectrum is exactly real. */
  lemma {:induction false} SymmetricHasRealIdft(Y: seq<Cx>, w: Cx)
    requires Pow2(|Y|) && IsRoot(w, |Y|) && Symmetric(Y)
    ensures IsReal(Idft(Y, w))
  {
    hide Mul, Eval, Norm, IsRoot, Pow;
    var C := ConjAll(Y);
    assert Symmetric(C);
    forall t: nat | t < |Y| ensures Idft(Y, w)[t].im == 0.0 {
      var z := Pow(w, t);
      RootOfOne(w, |Y|, t);
      SymmetricEvalIsReal(C, z);
      assert Dft(C, w)[t] == Eval(C, z);
    }
  }

  lemma {:induction false} NormPow(w: Cx, k: nat)
    requires Norm(w) == 1.0
    ensures Norm(Pow(w, k)) == 1.0
  {
    if k > 0 {
      NormPow(w, k - 1);
      NormMul(Pow(w, k - 1), w);
    }
  }
}
