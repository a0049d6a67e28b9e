/** The discrete Fourier transform as a plain sum: roots of unity and the even/odd
    splitting behind the fast form. */
module Fourier {
  import opened Complex
  import opened MathLib

  ghost predicate Pow2(n: nat) {
    n == 1 || (n > 1 && n % 2 == 0 && Pow2(n / 2))
  }

  lemma Pow2Positive(n: nat)
    requires Pow2(n)
    ensures n > 0
  {}

  /** w has the defining property of exp(-2 pi i / n) for a power of two n. */
  ghost predicate IsRoot(w: Cx, n: nat) {
    && Norm(w) == 1.0
    && if n == 1 then w == ONE else n % 2 == 0 && Pow(w, n / 2) == MINUS_ONE
  }

  ghost function PolyTerm(y: seq<Cx>, z: Cx): int -> Cx {
    (t: int) => if 0 <= t < |y| then Mul(y[t], Pow(z, t)) else ZERO
  }

  /** The polynomial with coefficients y at the point z. */
  ghost function Eval(y: seq<Cx>, z: Cx): Cx {
    CSum(|y|, PolyTerm(y, z))
  }

  /** X[k] is the sum over t of y[t] * w^(t k), written as the polynomial y at w^k. */
  ghost function Dft(y: seq<Cx>, w: Cx): (X: seq<Cx>)
    ensures |X| == |y|
  {
    seq(|y|, (k: nat) => Eval(y, Pow(w, k)))
  }

  lemma {:induction false} DftIsTheSum(y: seq<Cx>, w: Cx, k: nat, term: int -> Cx)
    requires k < |y|
    requires forall t: nat :: t < |y| ==> term(t) == Mul(y[t], Pow(w, k * t))
    ensures Dft(y, w)[k] == CSum(|y|, term)
  {
    hide Mul;
    forall t: nat | t < |y| ensures PolyTerm(y, Pow(w, k))(t) == term(t) { PowPow(w, k, t); }
    CSumExt(|y|, PolyTerm(y, Pow(w, k)), term);
  }

  // ----- Roots of unity

  lemma RootPower(w: Cx, n: nat)
    requires n > 0 && IsRoot(w, n)
    ensures Pow(w, n) == ONE && Norm(w) == 1.0
  {
    hide Mul;
    if n == 1 {
      PowOne(1);
    } else {
      assert n == n / 2 + n / 2;
      PowAdd(w, n / 2, n / 2);
      MinusOneSquared();
    }
  }

  lemma RootSquare(w: Cx, h: nat)
    requires h > 0 && IsRoot(w, 2 * h) && Pow2(h)
    ensures IsRoot(Mul(w, w), h)
  {
    NormMul(w, w);
    hide Mul;
    PowSquare(w, h / 2);
    if h == 1 { PowSquare(w, 1); RootPower(w, 2); }
  }

  lemma {:induction false} WlenIsRoot(m: Lib, n: nat)
    requires Lawful(m) && Pow2(n)
    ensures IsRoot(Wlen(m, n), n)
  {
    hide Mul, Norm, Wlen, Lawful;
    WlenLaws(m, n);
    if n == 1 {
      WlenLaws(m, 1);
      MinusOneSquared();
    } else {
      var h, w := n / 2, Wlen(m, n);
      WlenLaws(m, h);
      if h == 1 {
        assert Pow(w, 1) == Mul(Pow(w, 0), w);
        MulOne(w);
      } else {
        WlenIsRoot(m, h);
        PowSquare(w, h / 2);
        assert 2 * (h / 2) == h;
      }
    }
  }

  /** A root of order n has no smaller positive power equal to one. */
  lemma {:induction false} RootIsPrimitive(w: Cx, n: nat, d: nat)
    requires Pow2(n) && IsRoot(w, n) && 0 < d < n
    ensures Pow(w, d) != ONE
    decreases n
  {
    hide Mul;
    var h := n / 2;
    if d % 2 == 1 {
      if Pow(w, d) == ONE {
        PowPow(w, d, h); PowPow(w, h, d);
        assert d * h == h * d;
        PowOne(h);
        PowMinusOne(d);
        assert false;
      }
    } else {
      RootSquare(w, h);
      PowSquare(w, d / 2);
      RootIsPrimitive(Mul(w, w), h, d / 2);
    }
  }

  ghost function Powers(z: Cx): int -> Cx {
    (k: int) => if k >= 0 then Pow(z, k) else ZERO
  }

  lemma {:induction false} Geometric(z: Cx, n: nat)
    ensures Mul(Sub(z, ONE), CSum(n, Powers(z))) == Sub(Pow(z, n), ONE)
  {
    hide Mul;
    var c := Sub(z, ONE);
    if n == 0 {
      MulOne(c);
    } else {
      Geometric(z, n - 1);
      var p := Pow(z, n - 1);
      MulAdd(c, CSum(n - 1, Powers(z)), p);
      MulComm(c, p); MulAdd(p, z, ONE); MulOne(p);
    }
  }

  lemma {:induction false} SumOfOnes(n: nat)
    ensures CSum(n, Powers(ONE)) == Cx(n as real, 0.0)
  {
    hide Mul;
    if n > 0 { SumOfOnes(n - 1); PowOne(n - 1); }
  }

  lemma ConjInverse(w: Cx, k: nat)
    requires Norm(w) == 1.0
    ensures Mul(Pow(w, k), Pow(Conj(w), k)) == ONE
  {
    hide Mul;
    PowMul(w, Conj(w), k);
    ConjLaws(w, w);
    PowOne(k);
  }

  /** Cancelling a power of a root. */
  lemma Cancel(w: Cx, a: Cx, b: Cx, s: nat)
    requires Norm(w) == 1.0 && Mul(a, Pow(w, s)) == Mul(b, Pow(w, s))
    ensures a == b
  {
    hide Mul, Norm;
    var p, q := Pow(w, s), Pow(Conj(w), s);
    ConjInverse(w, s);
    MulAssoc(a, p, q); MulAssoc(b, p, q); MulOne(a); MulOne(b);
  }

  lemma RootsDiffer(w: Cx, n: nat, s: nat, t: nat)
    requires Pow2(n) && IsRoot(w, n) && s < t < n
    ensures Pow(w, t) != Pow(w, s)
  {
    hide Mul, Norm;
    PowAdd(w, t - s, s);
    MulOne(Pow(w, s));
    if Pow(w, t) == Pow(w, s) {
      Cancel(w, Pow(w, t - s), ONE, s);
    }
    RootIsPrimitive(w, n, t - s);
  }

  ghost function Ratio(w: Cx, t: nat, s: nat): Cx {
    Mul(Pow(w, t), Pow(Conj(w), s))
  }

  lemma RatioIsOne(w: Cx, n: nat, t: nat, s: nat)
    requires Pow2(n) && IsRoot(w, n) && t < n && s < n
    ensures Ratio(w, t, s) == ONE <==> t == s
  {
    hide Mul, Norm;
    ConjInverse(w, s);
    if t != s && Ratio(w, t, s) == ONE {
      var p, q := Pow(w, s), Pow(Conj(w), s);
      MulAssoc(Pow(w, t), q, p); MulComm(q, p); MulOne(Pow(w, t)); MulOne(p);
      assert Pow(w, t) == Pow(w, s);
      if t < s { RootsDiffer(w, n, t, s); } else { RootsDiffer(w, n, s, t); }
    }
  }

  lemma RatioPower(w: Cx, n: nat, t: nat, s: nat)
    requires n > 0 && IsRoot(w, n)
    ensures Pow(Ratio(w, t, s), n) == ONE
  {
    hide Mul, Norm;
    RootPower(w, n);
    PowMul(Pow(w, t), Pow(Conj(w), s), n);
    PowPow(w, t, n); PowPow(w, n, t); PowOne(t);
    PowPow(Conj(w), s, n); PowPow(Conj(w), n, s); PowConj(w, n); PowOne(s);
    assert t * n == n * t && s * n == n * s && Conj(ONE) == ONE;
    MulOne(ONE);
  }

  /** Orthogonality of the roots of unity. */
  lemma Orthogonality(w: Cx, n: nat, t: nat, s: nat)
    requires Pow2(n) && IsRoot(w, n) && t < n && s < n
    ensures CSum(n, Powers(Ratio(w, t, s))) == if t == s then Cx(n as real, 0.0) else ZERO
  {
    hide Mul, Norm, Ratio;
    var z := Ratio(w, t, s);
    RatioIsOne(w, n, t, s);
    if t == s {
      SumOfOnes(n);
    } else {
      Geometric(z, n);
      RatioPower(w, n, t, s);
      assert Sub(z, ONE) != ZERO;
      NoZeroDivisors(Sub(z, ONE), CSum(n, Powers(z)));
    }
  }

  // ----- Splitting into even and odd samples

  ghost predicate Interleaves(y: seq<Cx>, ev: seq<Cx>, od: seq<Cx>) {
    && |y| == 2 * |ev| && |od| == |ev|
    && forall t :: 0 <= t < |ev| ==> y[2 * t] == ev[t] && y[2 * t + 1] == od[t]
  }

  lemma SplitTerms(y: seq<Cx>, ev: seq<Cx>, od: seq<Cx>, z: Cx, t: nat)
    requires Interleaves(y, ev, od) && t < |ev|
    ensures PolyTerm(y, z)(2 * t) == PolyTerm(ev, Mul(z, z))(t)
    ensures PolyTerm(y, z)(2 * t + 1) == Mul(z, PolyTerm(od, Mul(z, z))(t))
  {
    hide Mul;
    PowSquare(z, t);
    var p := Pow(z, 2 * t);
    assert Pow(z, 2 * t + 1) == Mul(p, z);
    MulAssoc(od[t], p, z);
    MulComm(Mul(od[t], p), z);
  }

  lemma {:induction false} EvalSplit(y: seq<Cx>, ev: seq<Cx>, od: seq<Cx>, z: Cx, m: nat)
    requires Interleaves(y, ev, od) && m <= |ev|
    ensures CSum(2 * m, PolyTerm(y, z))
         == Add(CSum(m, PolyTerm(ev, Mul(z, z))), Mul(z, CSum(m, PolyTerm(od, Mul(z, z)))))
  {
    hide Mul, PolyTerm, Pow, Interleaves;
    MulOne(z);
    if m > 0 {
      EvalSplit(y, ev, od, z, m - 1);
      SplitTerms(y, ev, od, z, m - 1);
      var P, O := PolyTerm(y, z), PolyTerm(od, Mul(z, z));
      MulAdd(z, CSum(m - 1, O), O(m - 1));
      assert CSum(2 * m - 1, P) == Add(CSum(2 * (m - 1), P), P(2 * (m - 1)));
      assert CSum(2 * m, P) == Add(CSum(2 * m - 1, P), P(2 * (m - 1) + 1));
    }
  }

  /** What one butterfly stage makes of the transforms of the two halves. */
  ghost function Butterfly(E: seq<Cx>, O: seq<Cx>, w: Cx): seq<Cx>
    requires |E| == |O|
  {
    seq(2 * |E|, (k: nat) requires k < 2 * |E| =>
      if k < |E| then Add(E[k], Mul(O[k], Pow(w, k)))
      else Sub(E[k - |E|], Mul(O[k - |E|], Pow(w, k - |E|))))
  }

  lemma UpperHalf(w: Cx, h: nat, k: nat)
    requires h > 0 && IsRoot(w, 2 * h)
    ensures Pow(w, h + k) == Mul(MINUS_ONE, Pow(w, k))
    ensures Mul(Pow(w, h + k), Pow(w, h + k)) == Pow(Mul(w, w), k)
    ensures Mul(Pow(w, k), Pow(w, k)) == Pow(Mul(w, w), k)
  {
    hide Mul, Norm;
    assert (2 * h) / 2 == h;
    PowAdd(w, h, k);
    var p := Pow(w, k);
    MulSwapMiddle(MINUS_ONE, p, MINUS_ONE, p);
    MinusOneSquared();
    PowMul(w, w, k);
    MulOne(Mul(p, p));
  }

  /** The step of the fast transform: a butterfly of two half-size transforms is the
      transform of the interleaved samples. */
  lemma {:induction false} Combine(y: seq<Cx>, ev: seq<Cx>, od: seq<Cx>, w: Cx)
    requires Interleaves(y, ev, od) && |ev| > 0 && IsRoot(w, |y|)
    ensures Butterfly(Dft(ev, Mul(w, w)), Dft(od, Mul(w, w)), w) == Dft(y, w)
  {
    hide Mul, Norm;
    var h := |ev|;
    var E, O := Dft(ev, Mul(w, w)), Dft(od, Mul(w, w));
    forall k: nat | k < h
      ensures Dft(y, w)[k] == Add(E[k], Mul(O[k], Pow(w, k)))
      ensures Dft(y, w)[h + k] == Sub(E[k], Mul(O[k], Pow(w, k)))
    {
      UpperHalf(w, h, k);
      EvalSplit(y, ev, od, Pow(w, k), h);
      EvalSplit(y, ev, od, Pow(w, h + k), h);
      MulComm(O[k], Pow(w, k));
      MulAssoc(MINUS_ONE, Pow(w, k), O[k]);
      MulComm(MINUS_ONE, Mul(Pow(w, k), O[k]));
      MulOne(Mul(Pow(w, k), O[k]));
    }
    assert Butterfly(E, O, w) == Dft(y, w) by {
      forall k: nat | k < 2 * h ensures Butterfly(E, O, w)[k] == Dft(y, w)[k] {
        if k >= h { var j := k - h; assert Dft(y, w)[h + j] == Sub(E[j], Mul(O[j], Pow(w, j))); }
      }
    }
  }

  // ----- The transform in cosines and sines

  ghost function Turn(m: Lib, t: real): Cx {
    Cx(m.cos(t), m.sin(t))
  }

  lemma TurnAdds(m: Lib, t: real, u: real)
    requires Adds(m)
    ensures Mul(Turn(m, t), Turn(m, u)) == Turn(m, t + u)
  {
    assert AddsAt(m, t, u);
  }

  ghost function Multiple(j: nat, t: real): real { j as real * t }

  lemma OneMore(j: nat, t: real)
    requires j > 0
    ensures Multiple(j - 1, t) + t == Multiple(j, t)
  {}

  lemma {:induction false} PowTurn(m: Lib, t: real, j: nat)
    requires Lawful(m) && Adds(m)
    ensures Pow(Turn(m, t), j) == Turn(m, Multiple(j, t))
  {
    hide Lawful, Adds, Mul, Turn, Multiple;
    if j == 0 {
      TurnZero(m, t);
    } else {
      PowTurn(m, t, j - 1);
      TurnAdds(m, Multiple(j - 1, t), t);
      OneMore(j, t);
    }
  }

  lemma TurnZero(m: Lib, t: real)
    requires Lawful(m) && Adds(m)
    ensures Turn(m, Multiple(0, t)) == ONE
  {
    CosZero(m);
    assert Multiple(0, t) == 0.0;
  }

  /** -2 pi j / n. */
  ghost function Angle(pi: real, j: nat, n: nat): real
    requires n > 0
  {
    -2.0 * pi * j as real / n as real
  }

  lemma WlenPower(m: Lib, n: nat, j: nat)
    requires Lawful(m) && Adds(m) && n > 0
    ensures Pow(Wlen(m, n), j) == Turn(m, Angle(m.pi, j, n))
  {
    hide Lawful, Adds;
    var ang := -2.0 * m.pi / n as real;
    PowTurn(m, ang, j);
    assert Multiple(j, ang) == Angle(m.pi, j, n);
  }

  /** At the last stage's root, entry k is the sum over t of y[t] times
      cos(-2 pi k t / n) + i sin(-2 pi k t / n): the discrete Fourier transform with its
      usual sign. */
  lemma {:induction false} DftInSines(m: Lib, y: seq<Cx>, k: nat, term: int -> Cx)
    requires Lawful(m) && Adds(m) && k < |y|
    requires forall t: nat :: t < |y| ==> term(t) == Mul(y[t], Turn(m, Angle(m.pi, k * t, |y|)))
    ensures Dft(y, Wlen(m, |y|))[k] == CSum(|y|, term)
  {
    hide Lawful, Adds, Mul, Dft, Turn, Angle, Wlen;
    forall t: nat | t < |y| ensures term(t) == Mul(y[t], Pow(Wlen(m, |y|), k * t)) {
      WlenPower(m, |y|, k * t);
    }
    DftIsTheSum(y, Wlen(m, |y|), k, term);
  }
}
