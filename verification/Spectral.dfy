/** Spectral subtraction on whole spectra: windowing, the Wiener-like gain, and the
    gain-and-mirror step, with the facts that make the suppressor safe. */
module Spectral {
  import opened Sums
  import opened Complex
  import opened MathLib
  import opened Fourier
  import opened FourierInverse

  const WINDOW: nat := 160
  const OVER_SUBTRACT := 1.5
  const SPEC_FLOOR := 0.05
  const NOISE_ALPHA := 0.95
  const TINY := 0.000000000001

  function Max(a: real, b: real): real { if a >= b then a else b }

  function MinNat(a: nat, b: nat): nat { if a <= b then a else b }

  function Hann(m: Lib, i: int): real {
    0.5 * (1.0 - m.cos(2.0 * m.pi * i as real / (WINDOW - 1) as real))
  }

  lemma HannBound(m: Lib, i: int)
    requires Lawful(m)
    ensures 0.0 <= Hann(m, i) <= 1.0
  {
    CosBound(m, 2.0 * m.pi * i as real / (WINDOW - 1) as real);
  }

  /** The window is the square of half a sine wave. */
  lemma HannIsSquaredSine(m: Lib, i: int)
    requires Lawful(m)
    ensures var s := m.sin(m.pi * i as real / 159.0); Hann(m, i) == s * s
  {
    var t, u := m.pi * i as real / 159.0, 2.0 * m.pi * i as real / (WINDOW - 1) as real;
    assert u == t + t;
    assert m.cos(u) == m.cos(t) * m.cos(t) - m.sin(t) * m.sin(t);
  }

  /** The frame times the window, zero-padded to n samples. */
  ghost function Windowed(m: Lib, frame: seq<real>, n: nat): (x: seq<Cx>)
    ensures |x| == n && IsReal(x)
  {
    seq(n, (t: nat) =>
      if t < MinNat(|frame|, WINDOW) then Cx(At(frame, t) * Hann(m, t), 0.0) else ZERO)
  }

  function Gain(m: Lib, power: real, noise: real): real
    requires power >= 0.0
  {
    Max(SPEC_FLOOR, m.sqrt(Max(0.0, 1.0 - OVER_SUBTRACT * noise / (power + TINY))))
  }

  lemma GainBound(m: Lib, power: real, noise: real)
    requires Lawful(m) && power >= 0.0 && noise >= 0.0
    ensures SPEC_FLOOR <= Gain(m, power, noise) <= 1.0
  {
    var q := OVER_SUBTRACT * noise / (power + TINY);
    assert q >= 0.0 by { QuotientNonneg(OVER_SUBTRACT * noise, power + TINY); }
    SqrtBound(m, Max(0.0, 1.0 - q));
  }

  /** The gain Boll's rule asks for: its square times the power leaves the power less 1.5
      times the noise, unless that is below the floor, where the gain is 0.05. */
  ghost predicate IsGain(g: real, power: real, noise: real) {
    if 1.5 * noise <= 0.9975 * (power + 0.000000000001)
    then g >= 0.0 && g * g * (power + 0.000000000001) == power + 0.000000000001 - 1.5 * noise
    else g == 0.05
  }

  lemma GainLaw(m: Lib, power: real, noise: real)
    requires Lawful(m) && power >= 0.0 && noise >= 0.0
    ensures IsGain(Gain(m, power, noise), power, noise)
  {
    var p := power + TINY;
    var q := OVER_SUBTRACT * noise / p;
    assert q * p == 1.5 * noise;
    var x := Max(0.0, 1.0 - q);
    if 1.5 * noise <= 0.9975 * p {
      CancelRight(p, q, 0.9975);
      AtLeastRoot(m.sqrt(x), 0.05, x);
      assert (1.0 - q) * p == p - 1.5 * noise;
    } else {
      if q <= 0.9975 { ScaleUp(p, q, 0.9975); }
      AtMostRoot(m.sqrt(x), 0.05, x);
    }
  }

  lemma CancelRight(p: real, a: real, b: real)
    requires p > 0.0 && a * p <= b * p
    ensures a <= b
  {}

  lemma ScaleUp(p: real, a: real, b: real)
    requires p > 0.0 && a <= b
    ensures a * p <= b * p
  {}

  lemma AtLeastRoot(s: real, f: real, x: real)
    requires s >= 0.0 && f >= 0.0 && s * s == x && x >= f * f
    ensures s >= f
  {
    if s < f { ShrinkTo(s, f); }
  }

  lemma AtMostRoot(s: real, f: real, x: real)
    requires s >= 0.0 && f >= 0.0 && s * s == x && x <= f * f
    ensures s <= f
  {
    if s > f { ShrinkTo(f, s); }
  }

  lemma ShrinkTo(s: real, f: real)
    requires 0.0 <= s < f
    ensures s * s < f * f
  {
    var d, t := f - s, f + s;
    assert d > 0.0 && t > 0.0;
    assert f * f - s * s == d * t;
    assert d * t > 0.0;
  }

  lemma QuotientNonneg(a: real, b: real)
    requires a >= 0.0 && b > 0.0
    ensures a / b >= 0.0
  {}

  /** Bin k and its mirror image share the gain of the lower one. */
  function Fold(n: nat, k: nat): nat
    requires k <= n
  {
    MinNat(k, n - k)
  }

  /** Every bin scaled by the gain of the bin it folds to. */
  ghost function Shaped(X: seq<Cx>, gain: int -> real): (Y: seq<Cx>)
    ensures |Y| == |X|
  {
    seq(|X|, (k: nat) requires k < |X| => Scale(gain(Fold(|X|, k)), X[k]))
  }

  lemma ShapedIsSymmetric(X: seq<Cx>, gain: int -> real)
    requires Symmetric(X)
    ensures Symmetric(Shaped(X, gain))
  {
    var n, Y := |X|, Shaped(X, gain);
    if n > 0 {
      assert Fold(n, 0) == 0;
      assert Y[0] == Scale(gain(Fold(n, 0)), X[0]);
    }
    forall k | 0 < k < n ensures Y[n - k] == Conj(Y[k]) {
      assert Fold(n, n - k) == Fold(n, k);
      assert Y[n - k] == Scale(gain(Fold(n, k)), Conj(X[k]));
    }
  }

  lemma ShapedBin(X: seq<Cx>, gain: int -> real, k: nat)
    requires k < |X| && 0.0 <= gain(Fold(|X|, k)) <= 1.0
    ensures Norm(Shaped(X, gain)[k]) <= Norm(X[k])
  {
    hide Norm, Scale;
    var g := gain(Fold(|X|, k));
    NormScale(g, X[k]);
    ShrinkProduct(g, g);
    ShrinkProduct(g * g, Norm(X[k]));
  }

  lemma ShapedEnergy(X: seq<Cx>, gain: int -> real)
    requires forall k :: 0 <= k <= |X| / 2 ==> 0.0 <= gain(k) <= 1.0
    ensures CEnergy(Shaped(X, gain)) <= CEnergy(X)
  {
    hide Norm, Shaped;
    forall k | 0 <= k < |X| ensures Norms(Shaped(X, gain))(k) <= Norms(X)(k) {
      assert Fold(|X|, k) <= |X| / 2;
      ShapedBin(X, gain, k);
    }
    SumMono(|X|, Norms(Shaped(X, gain)), Norms(X));
  }

  lemma IdftBin(Y: seq<Cx>, w: Cx, k: nat)
    requires k < |Y|
    ensures var d := 1.0 / |Y| as real;
      Norm(Idft(Y, w)[k]) == d * d * Norm(Dft(ConjAll(Y), w)[k])
  {
    hide Norm, Scale, Conj, Dft;
    var D := Dft(ConjAll(Y), w);
    NormScale(1.0 / |Y| as real, Conj(D[k]));
    ConjLaws(D[k], D[k]);
  }

  ghost predicate Times(a: real, c: real, b: real) {
    a == c * b
  }

  lemma IsTimes(a: real, c: real, b: real)
    requires a == c * b
    ensures Times(a, c, b)
  {}

  ghost function InverseSquare(n: real): real
    requires n != 0.0
  {
    1.0 / n * (1.0 / n)
  }

  lemma IdftNorms(Y: seq<Cx>, w: Cx, c: real)
    requires |Y| > 0 && c == InverseSquare(|Y| as real)
    ensures Times(CEnergy(Idft(Y, w)), c, CEnergy(Dft(ConjAll(Y), w)))
  {
    hide Norm, Dft, Idft;
    forall k | 0 <= k < |Y| ensures Norms(Idft(Y, w))(k) == c * Norms(Dft(ConjAll(Y), w))(k) {
      IdftBin(Y, w, k);
    }
    SumScale(|Y|, c, Norms(Dft(ConjAll(Y), w)), Norms(Idft(Y, w)));
  }

  lemma ConjAllEnergy(Y: seq<Cx>)
    ensures CEnergy(ConjAll(Y)) == CEnergy(Y)
  {
    hide Norm;
    forall k | 0 <= k < |Y| ensures Norms(ConjAll(Y))(k) == Norms(Y)(k) { ConjLaws(Y[k], Y[k]); }
    SumExt(|Y|, Norms(ConjAll(Y)), Norms(Y));
  }

  lemma ConjAllParseval(Y: seq<Cx>, w: Cx)
    requires Pow2(|Y|) && IsRoot(w, |Y|)
    ensures Times(CEnergy(Dft(ConjAll(Y), w)), |Y| as real, CEnergy(Y))
  {
    hide Pow2, IsRoot, CEnergy, Dft, ConjAll, Times;
    var e, n := CEnergy(Y), |Y| as real;
    Parseval(ConjAll(Y), w);
    ConjAllEnergy(Y);
    IsTimes(CEnergy(Dft(ConjAll(Y), w)), n, e);
  }

  /** Parseval for the inverse transform. */
  lemma IdftEnergy(Y: seq<Cx>, w: Cx)
    requires Pow2(|Y|) && IsRoot(w, |Y|)
    ensures |Y| as real * CEnergy(Idft(Y, w)) == CEnergy(Y)
  {
    hide *;
    Pow2Positive(|Y|);
    var n := |Y| as real;
    var c := InverseSquare(n);
    IdftNorms(Y, w, c);
    ConjAllParseval(Y, w);
    UndoScale(n, c, CEnergy(Idft(Y, w)), CEnergy(Dft(ConjAll(Y), w)), CEnergy(Y));
  }

  lemma UndoScale(n: real, c: real, a: real, b: real, e: real)
    requires n > 0.0 && c == InverseSquare(n) && Times(a, c, b) && Times(b, n, e)
    ensures n * a == e
  {
    var d := 1.0 / n;
    assert d * n == 1.0;
    assert c * (n * n) == d * n * (d * n);
    TimesOne(c * (n * n), e);
    assert n * (c * (n * e)) == c * (n * n) * e;
  }

  /** Shaping with gains at most one and going back to the time domain never adds
      energy. */
  lemma ShapedSignalEnergy(x: seq<Cx>, w: Cx, gain: int -> real)
    requires Pow2(|x|) && IsRoot(w, |x|)
    requires forall k :: 0 <= k <= |x| / 2 ==> 0.0 <= gain(k) <= 1.0
    ensures CEnergy(Idft(Shaped(Dft(x, w), gain), w)) <= CEnergy(x)
  {
    hide IsRoot, CEnergy, Dft, Shaped, Idft;
    var X := Dft(x, w);
    var Y := Shaped(X, gain);
    ShapedEnergy(X, gain);
    Parseval(x, w);
    IdftEnergy(Y, w);
    CancelLeft(|x| as real, CEnergy(Idft(Y, w)), CEnergy(x));
  }

  lemma WindowedSample(m: Lib, frame: seq<real>, n: nat, t: nat)
    requires Lawful(m) && t < n
    ensures Norm(Windowed(m, frame, n)[t]) <= At(frame, t) * At(frame, t)
  {
    hide Lawful, Hann, Norm;
    HannBound(m, t);
    var f, h, x := At(frame, t), Hann(m, t), Windowed(m, frame, n);
    if t < MinNat(|frame|, WINDOW) {
      WindowedNorm(f, h, x[t]);
    } else {
      SquareNonneg(f);
      RealNorm(0.0);
      assert x[t] == Cx(0.0, 0.0);
    }
  }

  lemma WindowedNorm(f: real, h: real, c: Cx)
    requires 0.0 <= h <= 1.0 && c == Cx(f * h, 0.0)
    ensures Norm(c) <= f * f
  {
    hide *;
    var r := f * h;
    ShrinkSquare(f, h, r);
    RealNorm(r);
  }

  lemma RealNorm(r: real)
    ensures Norm(Cx(r, 0.0)) == r * r
  {}

  lemma ShrinkSquare(f: real, h: real, r: real)
    requires 0.0 <= h <= 1.0 && r == f * h
    ensures 0.0 <= r * r <= f * f
  {
    var p, q := f * f, h * h;
    SquareNonneg(f); ShrinkProduct(h, h); ShrinkProduct(q, p);
    SquareOfProduct(f, h, r, p, q);
  }

  lemma SquareOfProduct(f: real, h: real, r: real, p: real, q: real)
    requires r == f * h && p == f * f && q == h * h
    ensures r * r == q * p
  {}

  lemma SquareOutside(s: seq<real>, k: int)
    requires k >= |s|
    ensures Square(s)(k) == 0.0
  {
    assert At(s, k) == 0.0;
  }

  lemma WindowedEnergy(m: Lib, frame: seq<real>, n: nat)
    requires Lawful(m) && |frame| <= n
    ensures CEnergy(Windowed(m, frame, n)) <= Energy(frame)
  {
    hide Lawful, Hann, Norm, Windowed, Sum, At;
    var x := Windowed(m, frame, n);
    forall t | 0 <= t < n ensures Norms(x)(t) <= Square(frame)(t) {
      WindowedSample(m, frame, n, t);
    }
    SumMono(n, Norms(x), Square(frame));
    var rest := (t: int) => Square(frame)(|frame| + t);
    SumSplit(|frame|, n - |frame|, Square(frame), rest);
    forall t | 0 <= t < n - |frame| ensures rest(t) == 0.0 { SquareOutside(frame, |frame| + t); }
    SumZero(n - |frame|, rest);
  }

  /** The real parts of the first samples. */
  ghost function RealParts(y: seq<Cx>, count: nat): (r: seq<real>)
    requires count <= |y|
    ensures |r| == count
  {
    seq(count, (t: nat) requires t < count => y[t].re)
  }

  lemma RealPartsEnergy(y: seq<Cx>, count: nat)
    requires count <= |y|
    ensures Energy(RealParts(y, count)) <= CEnergy(y)
  {
    var out := RealParts(y, count);
    forall t | 0 <= t < count ensures Square(out)(t) <= Norms(y)(t) {
      assert y[t].im * y[t].im >= 0.0;
    }
    SumMono(count, Square(out), Norms(y));
    var rest := (t: int) => Norms(y)(count + t);
    forall t | 0 <= t < |y| - count ensures rest(t) >= 0.0 { NormZero(y[count + t]); }
    SumSplit(count, |y| - count, Norms(y), rest);
    SumNonneg(|y| - count, rest);
  }

  // ----- One frame through the suppressor, on values

  datatype Noise = Noise(psd: seq<real>, initCount: int, reductionDb: real)

  ghost function Bins(n: nat): nat { n / 2 + 1 }

  ghost function Spectrum(m: Lib, frame: seq<real>, n: nat): (X: seq<Cx>)
    requires n > 0
    ensures |X| == n
  {
    Dft(Windowed(m, frame, n), Wlen(m, n))
  }

  /** The gain curve a spectrum gets under a noise estimate. */
  ghost function Gains(m: Lib, X: seq<Cx>, psd: seq<real>): int -> real {
    (k: int) => if 0 <= k < |X| && k < |psd| && Norm(X[k]) >= 0.0 then Gain(m, Norm(X[k]), psd[k]) else 0.0
  }

  ghost predicate ValidPsd(psd: seq<real>, n: nat) {
    |psd| == Bins(n) && forall k :: 0 <= k < |psd| ==> psd[k] >= 0.0
  }

  /** What the suppressor makes of a frame under the (already updated) estimate. */
  ghost function Cleaned(m: Lib, psd: seq<real>, frame: seq<real>, n: nat): (out: seq<real>)
    requires n > 0 && |frame| <= n
    ensures |out| == |frame|
  {
    var X := Spectrum(m, frame, n);
    RealParts(Idft(Shaped(X, Gains(m, X, psd)), Wlen(m, n)), |frame|)
  }

  lemma GainsBound(m: Lib, X: seq<Cx>, psd: seq<real>)
    requires Lawful(m) && |X| > 0 && ValidPsd(psd, |X|)
    ensures forall k :: 0 <= k <= |X| / 2 ==> k < |X| ==> SPEC_FLOOR <= Gains(m, X, psd)(k) <= 1.0
  {
    forall k | 0 <= k <= |X| / 2 && k < |X| ensures SPEC_FLOOR <= Gains(m, X, psd)(k) <= 1.0 {
      NormZero(X[k]);
      GainBound(m, Norm(X[k]), psd[k]);
    }
  }

  /** The suppressor never adds energy, whatever the noise estimate. */
  lemma {:induction false} NeverAddsEnergy(m: Lib, psd: seq<real>, frame: seq<real>, n: nat)
    requires Lawful(m) && Pow2(n) && n > 1 && |frame| <= n && ValidPsd(psd, n)
    ensures Energy(Cleaned(m, psd, frame, n)) <= Energy(frame)
  {
    hide Lawful, CEnergy, Idft, Dft, Pow2, Energy, IsRoot, Wlen;
    var x, w, X := Windowed(m, frame, n), Wlen(m, n), Spectrum(m, frame, n);
    WlenIsRoot(m, n);
    GainsBound(m, X, psd);
    ShapedSignalEnergy(x, w, Gains(m, X, psd));
    WindowedEnergy(m, frame, n);
    RealPartsEnergy(Idft(Shaped(X, Gains(m, X, psd)), w), |frame|);
  }

  /** The signal before `.real()` is taken is exactly real, so nothing is dropped. */
  lemma {:induction false} NothingDropped(m: Lib, psd: seq<real>, frame: seq<real>, n: nat)
    requires Lawful(m) && n > 0 && Pow2(n)
    ensures var X := Spectrum(m, frame, n);
      Symmetric(X) && IsReal(Idft(Shaped(X, Gains(m, X, psd)), Wlen(m, n)))
  {
    hide Lawful, Idft, Dft, Pow2, IsRoot, Wlen, Shaped, Symmetric;
    var X := Spectrum(m, frame, n);
    WlenIsRoot(m, n);
    RealHasSymmetricDft(Windowed(m, frame, n), Wlen(m, n));
    ShapedIsSymmetric(X, Gains(m, X, psd));
    SymmetricHasRealIdft(Shaped(X, Gains(m, X, psd)), Wlen(m, n));
  }

  // ----- What the suppressor does to each bin

  /** Bin Y is bin X under the gain Boll's rule asks for. */
  ghost predicate SubtractedBin(Y: Cx, X: Cx, noise: real) {
    exists g :: IsGain(g, Norm(X), noise) && Y == Scale(g, X)
  }

  /** So its power is that of X less 1.5 times the noise in proportion, and at the floor
      1/400 of it. */
  lemma SubtractedPower(Y: Cx, X: Cx, noise: real)
    requires SubtractedBin(Y, X, noise)
    ensures if 1.5 * noise <= 0.9975 * (Norm(X) + TINY)
      then Norm(Y) * (Norm(X) + TINY) == Norm(X) * (Norm(X) + TINY - 1.5 * noise)
      else Norm(Y) == 0.0025 * Norm(X)
  {
    hide Norm, Scale;
    var g :| IsGain(g, Norm(X), noise) && Y == Scale(g, X);
    NormScale(g, X);
    var P, p := Norm(X), Norm(X) + TINY;
    assert g * g * P * p == P * (g * g * p);
  }

  lemma MirroredNorm(X: seq<Cx>, k: nat)
    requires Symmetric(X) && k < |X|
    ensures Fold(|X|, k) < |X| && Norm(X[Fold(|X|, k)]) == Norm(X[k])
  {
    if k > 0 { ConjLaws(X[k], X[k]); }
  }

  lemma ShapedBinLaw(m: Lib, X: seq<Cx>, psd: seq<real>, k: nat)
    requires Lawful(m) && Symmetric(X) && ValidPsd(psd, |X|) && k < |X|
    ensures Fold(|X|, k) < |psd| && SubtractedBin(Shaped(X, Gains(m, X, psd))[k], X[k], psd[Fold(|X|, k)])
  {
    hide Lawful, Norm, Gain, IsGain, Scale, Symmetric;
    var f := Fold(|X|, k);
    MirroredNorm(X, k);
    NormZero(X[f]);
    GainLaw(m, Norm(X[f]), psd[f]);
  }

  /** Sample by sample: the frame's first 160 samples under a squared sine, then zeros. */
  lemma WindowedSpelledOut(m: Lib, frame: seq<real>, n: nat, t: nat)
    requires Lawful(m) && t < n
    ensures var s := m.sin(m.pi * t as real / 159.0);
      Windowed(m, frame, n)[t] == if t < 160 && t < |frame| then Cx(frame[t] * (s * s), 0.0) else Cx(0.0, 0.0)
  {
    hide Lawful, Hann;
    HannIsSquaredSine(m, t);
  }

  /** The cleaned frame is the start of a real signal, as long as the transform, whose
      spectrum is that of the windowed frame with Boll's rule applied to every bin. */
  lemma {:induction false} CleanedSpectrum(m: Lib, psd: seq<real>, frame: seq<real>, n: nat) returns (y: seq<Cx>)
    requires Lawful(m) && Pow2(n) && n > 1 && |frame| <= n && ValidPsd(psd, n)
    ensures |y| == n && IsReal(y) && forall t :: 0 <= t < |frame| ==> Cleaned(m, psd, frame, n)[t] == y[t].re
    ensures forall k: nat :: k < n ==> SubtractedBin(Dft(y, Wlen(m, n))[k], Spectrum(m, frame, n)[k], At(psd, Fold(n, k)))
  {
    hide Lawful, Idft, Dft, Pow2, IsRoot, Wlen, Shaped, Symmetric, SubtractedBin;
    var X, w := Spectrum(m, frame, n), Wlen(m, n);
    var Y := Shaped(X, Gains(m, X, psd));
    y := Idft(Y, w);
    WlenIsRoot(m, n);
    NothingDropped(m, psd, frame, n);
    DftOfInverse(Y, w);
    forall k: nat | k < n ensures SubtractedBin(Dft(y, w)[k], X[k], At(psd, Fold(n, k))) {
      ShapedBinLaw(m, X, psd, k);
    }
  }
}
