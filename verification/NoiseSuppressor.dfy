/** The CPU path of the noise suppressor: an object holding the noise estimate, and the
    in-place steps one frame goes through. */
module NoiseSuppression {
  import opened Sums
  import opened Complex
  import opened MathLib
  import opened Fourier
  import opened FourierInverse
  import opened Spectral
  import opened Fft

  const FFT_SIZE: nat := 512
  const INIT_FRAMES := 5
  const VAD_SNR_THRESH := 3.0
  const INITIAL_PSD := 0.000001

  // ----- The step on values

  ghost function BinPower(X: seq<Cx>): int -> real {
    (k: int) => if 0 <= k < |X| then Norm(X[k]) else 0.0
  }

  ghost function Level(psd: seq<real>): int -> real {
    (k: int) => At(psd, k)
  }

  ghost function ShapedPower(X: seq<Cx>, gain: int -> real): int -> real {
    (k: int) => gain(k) * gain(k) * BinPower(X)(k)
  }

  function Decibels(m: Lib, a: real, b: real): real
    requires a >= 0.0 && b >= 0.0
  {
    10.0 * m.log10((a + TINY) / (b + TINY))
  }

  ghost function Smoothed(psd: seq<real>, X: seq<Cx>): (r: seq<real>)
    ensures |r| == |psd|
  {
    seq(|psd|, (k: nat) requires k < |psd| =>
      NOISE_ALPHA * psd[k] + (1.0 - NOISE_ALPHA) * BinPower(X)(k))
  }

  lemma SumsNonneg(X: seq<Cx>, psd: seq<real>, gain: int -> real, bins: nat)
    requires bins <= |psd| && forall k :: 0 <= k < |psd| ==> psd[k] >= 0.0
    ensures Sum(bins, BinPower(X)) >= 0.0 && Sum(bins, Level(psd)) >= 0.0
    ensures Sum(bins, ShapedPower(X, gain)) >= 0.0
  {
    hide Norm;
    forall k | 0 <= k < bins ensures BinPower(X)(k) >= 0.0 && ShapedPower(X, gain)(k) >= 0.0 {
      if k < |X| { NormZero(X[k]); }
      SquareNonneg(gain(k));
      NonnegProduct(gain(k) * gain(k), BinPower(X)(k));
    }
    SumNonneg(bins, BinPower(X)); SumNonneg(bins, Level(psd)); SumNonneg(bins, ShapedPower(X, gain));
  }

  ghost predicate IsNoiseOnly(m: Lib, st: Noise, X: seq<Cx>)
    requires ValidPsd(st.psd, |X|)
  {
    SumsNonneg(X, st.psd, BinPower(X), Bins(|X|));
    st.initCount < INIT_FRAMES
    || Decibels(m, Sum(Bins(|X|), BinPower(X)), Sum(Bins(|X|), Level(st.psd))) < VAD_SNR_THRESH
  }

  ghost function NextPsd(m: Lib, st: Noise, X: seq<Cx>): (psd: seq<real>)
    requires ValidPsd(st.psd, |X|)
    ensures ValidPsd(psd, |X|)
  {
    if IsNoiseOnly(m, st, X) then
      SmoothedIsValid(st.psd, X);
      Smoothed(st.psd, X)
    else st.psd
  }

  lemma SmoothedIsValid(psd: seq<real>, X: seq<Cx>)
    requires ValidPsd(psd, |X|)
    ensures ValidPsd(Smoothed(psd, X), |X|)
  {
    hide Norm;
    forall k | 0 <= k < |psd| ensures Smoothed(psd, X)[k] >= 0.0 {
      if k < |X| { NormZero(X[k]); }
      NonnegProduct(NOISE_ALPHA, psd[k]);
      NonnegProduct(1.0 - NOISE_ALPHA, BinPower(X)(k));
    }
  }

  /** The suppressor's state after the frame with spectrum X. */
  ghost function NextNoise(m: Lib, st: Noise, X: seq<Cx>): (r: Noise)
    requires ValidPsd(st.psd, |X|)
    ensures ValidPsd(r.psd, |X|)
  {
    var psd := NextPsd(m, st, X);
    var count := if st.initCount < INIT_FRAMES then st.initCount + 1 else st.initCount;
    var inPower, outPower := Sum(Bins(|X|), BinPower(X)), Sum(Bins(|X|), ShapedPower(X, Gains(m, X, psd)));
    SumsNonneg(X, psd, Gains(m, X, psd), Bins(|X|));
    Noise(psd, count, if inPower > TINY then Decibels(m, inPower, outPower) else st.reductionDb)
  }

  ghost function InitialNoise(): (r: Noise)
    ensures ValidPsd(r.psd, FFT_SIZE)
  {
    Noise(seq(FFT_SIZE / 2 + 1, _ => INITIAL_PSD), 0, 0.0)
  }

  // ----- What is learned over a run

  ghost predicate AllOfSize(Xs: seq<seq<Cx>>, n: nat) {
    forall i :: 0 <= i < |Xs| ==> |Xs[i]| == n
  }

  /** The state after spectra Xs, oldest first. */
  ghost function NoiseAfter(m: Lib, st: Noise, Xs: seq<seq<Cx>>, n: nat): (r: Noise)
    requires ValidPsd(st.psd, n) && AllOfSize(Xs, n)
    ensures ValidPsd(r.psd, n)
    decreases |Xs|
  {
    if Xs == [] then st
    else NextNoise(m, NoiseAfter(m, st, Xs[..|Xs| - 1], n), Xs[|Xs| - 1])
  }

  ghost function PowersAt(Xs: seq<seq<Cx>>, k: nat): (r: seq<real>)
    ensures |r| == |Xs|
  {
    seq(|Xs|, (i: nat) requires i < |Xs| => BinPower(Xs[i])(k))
  }

  /** The first five frames after a start are learned whatever their level: each bin is
      then the exponential average of the initial 10^-6 and their powers. */
  lemma {:induction false} Bootstrap(m: Lib, Xs: seq<seq<Cx>>, k: nat)
    requires AllOfSize(Xs, FFT_SIZE) && |Xs| <= 5 && k < Bins(FFT_SIZE)
    ensures var r := NoiseAfter(m, InitialNoise(), Xs, FFT_SIZE);
      r.initCount == |Xs| && r.psd[k] == Averaged(0.000001, PowersAt(Xs, k))
    decreases |Xs|
  {
    hide BinPower, Averaged, Decibels, Gains, ShapedPower, PowersAt;
    if Xs == [] {
      AveragedNothing(0.000001, PowersAt(Xs, k));
    } else {
      var front, X := Xs[..|Xs| - 1], Xs[|Xs| - 1];
      Bootstrap(m, front, k);
      AveragedStep(0.000001, PowersAt(front, k), BinPower(X)(k));
      PowersAtLast(Xs, k);
    }
  }

  lemma PowersAtLast(Xs: seq<seq<Cx>>, k: nat)
    requires Xs != []
    ensures PowersAt(Xs, k) == PowersAt(Xs[..|Xs| - 1], k) + [BinPower(Xs[|Xs| - 1])(k)]
  {
    hide BinPower;
  }

  lemma ThreeDecibels(m: Lib, a: real, b: real, t: real)
    requires GrowingLog(m) && a > 0.0 && b > 0.0 && t > 0.0 && 10.0 * m.log10(t) == 3.0
    ensures 10.0 * m.log10(a / b) < 3.0 <==> a < t * b
  {
    var q := a / b;
    assert q * b == a;
    PositiveQuotient(a, b);
    CompareScaled(q, t, b);
    if q < t { assert m.log10(q) < m.log10(t); } else if t < q { assert m.log10(t) < m.log10(q); }
  }

  /** The decision: a frame is learned during the first five, and later if and only if its
      power is below that of the estimate times three decibels. */
  lemma LearnsIff(m: Lib, st: Noise, X: seq<Cx>, threeDb: real, k: nat)
    requires ValidPsd(st.psd, |X|) && k < |st.psd|
    requires GrowingLog(m) && threeDb > 0.0 && 10.0 * m.log10(threeDb) == 3.0
    ensures NextNoise(m, st, X).psd[k] ==
      if st.initCount < 5
         || Sum(|st.psd|, BinPower(X)) + TINY < threeDb * (Sum(|st.psd|, Level(st.psd)) + TINY)
      then 0.95 * st.psd[k] + 0.05 * BinPower(X)(k)
      else st.psd[k]
  {
    hide BinPower, Level, Sum, Gains, ShapedPower, GrowingLog;
    SumsNonneg(X, st.psd, BinPower(X), Bins(|X|));
    ThreeDecibels(m, Sum(|st.psd|, BinPower(X)) + TINY, Sum(|st.psd|, Level(st.psd)) + TINY, threeDb);
  }

  /** No bin gains power, so the reported reduction is never negative. */
  lemma {:induction false} ReductionNonneg(m: Lib, st: Noise, X: seq<Cx>)
    requires Lawful(m) && GrowingLog(m) && |X| > 1 && ValidPsd(st.psd, |X|) && st.reductionDb >= 0.0
    ensures NextNoise(m, st, X).reductionDb >= 0.0
  {
    hide Lawful, GrowingLog, Norm, NextPsd, Gains, Sum;
    var psd := NextPsd(m, st, X);
    var gain := Gains(m, X, psd);
    SumsNonneg(X, psd, gain, Bins(|X|));
    GainsBound(m, X, psd);
    forall k | 0 <= k < Bins(|X|) ensures ShapedPower(X, gain)(k) <= BinPower(X)(k) {
      NormZero(X[k]);
      var g := gain(k);
      ShrinkProduct(g, g); ShrinkProduct(g * g, BinPower(X)(k));
    }
    SumMono(Bins(|X|), ShapedPower(X, gain), BinPower(X));
    LogSign(m, Sum(Bins(|X|), BinPower(X)) + TINY, Sum(Bins(|X|), ShapedPower(X, gain)) + TINY);
  }

  // ----- The in-place steps

  method PowerSpectrum(X: array<Cx>) returns (power: array<real>, energy: real)
    requires X.Length >= 2
    ensures fresh(power) && power.Length == Bins(X.Length)
    ensures forall k :: 0 <= k < power.Length ==> power[k] == BinPower(X[..])(k)
    ensures energy == Sum(Bins(X.Length), BinPower(X[..]))
  {
    hide Norm;
    var bins := X.Length / 2 + 1;
    power := new real[bins];
    energy := 0.0;
    var k := 0;
    while k < bins
      invariant 0 <= k <= bins
      invariant forall i :: 0 <= i < k ==> power[i] == BinPower(X[..])(i)
      invariant energy == Sum(k, BinPower(X[..]))
    {
      power[k] := Norm(X[k]);
      energy := energy + power[k];
      k := k + 1;
    }
  }

  method Total(a: array<real>) returns (sum: real)
    ensures sum == Sum(a.Length, Level(a[..]))
  {
    sum := 0.0;
    for k := 0 to a.Length
      invariant sum == Sum(k, Level(a[..]))
    {
      sum := sum + a[k];
    }
  }

  method SmoothInPlace(psd: array<real>, power: array<real>, ghost X: seq<Cx>)
    requires psd != power && psd.Length == power.Length
    requires forall k :: 0 <= k < power.Length ==> power[k] == BinPower(X)(k)
    modifies psd
    ensures psd[..] == Smoothed(old(psd[..]), X)
  {
    hide BinPower;
    var k := 0;
    while k < psd.Length
      invariant 0 <= k <= psd.Length
      invariant forall i :: 0 <= i < psd.Length ==>
        psd[i] == if i < k then NOISE_ALPHA * old(psd[i]) + (1.0 - NOISE_ALPHA) * power[i] else old(psd[i])
    {
      psd[k] := NOISE_ALPHA * psd[k] + (1.0 - NOISE_ALPHA) * power[k];
      k := k + 1;
    }
  }

  /** Bin i once the gains of the bins below k, and their mirror images, are applied. */
  ghost function Mirrored(X0: seq<Cx>, gain: int -> real, k: nat, i: nat): Cx
    requires i < |X0|
  {
    if Fold(|X0|, i) < k then Scale(gain(Fold(|X0|, i)), X0[i]) else X0[i]
  }

  lemma MirrorBin(X0: seq<Cx>, k: nat, g: real)
    requires Symmetric(X0) && 0 < k < |X0|
    ensures Conj(Scale(g, X0[k])) == Scale(g, X0[|X0| - k])
  {}

  lemma NyquistIsReal(X0: seq<Cx>, h: nat, g: real)
    requires Symmetric(X0) && |X0| == 2 * h && h > 0
    ensures Scale(g, X0[h]).im == 0.0
  {
    assert X0[2 * h - h] == Conj(X0[h]);
  }

  ghost function MirrorStep(Y: seq<Cx>, k: nat, g: real): (Z: seq<Cx>)
    requires k < |Y|
    ensures |Z| == |Y|
  {
    var Y1 := Y[k := Scale(g, Y[k])];
    if 0 < k < |Y| / 2 then Y1[|Y| - k := Conj(Y1[k])] else Y1
  }

  lemma MirrorStepApplies(X0: seq<Cx>, Y: seq<Cx>, gain: int -> real, k: nat)
    requires Symmetric(X0) && |X0| == |Y| && |X0| % 2 == 0 && k <= |X0| / 2 && |X0| > 0
    requires forall i: nat :: i < |Y| ==> Y[i] == Mirrored(X0, gain, k, i)
    ensures forall i: nat :: i < |Y| ==> MirrorStep(Y, k, gain(k))[i] == Mirrored(X0, gain, k + 1, i)
  {
    hide Scale, Conj, Symmetric;
    var n, g := |Y|, gain(k);
    assert Y[k] == X0[k];
    if 0 < k < n / 2 { MirrorBin(X0, k, g); }
    forall i: nat | i < n ensures MirrorStep(Y, k, g)[i] == Mirrored(X0, gain, k + 1, i) {
      if i != k && !(0 < k < n / 2 && i == n - k) {
        assert Fold(n, i) != k;
        assert MirrorStep(Y, k, g)[i] == Y[i];
      }
    }
  }

  lemma GainAt(m: Lib, X: seq<Cx>, psd: seq<real>, k: nat)
    requires k < |X| && k < |psd|
    ensures Norm(X[k]) >= 0.0 && BinPower(X)(k) >= 0.0
    ensures Gains(m, X, psd)(k) == Gain(m, BinPower(X)(k), psd[k])
  {
    hide Norm, Gain;
    NormZero(X[k]);
  }

  lemma MirrorStart(X0: seq<Cx>, gain: int -> real)
    ensures forall i: nat :: i < |X0| ==> Mirrored(X0, gain, 0, i) == X0[i]
  {}

  lemma MirrorEnd(X0: seq<Cx>, Y: seq<Cx>, gain: int -> real)
    requires Symmetric(X0) && |X0| == |Y| && |X0| % 2 == 0 && |X0| > 0
    requires forall i: nat :: i < |Y| ==> Y[i] == Mirrored(X0, gain, |Y| / 2 + 1, i)
    ensures Y == Shaped(X0, gain) && Y[|Y| / 2].im == 0.0
  {
    hide Scale, Symmetric;
    var h := |Y| / 2;
    NyquistIsReal(X0, h, gain(h));
    assert Fold(|Y|, h) == h;
  }

  lemma NoPower(X0: seq<Cx>, gain: int -> real)
    ensures Sum(0, ShapedPower(X0, gain)) == 0.0
  {}

  lemma PowerTerm(X0: seq<Cx>, gain: int -> real, k: nat, g: real, p: real)
    requires g == gain(k) && p == BinPower(X0)(k)
    ensures Sum(k + 1, ShapedPower(X0, gain)) == Sum(k, ShapedPower(X0, gain)) + g * g * p
  {}

  /** The gain-and-mirror loop. On the spectrum of a real signal it applies, to every
      bin, the gain of the bin it folds to. */
  method ApplyGains(m: Lib, X: array<Cx>, power: array<real>, psd: array<real>) returns (outPower: real)
    requires X.Length >= 2 && X.Length % 2 == 0 && Symmetric(X[..])
    requires power.Length == psd.Length == Bins(X.Length)
    requires forall k :: 0 <= k < power.Length ==> power[k] == BinPower(X[..])(k)
    modifies X
    ensures X[..] == Shaped(old(X[..]), Gains(m, old(X[..]), psd[..]))
    ensures outPower == Sum(Bins(X.Length), ShapedPower(old(X[..]), Gains(m, old(X[..]), psd[..])))
  {
    hide Norm, Gain, Scale, Conj, Symmetric, Mirrored, Shaped, Gains, Sum, ShapedPower;
    ghost var X0 := X[..];
    ghost var gain := Gains(m, X0, psd[..]);
    var n, half := X.Length, X.Length / 2;
    MirrorStart(X0, gain);
    outPower := 0.0;
    NoPower(X0, gain);
    var k := 0;
    while k < half + 1
      invariant 0 <= k <= half + 1
      invariant forall i: nat :: i < n ==> X[i] == Mirrored(X0, gain, k, i)
      invariant outPower == Sum(k, ShapedPower(X0, gain))
    {
      GainAt(m, X0, psd[..], k);
      var g := Gain(m, power[k], psd[k]);
      ghost var Y := X[..];
      MirrorStepApplies(X0, Y, gain, k);
      X[k] := Scale(g, X[k]);
      outPower := outPower + g * g * power[k];
      PowerTerm(X0, gain, k, g, power[k]);
      if k > 0 && k < half {
        X[n - k] := Conj(X[k]);
      }
      assert X[..] == MirrorStep(Y, k, g);
      k := k + 1;
    }
    MirrorEnd(X0, X[..], gain);
    ghost var Y := X[..];
    X[half] := Cx(X[half].re, 0.0);
    assert X[half] == Y[half];
    assert X[..] == Y;
  }

  method TakeReal(X: array<Cx>, count: nat) returns (out: seq<real>)
    requires count <= X.Length
    ensures out == RealParts(X[..], count)
  {
    var buf := new real[count];
    for i := 0 to count
      invariant forall k :: 0 <= k < i ==> buf[k] == X[k].re
    {
      buf[i] := X[i].re;
    }
    out := buf[..];
  }

  // ----- The object

  lemma SizeIsPow2()
    ensures Pow2(FFT_SIZE)
  {}

  class NoiseSuppressor {
    const lib: Lib
    var noisePsd: array<real>
    var hannWin: array<real>
    var initCount: nat
    var reductionDb: real

    ghost predicate Valid()
      reads this, noisePsd, hannWin
    {
      && Lawful(lib)
      && noisePsd != hannWin
      && ValidPsd(noisePsd[..], FFT_SIZE)
      && hannWin.Length == WINDOW
      && forall i :: 0 <= i < WINDOW ==> hannWin[i] == Hann(lib, i)
    }

    ghost function State(): Noise
      reads this, noisePsd
    {
      Noise(noisePsd[..], initCount, reductionDb)
    }

    constructor (m: Lib)
      requires Lawful(m)
      ensures Valid() && lib == m && State() == InitialNoise()
      ensures fresh(noisePsd) && fresh(hannWin)
    {
      lib := m;
      noisePsd := new real[FFT_SIZE / 2 + 1](_ => INITIAL_PSD);
      hannWin := new real[WINDOW](i => Hann(m, i));
      initCount := 0;
      reductionDb := 0.0;
    }

    /** Window the frame and pad it with zeros to the transform size. */
    method WindowFrame(frame: seq<real>) returns (X: array<Cx>)
      requires Valid()
      ensures fresh(X) && X[..] == Windowed(lib, frame, FFT_SIZE)
    {
      hide Lawful, Hann;
      X := new Cx[FFT_SIZE](_ => ZERO);
      var winLen := MinNat(|frame|, WINDOW);
      for i := 0 to winLen
        invariant forall k: nat :: k < FFT_SIZE ==>
          X[k] == if k < i then Cx(At(frame, k) * Hann(lib, k), 0.0) else ZERO
      {
        X[i] := Cx(frame[i] * hannWin[i], 0.0);
      }
      forall k: nat | k < FFT_SIZE ensures X[..][k] == Windowed(lib, frame, FFT_SIZE)[k] {}
    }

    /** One frame: the output is the cleaned frame under the updated estimate, and the
        state moves as NextNoise says. */
    method Process(frame: seq<real>) returns (out: seq<real>)
      requires Valid() && |frame| <= FFT_SIZE
      modifies this, noisePsd
      ensures Valid() && noisePsd == old(noisePsd) && hannWin == old(hannWin)
      ensures State() == NextNoise(lib, old(State()), Spectrum(lib, frame, FFT_SIZE))
      ensures out == Cleaned(lib, State().psd, frame, FFT_SIZE)
      ensures Energy(out) <= Energy(frame)
    {
      hide Lawful, Hann, Gain, Norm, Sum, Idft, Dft, Wlen, Windowed, Shaped, Pow2, Symmetric, Energy;
      var X := WindowFrame(frame);
      ghost var S := Spectrum(lib, frame, FFT_SIZE);
      SizeIsPow2();
      Radix2Fft(lib, X);
      assert X[..] == S;
      NothingDropped(lib, noisePsd[..], frame, FFT_SIZE);
      var power, frameEnergy := PowerSpectrum(X);
      ghost var st := State();
      SumsNonneg(S, st.psd, BinPower(S), Bins(FFT_SIZE));
      var isNoise;
      if initCount < INIT_FRAMES {
        isNoise := true;
        initCount := initCount + 1;
      } else {
        var noiseEnergy := Total(noisePsd);
        isNoise := Decibels(lib, frameEnergy, noiseEnergy) < VAD_SNR_THRESH;
      }
      if isNoise {
        SmoothInPlace(noisePsd, power, S);
      }
      assert noisePsd[..] == NextPsd(lib, st, S);
      var outPower := ApplyGains(lib, X, power, noisePsd);
      Radix2Ifft(lib, X);
      out := TakeReal(X, |frame|);
      NeverAddsEnergy(lib, noisePsd[..], frame, FFT_SIZE);
      SumsNonneg(S, noisePsd[..], Gains(lib, S, noisePsd[..]), Bins(FFT_SIZE));
      if frameEnergy > TINY {
        reductionDb := Decibels(lib, frameEnergy, outPower);
      }
    }

    method Reset()
      requires Valid()
      modifies this, noisePsd
      ensures Valid() && noisePsd == old(noisePsd) && hannWin == old(hannWin)
      ensures State() == InitialNoise()
    {
      for k := 0 to noisePsd.Length
        invariant noisePsd == old(noisePsd) && hannWin == old(hannWin)
        invariant forall i :: 0 <= i < k ==> noisePsd[i] == INITIAL_PSD
        invariant forall i :: 0 <= i < WINDOW ==> hannWin[i] == Hann(lib, i)
      {
        noisePsd[k] := INITIAL_PSD;
      }
      initCount := 0;
      reductionDb := 0.0;
      assert noisePsd[..] == InitialNoise().psd;
    }
  }
}
