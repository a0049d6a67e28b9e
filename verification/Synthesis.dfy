/** Zero-excitation synthesis from the last samples of a block, and the two bounds on
    everything it can ever produce. */
module Synthesis {
  import opened Sums
  import opened Toeplitz
  import opened Autocorrelation
  import opened Stability
  import opened LinearPrediction

  ghost function FeedTerm(a: seq<real>, buf: seq<real>): int -> real {
    (k: int) => At(a, k) * At(buf, |buf| - 1 - k)
  }

  /** The history h followed by n samples of the all-pole filter of order p. */
  ghost function Extend(h: seq<real>, a: seq<real>, p: nat, n: nat): (buf: seq<real>)
    ensures |buf| == |h| + n
    ensures buf[..|h|] == h
  {
    if n == 0 then h
    else
      var buf := Extend(h, a, p, n - 1);
      buf + [-Sum(p, FeedTerm(a, buf))]
  }

  ghost function BackTerm(a: seq<real>, s: seq<real>, t: int): int -> real {
    (k: int) => At(a, k) * At(s, t - 1 - k)
  }

  /** Sample t follows from the ones before it: s[t] = -(a[0] s[t-1] + a[1] s[t-2] + ...). */
  ghost predicate Recurs(a: seq<real>, p: nat, s: seq<real>, t: nat)
    requires t < |s|
  {
    s[t] == -Sum(p, BackTerm(a, s, t))
  }

  lemma AtPrefix(s: seq<real>, u: seq<real>, i: int)
    requires s <= u && i < |s|
    ensures At(s, i) == At(u, i)
  {}

  /** Every synthesised sample does. */
  lemma {:induction false} ExtendRecurs(h: seq<real>, a: seq<real>, p: nat, n: nat, t: nat)
    requires |h| <= t < |h| + n
    ensures Recurs(a, p, Extend(h, a, p, n), t)
    decreases n
  {
    hide Sum;
    var front, buf := Extend(h, a, p, n - 1), Extend(h, a, p, n);
    assert buf == front + [buf[|front|]];
    forall k | 0 <= k < p ensures BackTerm(a, front, t)(k) == BackTerm(a, buf, t)(k) { AtPrefix(front, buf, t - 1 - k); }
    SumExt(p, BackTerm(a, front, t), BackTerm(a, buf, t));
    if t == |front| {
      SumExt(p, FeedTerm(a, front), BackTerm(a, front, t));
    } else {
      ExtendRecurs(h, a, p, n - 1, t);
    }
  }

  /** The n-th synthesised sample, counting from one. */
  ghost function Sample(h: seq<real>, a: seq<real>, p: nat, n: nat): real
    requires n > 0
  {
    Extend(h, a, p, n)[|h| + n - 1]
  }

  /** The buffer read backwards from its newest sample. */
  ghost function StateOf(buf: seq<real>): int -> real {
    (j: int) => At(buf, |buf| - 1 - j)
  }

  lemma FeedIsInner(a: seq<real>, buf: seq<real>, p: nat)
    requires |a| <= p
    ensures Sum(p, FeedTerm(a, buf)) == Inner(|a|, Tail(FilterOf(a)), StateOf(buf))
  {
    hide Sum;
    var f := FeedTerm(a, buf);
    var rest := (j: int) => f(|a| + j);
    SumSplit(|a|, p - |a|, f, rest);
    forall j | 0 <= j < p - |a| ensures rest(j) == 0.0 { assert At(a, |a| + j) == 0.0; }
    SumZero(p - |a|, rest);
    SumExt(|a|, f, PairTerm(Tail(FilterOf(a)), StateOf(buf)));
  }

  lemma ExtendShifts(h: seq<real>, a: seq<real>, p: nat, n: nat)
    requires |a| <= p && n > 0
    ensures IsShifted(|a|, StateOf(Extend(h, a, p, n)), FilterOf(a), StateOf(Extend(h, a, p, n - 1)))
  {
    hide Sum, Inner;
    var oldBuf, buf := Extend(h, a, p, n - 1), Extend(h, a, p, n);
    FeedIsInner(a, oldBuf, p);
    assert buf == oldBuf + [buf[|buf| - 1]];
    forall j | 0 <= j < |a| ensures StateOf(buf)(j + 1) == StateOf(oldBuf)(j) {
      var i := |oldBuf| - 1 - j;
      assert StateOf(buf)(j + 1) == At(buf, |buf| - 1 - (j + 1)) == At(buf, i);
      assert StateOf(oldBuf)(j) == At(oldBuf, i);
      assert At(buf, i) == At(oldBuf, i);
    }
    Newest(buf);
  }

  /** A state bound at the start holds after every number of synthesised samples. */
  lemma {:induction false} BoundForever(R: int -> real, h: seq<real>, a: seq<real>, err: real, p: nat, n: nat, c: real)
    requires 0 < |a| <= p && Predicts(R, |a| + 1, FilterOf(a), err) && err >= 0.0 && c >= 0.0
    requires StateBound(R, |a|, StateOf(h), c)
    ensures StateBound(R, |a|, StateOf(Extend(h, a, p, n)), c)
  {
    hide StateBound, Predicts, IsShifted;
    if n > 0 {
      BoundForever(R, h, a, err, p, n - 1, c);
      ExtendShifts(h, a, p, n);
      StepKeepsBound(R, |a|, FilterOf(a), err,
                     StateOf(Extend(h, a, p, n - 1)), StateOf(Extend(h, a, p, n)), c);
    }
  }

  lemma SilentExtend(h: seq<real>, p: nat, n: nat)
    requires n > 0
    ensures Sample(h, [], p, n) == 0.0
  {
    FeedIsInner([], Extend(h, [], p, n - 1), p);
  }

  lemma Newest(buf: seq<real>)
    requires |buf| > 0
    ensures StateOf(buf)(0) == buf[|buf| - 1]
  {
    assert StateOf(buf)(0) == At(buf, |buf| - 1 - 0);
  }

  /** The newest synthesised sample obeys the bound. */
  lemma SampleBound(R: int -> real, h: seq<real>, a: seq<real>, err: real, p: nat, n: nat, c: real)
    requires 0 < |a| <= p && Predicts(R, |a| + 1, FilterOf(a), err) && err >= 0.0 && c >= 0.0
    requires StateBound(R, |a|, StateOf(h), c) && n > 0
    ensures Sample(h, a, p, n) * Sample(h, a, p, n) <= c * R(0)
  {
    hide StateBound, Predicts;
    BoundForever(R, h, a, err, p, n, c);
    NewestSampleBound(R, |a|, StateOf(Extend(h, a, p, n)), c);
    Newest(Extend(h, a, p, n));
  }

  // ----- The bound by the history's own energy

  lemma EnergyIsLagZero(x: seq<real>)
    ensures |x| as real * Autocorr(x)(0) == Energy(x)
  {
    AutocorrTimesLength(x, 0);
    SumExt(|x|, LagTerm(x, 0), Square(x));
  }

  /** At the start, combining the last samples is one output of the filter run over
      the history, hence bounded by its energy. */
  lemma HistoryBound(x: seq<real>, p: nat, n: nat)
    requires n <= p <= |x| && |x| > 0
    ensures StateBound(Autocorr(x), n, StateOf(x[|x| - p..]), |x| as real)
  {
    var state := StateOf(x[|x| - p..]);
    forall v: int -> real
      ensures Inner(n, v, state) * Inner(n, v, state) <= |x| as real * Form(Autocorr(x), n, v, v)
    {
      hide Sum, Form, Autocorr;
      OutputBound(n, v, x, |x| - 1);
      forall i | 0 <= i < n ensures TapTerm(v, x, |x| - 1)(i) == PairTerm(v, state)(i) {
        assert At(x, |x| - 1 - i) == state(i);
      }
      SumExt(n, TapTerm(v, x, |x| - 1), PairTerm(v, state));
    }
  }

  /** Without a clamp, no synthesised sample, however far on, exceeds the energy of the
      history: its square is at most the sum of the squared history samples. */
  lemma {:induction false} NeverLouderThanHistory(x: seq<real>, p: nat, n: nat)
    requires p <= |x| && |x| > 0 && n > 0
    requires !Levinson(Autocorr(x), p).clamped
    ensures var s := Sample(x[|x| - p..], Levinson(Autocorr(x), p).a, p, n); s * s <= Energy(x)
  {
    hide Levinson, Sample, StateBound, Predicts, Autocorr, Energy, Stops;
    var R := Autocorr(x);
    var lpc := Levinson(R, p);
    if lpc.a == [] {
      SilentExtend(x[|x| - p..], p, n);
      EnergyNonneg(x);
    } else {
      NormalEquations(R, p);
      HistoryBound(x, p, |lpc.a|);
      NonSilent(R, p);
      SampleBound(R, x[|x| - p..], lpc.a, lpc.err, p, n, |x| as real);
      EnergyIsLagZero(x);
    }
  }

  lemma NonSilent(R: int -> real, i: nat)
    requires Levinson(R, i).a != []
    ensures R(0) >= ERROR_FLOOR && Levinson(R, i).err > 0.0
  {
    hide Levinson;
    ErrorNeverRises(R, i);
  }

  // ----- Boundedness of every run, clamped or not

  lemma FormOfNothing(R: int -> real, x: int -> real)
    ensures Nonneg(R, 0) && StateBound(R, 0, x, 0.0)
  {}

  /** Later runs extend the matched sequence. */
  lemma {:induction false} MatchedPrefix(R: int -> real, i: nat, k: nat)
    requires i <= k
    ensures |Levinson(R, i).a| <= |Levinson(R, k).a|
    ensures Matched(R, i) == Matched(R, k)[..|Matched(R, i)|]
    decreases k
  {
    hide NextLag, Clamp, RawReflection, Mismatch;
    if i < k { MatchedPrefix(R, i, k - 1); }
  }

  /** The solution of every intermediate order, in terms of the final sequence. */
  lemma MatchedSolvesEarlier(R: int -> real, i: nat, k: nat)
    requires i <= k
    ensures var s := Levinson(R, i);
      Predicts(Fn(Matched(R, k)), |s.a| + 1, FilterOf(s.a), s.err)
  {
    hide Predicts, Levinson, Matched;
    MatchedSolves(R, i);
    MatchedPrefix(R, i, k);
    var s := Levinson(R, i);
    PredictsExt(Fn(Matched(R, i)), Fn(Matched(R, k)), |s.a| + 1, FilterOf(s.a), s.err);
  }

  /** Any state has some bound against the matched sequence, because the clamp keeps
      the error of every order positive. */
  lemma {:induction false} SomeBound(R: int -> real, i: nat, k: nat, x: int -> real) returns (c: real)
    requires i <= k && R(0) >= ERROR_FLOOR
    ensures c >= 0.0
    ensures Nonneg(Fn(Matched(R, k)), |Levinson(R, i).a|)
    ensures StateBound(Fn(Matched(R, k)), |Levinson(R, i).a|, x, c)
    decreases i
  {
    hide Nonneg, StateBound, Predicts, Matched, Inner, Fn, Mismatch, RawReflection, Clamp;
    if i == 0 {
      c := 0.0;
      FormOfNothing(Fn(Matched(R, k)), x);
    } else {
      var s := Levinson(R, i - 1);
      if Stops(s) {
        c := SomeBound(R, i - 1, k, x);
      } else {
        var c0 := SomeBound(R, i - 1, k, Tail(x));
        var g := Inner(|s.a| + 1, FilterOf(s.a), x);
        ErrorNeverRises(R, i - 1);
        MatchedSolvesEarlier(R, i - 1, k);
        c := 2.0 * c0 + 2.0 * (g * g / s.err);
        DeflateBound(Fn(Matched(R, k)), |s.a|, FilterOf(s.a), s.err, x, c0, c);
      }
    }
  }

  ghost predicate AllSamplesBelow(h: seq<real>, a: seq<real>, p: nat, bound: real) {
    forall n: nat :: n > 0 ==> SampleBelow(h, a, p, n, bound)
  }

  ghost predicate SampleBelow(h: seq<real>, a: seq<real>, p: nat, n: nat, bound: real)
    requires n > 0
  {
    Sample(h, a, p, n) * Sample(h, a, p, n) <= bound
  }

  lemma SilentBounded(h: seq<real>, a: seq<real>, p: nat, bound: real)
    requires a == [] && bound == 0.0
    ensures AllSamplesBelow(h, a, p, bound)
  {
    hide Sample;
    forall n: nat | n > 0 ensures SampleBelow(h, a, p, n, bound) { SilentExtend(h, p, n); }
  }

  lemma BoundedFrom(R: int -> real, h: seq<real>, a: seq<real>, err: real, p: nat, c: real, bound: real)
    requires 0 < |a| <= p && Predicts(R, |a| + 1, FilterOf(a), err) && err >= 0.0 && c >= 0.0
    requires StateBound(R, |a|, StateOf(h), c) && bound == c * R(0)
    ensures AllSamplesBelow(h, a, p, bound)
  {
    hide StateBound, Predicts, Sample;
    forall n: nat | n > 0 ensures SampleBelow(h, a, p, n, bound) {
      SampleBound(R, h, a, err, p, n, c);
    }
  }

  /** Clamped or not, and for any correlation values at all, one constant bounds every
      sample the filter will ever produce. */
  lemma AlwaysBounded(R: int -> real, h: seq<real>, p: nat) returns (bound: real)
    ensures AllSamplesBelow(h, Levinson(R, p).a, p, bound)
  {
    hide Levinson, AllSamplesBelow, StateBound, Nonneg, Predicts, Matched;
    var lpc := Levinson(R, p);
    if lpc.a == [] {
      bound := 0.0;
      SilentBounded(h, lpc.a, p, bound);
    } else {
      NonSilent(R, p);
      var c := SomeBound(R, p, p, StateOf(h));
      MatchedSolves(R, p);
      bound := c * Fn(Matched(R, p))(0);
      BoundedFrom(Fn(Matched(R, p)), h, lpc.a, lpc.err, p, c, bound);
    }
  }
}
