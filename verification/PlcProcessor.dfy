/** Packet loss concealment: the frame history, its flattening, and the LPC path that
    fills a lost frame. */
module PacketLoss {
  import opened Sums
  import opened Frames
  import opened Toeplitz
  import opened Autocorrelation
  import opened LinearPrediction
  import opened Synthesis

  const HISTORY_FRAMES: nat := 20
  const LPC_ORDER: nat := 12
  const LPC_HISTORY: nat := 320
  const PLC_AI_MAX_MS := 100

  // ----- Sequences

  ghost function Reversed(s: seq<real>): (r: seq<real>)
    ensures |r| == |s|
  {
    seq(|s|, (k: nat) requires k < |s| => s[|s| - 1 - k])
  }

  lemma TakeLastGrows(x: real, s: seq<real>, n: nat)
    ensures |s| < n ==> Reversed(TakeLast([x] + s, n)) == Reversed(TakeLast(s, n)) + [x]
    ensures |s| >= n ==> TakeLast([x] + s, n) == TakeLast(s, n)
  {
    if |s| >= n { assert ([x] + s)[1 + |s| - n..] == s[|s| - n..]; }
  }

  method ReverseSeq(s: seq<real>) returns (r: seq<real>)
    ensures r == Reversed(s)
  {
    var a := new real[|s|](i requires 0 <= i < |s| => s[i]);
    var i := 0;
    while i < |s| / 2
      invariant 0 <= i <= |s| / 2
      invariant forall k :: 0 <= k < i ==> a[k] == s[|s| - 1 - k]
      invariant forall k :: |s| - i <= k < |s| ==> a[k] == s[|s| - 1 - k]
      invariant forall k :: i <= k < |s| - i ==> a[k] == s[k]
    {
      a[i], a[|s| - 1 - i] := a[|s| - 1 - i], a[i];
      i := i + 1;
    }
    r := a[..];
  }

  lemma ReversedTwice(s: seq<real>)
    ensures Reversed(Reversed(s)) == s
  {}

  /** One frame, newest sample first, until n samples are collected. */
  method CollectFrame(frame: seq<real>, flat0: seq<real>, ghost older: seq<real>, n: nat) returns (flat: seq<real>)
    requires flat0 == Reversed(TakeLast(older, n)) && |older| < n
    ensures flat == Reversed(TakeLast(frame + older, n))
  {
    hide Reversed, TakeLast;
    flat := flat0;
    var r := |frame|;
    assert frame[r..] + older == older;
    TakeLastLength(older, n);
    while r > 0 && |flat| < n
      invariant 0 <= r <= |frame|
      invariant flat == Reversed(TakeLast(frame[r..] + older, n))
      decreases r
    {
      TakeLastLength(frame[r..] + older, n);
      TakeLastGrows(frame[r - 1], frame[r..] + older, n);
      assert frame[r - 1..] + older == [frame[r - 1]] + (frame[r..] + older);
      flat := flat + [frame[r - 1]];
      r := r - 1;
    }
    TakeLastLength(frame[r..] + older, n);
    assert frame[..r] + (frame[r..] + older) == frame + older;
    if r > 0 {
      TakeLastFull(frame[..r], frame[r..] + older, n);
    }
  }

  lemma TakeLastLength(s: seq<real>, n: nat)
    ensures |Reversed(TakeLast(s, n))| == if |s| <= n then |s| else n
  {}

  /** The last n samples of all frames, oldest first: walk backwards collecting, then
      reverse. */
  method Flatten(history: seq<seq<real>>, n: nat) returns (flat: seq<real>)
    ensures flat == TakeLast(Concat(history), n)
  {
    hide Reversed, TakeLast;
    flat := [];
    var i := |history|;
    ghost var done: seq<real> := [];
    assert Concat(history[i..]) == [];
    TakeNothing(n);
    while i > 0 && |flat| < n
      invariant 0 <= i <= |history| && done == Concat(history[i..])
      invariant flat == Reversed(TakeLast(done, n))
      decreases i
    {
      TakeLastLength(done, n);
      flat := CollectFrame(history[i - 1], flat, done, n);
      i := i - 1;
      assert history[i..][1..] == history[i + 1..];
      done := history[i] + done;
    }
    TakeLastLength(done, n);
    ConcatSplit(history, i);
    if i > 0 {
      TakeLastFull(Concat(history[..i]), done, n);
    }
    ReversedTwice(TakeLast(done, n));
    flat := ReverseSeq(flat);
  }

  lemma TakeNothing(n: nat)
    ensures Reversed(TakeLast([], n)) == []
  {}

  // ----- The numeric steps

  lemma LagSum(x: seq<real>, lag: nat, m: nat)
    requires m == if lag <= |x| then |x| - lag else 0
    ensures Sum(m, LagTerm(x, lag)) == Sum(|x|, LagTerm(x, lag))
  {
    hide Sum;
    var f := LagTerm(x, lag);
    var rest := (n: int) => f(m + n);
    SumSplit(m, |x| - m, f, rest);
    forall n | 0 <= n < |x| - m ensures rest(n) == 0.0 { assert At(x, m + n + lag) == 0.0; }
    SumZero(|x| - m, rest);
  }

  /** The biased autocorrelation loops. */
  method Autocorrelate(flat: seq<real>, order: nat) returns (R: seq<real>)
    ensures |R| == order + 1
    ensures forall lag: nat :: lag <= order ==> R[lag] == Autocorr(flat)(lag)
  {
    hide Sum;
    var M := |flat|;
    var a := new real[order + 1];
    var lag := 0;
    while lag <= order
      invariant 0 <= lag <= order + 1
      invariant forall k :: 0 <= k < lag ==> a[k] == Sum(M, LagTerm(flat, k))
    {
      var acc := LagLoop(flat, lag);
      a[lag] := acc;
      lag := lag + 1;
    }
    if M > 0 {
      lag := 0;
      while lag <= order
        invariant 0 <= lag <= order + 1
        invariant forall k :: 0 <= k <= order ==>
          a[k] == if k < lag then Sum(M, LagTerm(flat, k)) / M as real else Sum(M, LagTerm(flat, k))
      {
        a[lag] := a[lag] / M as real;
        lag := lag + 1;
      }
    } else {
      NoSamples(flat);
    }
    R := a[..];
  }

  lemma NoSamples(flat: seq<real>)
    requires |flat| == 0
    ensures forall k :: Sum(0, LagTerm(flat, k)) == 0.0
  {}

  method LagLoop(flat: seq<real>, lag: nat) returns (acc: real)
    ensures acc == Sum(|flat|, LagTerm(flat, lag))
  {
    acc := 0.0;
    var n := 0;
    while n < |flat| - lag
      invariant 0 <= n && (n <= |flat| - lag || n == 0)
      invariant acc == Sum(n, LagTerm(flat, lag))
    {
      acc := acc + flat[n] * flat[n + lag];
      n := n + 1;
    }
    LagSum(flat, lag, n);
  }

  lemma {:induction false} StopsForGood(R: int -> real, i: nat, p: nat)
    requires i <= p && Stops(Levinson(R, i))
    ensures Levinson(R, p) == Levinson(R, i)
    decreases p
  {
    hide Reflect;
    if i < p { StopsForGood(R, i, p - 1); }
  }

  method CrossLoop(R: seq<real>, a: array<real>, i: nat, ghost s: Lpc) returns (k: real)
    requires i < a.Length < |R| && |s.a| == i
    requires forall j :: 0 <= j < i ==> a[j] == s.a[j]
    ensures k == Mismatch(Fn(R), s.a)
  {
    k := R[i + 1];
    var j := 0;
    while j < i
      invariant 0 <= j <= i && k == R[i + 1] + Sum(j, CrossTerm(Fn(R), s.a))
    {
      k := k + a[j] * R[i - j];
      j := j + 1;
    }
  }

  /** Add one coefficient in place, with the previous ones kept aside. */
  method GrowInPlace(a: array<real>, i: nat, k: real)
    requires i < a.Length
    modifies a
    ensures a[..i + 1] == Grow(old(a[..i]), k)
    ensures a[i + 1..] == old(a[i + 1..])
  {
    hide GrownAt;
    ghost var a0, rest := a[..i], a[i + 1..];
    var prev := new real[a.Length](j requires 0 <= j < a.Length reads a => a[j]);
    assert forall m :: 0 <= m < i ==> prev[m] == a0[m];
    a[i] := k;
    var j := 0;
    while j < i
      invariant 0 <= j <= i && a[i] == k && a[i + 1..] == rest
      invariant forall m :: 0 <= m < i ==> prev[m] == a0[m]
      invariant forall m :: 0 <= m < j ==> a[m] == GrownAt(a0, k, m)
      invariant forall m :: j <= m < i ==> a[m] == a0[m]
    {
      GrownFrom(a0, k, j, prev[j], prev[i - 1 - j]);
      a[j] := prev[j] + k * prev[i - 1 - j];
      j := j + 1;
    }
    forall m | 0 <= m < i + 1 ensures a[m] == Grow(a0, k)[m] {}
  }

  lemma GrownFrom(a0: seq<real>, k: real, j: nat, x: real, y: real)
    requires j < |a0| && x == a0[j] && y == a0[|a0| - 1 - j]
    ensures x + k * y == GrownAt(a0, k, j)
  {}

  method ClearInPlace(a: array<real>)
    modifies a
    ensures forall j :: 0 <= j < a.Length ==> a[j] == 0.0
  {
    var z := 0;
    while z < a.Length
      invariant 0 <= z <= a.Length && forall j :: 0 <= j < z ==> a[j] == 0.0
    {
      a[z] := 0.0;
      z := z + 1;
    }
  }

  /** The array holds the coefficients of s, then zeros. */
  ghost predicate Holds(a: seq<real>, s: Lpc) {
    |s.a| <= |a| && a[..|s.a|] == s.a && forall j :: |s.a| <= j < |a| ==> a[j] == 0.0
  }

  /** One pass of the recursion's loop body. */
  method LevinsonStep(R: seq<real>, a: array<real>, i: nat, err: real, ghost s: Lpc) returns (err': real)
    requires |s.a| == i < a.Length < |R| && !Stops(s) && err == s.err && Holds(a[..], s)
    modifies a
    ensures |Reflect(Fn(R), s).a| == i + 1
    ensures Holds(a[..], Reflect(Fn(R), s)) && err' == Reflect(Fn(R), s).err
  {
    hide Mismatch, Grow, Clamp;
    var ki := CrossLoop(R, a, i, s);
    ki := -ki / err;
    ki := Clamp(ki);
    assert a[..i] == s.a;
    ghost var rest := a[i + 1..];
    GrowInPlace(a, i, ki);
    forall j | i + 1 <= j < a.Length ensures a[j] == 0.0 { assert a[j] == rest[j - i - 1]; }
    err' := err * (1.0 - ki * ki);
  }

  method LevinsonDurbin(R: seq<real>, a: array<real>) returns (err: real)
    requires |R| > a.Length
    modifies a
    ensures err == Levinson(Fn(R), a.Length).err && Holds(a[..], Levinson(Fn(R), a.Length))
  {
    hide Reflect;
    var p := a.Length;
    ghost var Rf := Fn(R);
    ClearInPlace(a);
    err := R[0];
    if err < ERROR_FLOOR {
      StopsForGood(Rf, 0, p);
      return;
    }
    var i := 0;
    while i < p
      invariant 0 <= i <= p && |Levinson(Rf, i).a| == i
      invariant !Stops(Levinson(Rf, i)) && err == Levinson(Rf, i).err
      invariant Holds(a[..], Levinson(Rf, i))
    {
      err := LevinsonStep(R, a, i, err, Levinson(Rf, i));
      i := i + 1;
      if err <= ERROR_FLOOR {
        StopsForGood(Rf, i, p);
        return;
      }
    }
  }

  lemma {:induction false} ExtendExt(h: seq<real>, a: seq<real>, a': seq<real>, p: nat, n: nat)
    requires forall k :: 0 <= k < p ==> At(a, k) == At(a', k)
    ensures Extend(h, a, p, n) == Extend(h, a', p, n)
  {
    hide Sum;
    if n > 0 {
      ExtendExt(h, a, a', p, n - 1);
      var buf := Extend(h, a, p, n - 1);
      SumExt(p, FeedTerm(a, buf), FeedTerm(a', buf));
    }
  }

  lemma {:induction false} ExtendPrefix(h: seq<real>, a: seq<real>, p: nat, n: nat, m: nat)
    requires n <= m
    ensures Extend(h, a, p, n) == Extend(h, a, p, m)[..|h| + n]
    decreases m
  {
    if n < m { ExtendPrefix(h, a, p, n, m - 1); }
  }

  lemma ExtendNone(h: seq<real>, a: seq<real>, p: nat)
    ensures Extend(h, a, p, 0) == h
  {}

  lemma ExtendOne(h: seq<real>, a: seq<real>, p: nat, n: nat)
    ensures var buf := Extend(h, a, p, n); Extend(h, a, p, n + 1) == buf + [-Sum(p, FeedTerm(a, buf))]
  {}

  /** All-pole synthesis with zero excitation from the last |a| samples. */
  method LpcSynthesise(hist: seq<real>, a: seq<real>, samples: nat) returns (out: seq<real>)
    requires |hist| >= |a|
    ensures out == Extend(hist[|hist| - |a|..], a, |a|, samples)[|a|..]
  {
    hide Sum, Extend, FeedTerm;
    var p := |a|;
    ghost var h := hist[|hist| - p..];
    var buf := new real[p + samples](i requires 0 <= i < p + samples =>
      if i < p then hist[|hist| - p + i] else 0.0);
    var result := new real[samples];
    assert buf[..p] == h;
    ExtendNone(h, a, p);
    var n := 0;
    while n < samples
      invariant 0 <= n <= samples
      invariant buf[..p + n] == Extend(h, a, p, n)
      invariant forall k :: 0 <= k < n ==> result[k] == buf[p + k]
    {
      var s := FeedLoop(a, buf, p + n);
      ghost var before := buf[..p + n];
      buf[p + n] := s;
      result[n] := s;
      assert buf[..p + n + 1] == before + [s];
      ExtendOne(h, a, p, n);
      n := n + 1;
    }
    out := result[..];
    assert buf[..p + samples] == buf[..];
    assert out == buf[..][p..];
  }

  method FeedLoop(a: seq<real>, buf: array<real>, end: nat) returns (s: real)
    requires |a| <= end <= buf.Length
    ensures s == -Sum(|a|, FeedTerm(a, buf[..end]))
  {
    s := 0.0;
    var k := 0;
    while k < |a|
      invariant 0 <= k <= |a| && s == -Sum(k, FeedTerm(a, buf[..end]))
    {
      assert At(buf[..end], end - 1 - k) == buf[end - 1 - k];
      s := s - a[k] * buf[end - 1 - k];
      k := k + 1;
    }
  }

  // ----- Concealment

  function Fade(lossMs: int): real {
    var f := 1.0 - lossMs as real / PLC_AI_MAX_MS as real;
    if f >= 0.0 then f else 0.0
  }

  ghost function Faded(frame: seq<real>, fade: real): (r: seq<real>)
    ensures |r| == |frame|
  {
    seq(|frame|, (k: nat) requires k < |frame| => frame[k] * fade)
  }

  /** The frame a burst starts from: the synthesis continuing the flattened history. */
  ghost function BaseFrame(history: seq<seq<real>>): (r: seq<real>)
    requires history == [] || |Concat(history)| >= LPC_ORDER
    ensures |r| == FRAME_SIZE
  {
    if history == [] then seq(FRAME_SIZE, _ => 0.0)
    else
      var flat := TakeLast(Concat(history), LPC_HISTORY);
      Extend(flat[|flat| - LPC_ORDER..], Levinson(Autocorr(flat), LPC_ORDER).a, LPC_ORDER, FRAME_SIZE)[LPC_ORDER..]
  }

  method ApplyFade(frame: seq<real>, fade: real) returns (out: seq<real>)
    ensures out == Faded(frame, fade)
  {
    var a := new real[|frame|](i requires 0 <= i < |frame| => frame[i]);
    for i := 0 to |frame|
      invariant forall k :: 0 <= k < |frame| ==> a[k] == if k < i then frame[k] * fade else frame[k]
    {
      a[i] := a[i] * fade;
    }
    out := a[..];
    forall k | 0 <= k < |frame| ensures out[k] == Faded(frame, fade)[k] {
      assert a[k] == frame[k] * fade;
    }
  }

  lemma MismatchExt(R: int -> real, R': int -> real, a: seq<real>)
    requires forall j :: 0 <= j <= |a| + 1 ==> R(j) == R'(j)
    ensures Mismatch(R, a) == Mismatch(R', a)
  {
    hide Sum, At;
    SumExt(|a|, CrossTerm(R, a), CrossTerm(R', a));
  }

  lemma ReflectExt(R: int -> real, R': int -> real, s: Lpc)
    requires !Stops(s) && forall j :: 0 <= j <= |s.a| + 1 ==> R(j) == R'(j)
    ensures Reflect(R, s) == Reflect(R', s)
  {
    hide Mismatch, Clamp, Grow;
    MismatchExt(R, R', s.a);
    assert RawReflection(R, s) == RawReflection(R', s);
  }

  /** The recursion only looks at the correlation values it is given. */
  lemma {:induction false} LevinsonExt(R: int -> real, R': int -> real, i: nat)
    requires forall j :: 0 <= j <= i ==> R(j) == R'(j)
    ensures Levinson(R, i) == Levinson(R', i)
  {
    hide Reflect, Stops;
    if i > 0 {
      LevinsonExt(R, R', i - 1);
      if !Stops(Levinson(R, i - 1)) { ReflectExt(R, R', Levinson(R, i - 1)); }
    }
  }

  // ----- What a concealed frame is

  /** a holds coefficients that solve the normal equations of the samples' biased
      autocorrelation, all of them unless the error left is down to the floor, and zeros
      after those. */
  ghost predicate PredictorOf(flat: seq<real>, a: seq<real>, order: nat, err: real) {
    && order <= |a| && (order == |a| || err <= 0.000000000001)
    && (forall i: nat {:trigger NormalTerm(Autocorr(flat), a[..order], i)} :: i < order ==>
          Sum(order, NormalTerm(Autocorr(flat), a[..order], i)) == -Autocorr(flat)(i + 1))
    && err == Autocorr(flat)(0) + Sum(order, NormalTerm(Autocorr(flat), a[..order], -1))
    && forall i :: order <= i < |a| ==> a[i] == 0.0
  }

  ghost function Padded(a: seq<real>, n: nat): (r: seq<real>)
    requires |a| <= n
    ensures |r| == n && r[..|a|] == a
  {
    a + Zeros(n - |a|)
  }

  lemma PredictorFound(flat: seq<real>, p: nat)
    requires !Levinson(Autocorr(flat), p).clamped
    ensures var s := Levinson(Autocorr(flat), p);
      PredictorOf(flat, Padded(s.a, p), |s.a|, s.err)
  {
    hide Levinson, Autocorr, Sum, Zeros;
    var R := Autocorr(flat);
    var s := Levinson(R, p);
    OrderReached(R, p);
    NormalEquationsSpelledOut(R, p, 0);
    forall i: nat | i < |s.a| ensures Sum(|s.a|, NormalTerm(R, s.a, i)) == -R(i + 1) {
      NormalEquationsSpelledOut(R, p, i);
    }
  }

  lemma RecursExt(a: seq<real>, a': seq<real>, p: nat, s: seq<real>, s': seq<real>, t: nat, t': nat)
    requires t < |s| && t' < |s'| && p <= t && p <= t' && Recurs(a, p, s, t)
    requires forall k :: 0 <= k < p ==> At(a, k) == At(a', k)
    requires s[t - p..t + 1] == s'[t' - p..t' + 1]
    ensures Recurs(a', p, s', t')
  {
    hide Sum;
    assert s[t] == s[t - p..t + 1][p] && s'[t'] == s'[t' - p..t' + 1][p];
    forall k | 0 <= k < p ensures BackTerm(a, s, t)(k) == BackTerm(a', s', t')(k) {
      assert s[t - 1 - k] == s[t - p..t + 1][p - 1 - k] && s'[t' - 1 - k] == s'[t' - p..t' + 1][p - 1 - k];
    }
    SumExt(p, BackTerm(a, s, t), BackTerm(a', s', t'));
  }

  /** The first frame of a burst, put behind the flattened history, goes on as twelve
      fixed coefficients predict from the twelve samples before; and without a clamp these
      solve the twelve normal equations of the history, or as many as the error allowed. */
  lemma {:induction false} BaseFramePredicts(history: seq<seq<real>>) returns (a: seq<real>, order: nat, err: real)
    requires history != [] && |Concat(history)| >= LPC_ORDER
    ensures |a| == 12
    ensures var flat := TakeLast(Concat(history), LPC_HISTORY);
      && (forall t: nat :: |flat| <= t < |flat| + 160 ==> Recurs(a, 12, flat + BaseFrame(history), t))
      && (!Levinson(Autocorr(flat), 12).clamped ==> PredictorOf(flat, a, order, err))
  {
    hide Concat, Levinson, Autocorr, Sum, Extend, Recurs, PredictorOf;
    var flat := TakeLast(Concat(history), LPC_HISTORY);
    var s := Levinson(Autocorr(flat), 12);
    a, order, err := Padded(s.a, 12), |s.a|, s.err;
    var h := flat[|flat| - 12..];
    var E, all := Extend(h, s.a, 12, 160), flat + BaseFrame(history);
    forall t: nat | |flat| <= t < |flat| + 160 ensures Recurs(a, 12, all, t) {
      ExtendRecurs(h, s.a, 12, 160, t - |flat| + 12);
      assert E[..12] == h && E[12..] == BaseFrame(history);
      assert all[|flat| - 12..] == E;
      assert all[t - 12..t + 1] == all[|flat| - 12..][t - |flat|..t - |flat| + 13];
      RecursExt(s.a, a, 12, E, all, t - |flat| + 12, t);
    }
    if !s.clamped { PredictorFound(flat, 12); }
  }

  class PlcProcessor {
    var history: seq<seq<real>>

    constructor ()
      ensures history == []
    {
      history := [];
    }

    method PushGoodFrame(frame: seq<real>)
      requires |history| <= HISTORY_FRAMES
      modifies this
      ensures history == TakeLast(old(history) + [frame], HISTORY_FRAMES)
    {
      history := history + [frame];
      if |history| > HISTORY_FRAMES {
        history := history[1..];
      }
    }

    /** A lost frame: the base frame of the history, faded with the loss so far. The
        history is only read. */
    method Conceal(lossMs: int) returns (out: seq<real>)
      requires history == [] || |Concat(history)| >= LPC_ORDER
      ensures out == Faded(BaseFrame(history), Fade(lossMs))
    {
      hide Sum, Extend, Levinson, Autocorr, Concat, Fade;
      if history != [] {
        var flat := Flatten(history, LPC_HISTORY);
        var R := Autocorrelate(flat, LPC_ORDER);
        var a := new real[LPC_ORDER];
        var err := LevinsonDurbin(R, a);
        LevinsonExt(Fn(R), Autocorr(flat), LPC_ORDER);
        var frame := LpcSynthesise(flat, a[..], FRAME_SIZE);
        ExtendExt(flat[|flat| - LPC_ORDER..], a[..], Levinson(Autocorr(flat), LPC_ORDER).a, LPC_ORDER, FRAME_SIZE);
        out := ApplyFade(frame, Fade(lossMs));
      } else {
        var silence := new real[FRAME_SIZE](_ => 0.0);
        out := silence[..];
        assert out == Faded(BaseFrame(history), Fade(lossMs));
      }
    }

    method Reset()
      modifies this
      ensures history == []
    {
      history := [];
    }
  }
}
