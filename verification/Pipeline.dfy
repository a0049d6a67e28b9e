/** The pipeline on values: one command at a time over echo canceller, noise
    suppressor, separator (a pass-through without its model) and concealment. */
module PipelineModel {
  import opened Sums
  import opened Frames
  import opened MathLib
  import opened Complex
  import opened Fourier
  import opened FourierInverse
  import opened Spectral
  import opened NoiseSuppression
  import opened EchoCancellation
  import opened EchoProcessor
  import opened LinearPrediction
  import opened Autocorrelation
  import opened Synthesis
  import opened PacketLoss

  /** What stats() reports, wall-clock time aside. */
  datatype Stats = Stats(erleDb: real, noiseReduction: real, lossMs: int)

  datatype Pipe = Pipe(aec: Aec, noise: Noise, history: seq<seq<real>>, lossMs: int, stats: Stats)

  datatype Command = Reference(frame: seq<real>) | Good(frame: seq<real>) | Lost | Restart

  ghost predicate PipeReady(st: Pipe) {
    && Ready(st.aec) && ValidPsd(st.noise.psd, FFT_SIZE)
    && |st.history| <= HISTORY_FRAMES && AllFrames(st.history)
  }

  ghost predicate AllFrames(h: seq<seq<real>>) {
    forall k :: 0 <= k < |h| ==> |h[k]| == FRAME_SIZE
  }

  ghost predicate CommandReady(c: Command) {
    c.Lost? || c.Restart? || |c.frame| == FRAME_SIZE
  }

  ghost function InitialPipe(): (r: Pipe)
    ensures PipeReady(r)
  {
    Pipe(InitialAec(), InitialNoise(), [], 0, Stats(0.0, 0.0, 0))
  }

  lemma HistorySuffices(h: seq<seq<real>>)
    requires AllFrames(h)
    ensures h == [] || |Concat(h)| >= LPC_ORDER
  {
    ConcatLength(h);
  }

  // ----- One command

  ghost function Suppressed(m: Lib, st: Noise, frame: seq<real>): (out: seq<real>)
    requires ValidPsd(st.psd, FFT_SIZE) && |frame| == FRAME_SIZE
    ensures |out| == FRAME_SIZE
  {
    Cleaned(m, NextNoise(m, st, Spectrum(m, frame, FFT_SIZE)).psd, frame, FFT_SIZE)
  }

  /** The frame a command puts out. */
  ghost function Output(m: Lib, st: Pipe, c: Command): (out: seq<real>)
    requires PipeReady(st) && CommandReady(c)
    ensures c.Good? || c.Lost? ==> |out| == FRAME_SIZE
  {
    match c
    case Reference(_) => []
    case Restart => []
    case Good(f) => Suppressed(m, st.noise, Cancelled(st.aec, f))
    case Lost => HistorySuffices(st.history); Faded(BaseFrame(st.history), Fade(st.lossMs + FRAME_SIZE_MS))
  }

  /** The state after a good frame. */
  ghost function NextGood(m: Lib, st: Pipe, f: seq<real>): (r: Pipe)
    requires PipeReady(st) && |f| == FRAME_SIZE
  {
    var clean := Cancelled(st.aec, f);
    var aec, noise := Processed(m, st.aec, f), NextNoise(m, st.noise, Spectrum(m, clean, FFT_SIZE));
    Pipe(aec, noise, TakeLast(st.history + [Suppressed(m, st.noise, clean)], HISTORY_FRAMES), 0,
         Stats(aec.erleDb, noise.reductionDb, 0))
  }

  lemma RememberFrame(h: seq<seq<real>>, f: seq<real>)
    requires AllFrames(h) && |f| == FRAME_SIZE
    ensures AllFrames(TakeLast(h + [f], HISTORY_FRAMES)) && |TakeLast(h + [f], HISTORY_FRAMES)| <= HISTORY_FRAMES
  {}

  lemma NextGoodReady(m: Lib, st: Pipe, f: seq<real>)
    requires PipeReady(st) && |f| == FRAME_SIZE
    ensures PipeReady(NextGood(m, st, f))
  {
    hide Ready, ValidPsd, Suppressed, Cancelled, Processed, NextNoise, Spectrum, AllFrames, TakeLast;
    RememberFrame(st.history, Suppressed(m, st.noise, Cancelled(st.aec, f)));
  }

  lemma PushedReady(st: Aec, f: seq<real>)
    requires Ready(st) && |f| == FRAME_SIZE
    ensures Ready(Pushed(st, f))
  {}

  ghost function Next(m: Lib, st: Pipe, c: Command): (r: Pipe)
    requires PipeReady(st) && CommandReady(c)
    ensures PipeReady(r)
  {
    match c
    case Reference(f) => PushedReady(st.aec, f); st.(aec := Pushed(st.aec, f))
    case Restart => InitialPipe()
    case Good(f) => NextGoodReady(m, st, f); NextGood(m, st, f)
    case Lost =>
      var lossMs := st.lossMs + FRAME_SIZE_MS;
      st.(lossMs := lossMs, stats := Stats(st.aec.erleDb, st.noise.reductionDb, lossMs))
  }

  // ----- Runs

  ghost predicate AllReady(cs: seq<Command>) {
    forall i :: 0 <= i < |cs| ==> CommandReady(cs[i])
  }

  ghost function After(m: Lib, st: Pipe, cs: seq<Command>): (r: Pipe)
    requires PipeReady(st) && AllReady(cs)
    ensures PipeReady(r)
    decreases |cs|
  {
    if cs == [] then st else After(m, Next(m, st, cs[0]), cs[1..])
  }

  /** Everything a caller can observe: each command's frame and the stats after it. */
  ghost function Observed(m: Lib, st: Pipe, cs: seq<Command>): (r: seq<(seq<real>, Stats)>)
    requires PipeReady(st) && AllReady(cs)
    ensures |r| == |cs|
    decreases |cs|
  {
    if cs == [] then []
    else [(Output(m, st, cs[0]), Next(m, st, cs[0]).stats)] + Observed(m, Next(m, st, cs[0]), cs[1..])
  }

  /** Runs compose. */
  lemma {:induction false} RunAppend(m: Lib, st: Pipe, a: seq<Command>, b: seq<Command>)
    requires PipeReady(st) && AllReady(a) && AllReady(b)
    ensures AllReady(a + b)
    ensures After(m, st, a + b) == After(m, After(m, st, a), b)
    ensures Observed(m, st, a + b) == Observed(m, st, a) + Observed(m, After(m, st, a), b)
    decreases |a|
  {
    hide Next, Output, PipeReady;
    if a == [] {
      assert a + b == b;
    } else {
      RunAppend(m, Next(m, st, a[0]), a[1..], b);
      assert (a + b)[0] == a[0] && (a + b)[1..] == a[1..] + b;
    }
  }

  lemma AfterRestart(m: Lib, st: Pipe)
    requires PipeReady(st)
    ensures AllReady([Restart]) && After(m, st, [Restart]) == InitialPipe()
  {
    hide PipeReady;
    assert [Restart][1..] == [];
  }

  /** Whatever happened before a reset cannot be told from afterwards: the rest of the
      run is observed exactly as on a fresh pipeline. */
  lemma {:induction false} ResetForgets(m: Lib, st: Pipe, before: seq<Command>, rest: seq<Command>)
    requires PipeReady(st) && AllReady(before) && AllReady(rest)
    ensures AllReady(before + [Restart] + rest)
    ensures Observed(m, st, before + [Restart] + rest)[|before| + 1..] == Observed(m, InitialPipe(), rest)
  {
    hide PipeReady, Output, Next, After, Observed;
    var mid := After(m, st, before);
    RunAppend(m, st, before, [Restart] + rest);
    assert before + ([Restart] + rest) == before + [Restart] + rest;
    RunAppend(m, mid, [Restart], rest);
    AfterRestart(m, mid);
  }

  // ----- Loss bursts

  /** Losses one after another, with any reference frames between them. */
  ghost predicate IsBurst(cs: seq<Command>)
    ensures IsBurst(cs) ==> AllReady(cs)
  {
    forall i :: 0 <= i < |cs| ==> cs[i].Lost? || (cs[i].Reference? && |cs[i].frame| == FRAME_SIZE)
  }

  ghost function LossCount(cs: seq<Command>): nat {
    if cs == [] then 0 else (if cs[0].Lost? then 1 else 0) + LossCount(cs[1..])
  }

  lemma {:induction false} LossCountAppend(a: seq<Command>, b: seq<Command>)
    ensures LossCount(a + b) == LossCount(a) + LossCount(b)
  {
    if a == [] {
      assert a + b == b;
    } else {
      LossCountAppend(a[1..], b);
      assert (a + b)[0] == a[0] && (a + b)[1..] == a[1..] + b;
    }
  }

  /** The frame a burst starts from. */
  ghost function BurstBase(st: Pipe): (r: seq<real>)
    requires PipeReady(st)
    ensures |r| == FRAME_SIZE
  {
    HistorySuffices(st.history);
    BaseFrame(st.history)
  }

  /** max(0, 1 - j/10). */
  ghost function BurstFade(j: nat): (f: real)
    ensures 0.0 <= f <= 1.0
  {
    if j <= 10 then 1.0 - j as real / 10.0 else 0.0
  }

  /** A burst leaves history and suppressor alone and counts ten milliseconds a loss. */
  lemma {:induction false} BurstState(m: Lib, st: Pipe, cs: seq<Command>)
    requires PipeReady(st) && IsBurst(cs)
    ensures var r := After(m, st, cs);
      r.history == st.history && r.noise == st.noise && r.lossMs == st.lossMs + LossCount(cs) * FRAME_SIZE_MS
    decreases |cs|
  {
    hide PipeReady, Pushed;
    if cs != [] {
      BurstState(m, Next(m, st, cs[0]), cs[1..]);
    }
  }

  lemma FadeSteps(j: nat)
    ensures Fade(j * FRAME_SIZE_MS) == BurstFade(j)
  {}

  /** Commands after which a burst starts: the last one is a good frame or a reset, or
      there is none yet and the pipeline is fresh. */
  ghost predicate StartsBurst(st: Pipe, before: seq<Command>) {
    && AllReady(before)
    && if before == [] then st == InitialPipe() else before[|before| - 1].Good? || before[|before| - 1].Restart?
  }

  lemma AfterLast(m: Lib, st: Pipe, cs: seq<Command>)
    requires PipeReady(st) && AllReady(cs) && cs != []
    ensures After(m, st, cs) == Next(m, After(m, st, cs[..|cs| - 1]), cs[|cs| - 1])
  {
    hide PipeReady, Next;
    var front, c := cs[..|cs| - 1], cs[|cs| - 1];
    RunAppend(m, st, front, [c]);
    assert front + [c] == cs;
    var s := After(m, st, front);
    assert [c][1..] == [] && After(m, Next(m, s, c), []) == Next(m, s, c);
  }

  lemma CounterCleared(m: Lib, st: Pipe, before: seq<Command>)
    requires PipeReady(st) && StartsBurst(st, before)
    ensures After(m, st, before).lossMs == 0
  {
    hide PipeReady, Pushed, Processed, Cancelled, NextNoise, Suppressed;
    if before != [] { AfterLast(m, st, before); }
  }

  /** After a good frame or a reset, whatever came before, the counter stands at ten
      milliseconds for every loss since, and history and suppressor are what they were. */
  lemma {:induction false} BurstCounts(m: Lib, st: Pipe, before: seq<Command>, burst: seq<Command>)
    requires PipeReady(st) && StartsBurst(st, before) && IsBurst(burst)
    ensures AllReady(before + burst)
    ensures var s, r := After(m, st, before), After(m, st, before + burst);
      r.lossMs == 10 * LossCount(burst) && r.history == s.history && r.noise == s.noise
  {
    hide PipeReady, After, Next, StartsBurst, AllReady;
    assert AllReady(before) by { StartIsReady(st, before); }
    RunAppend(m, st, before, burst);
    CounterCleared(m, st, before);
    BurstState(m, After(m, st, before), burst);
  }

  lemma StartIsReady(st: Pipe, before: seq<Command>)
    requires StartsBurst(st, before)
    ensures AllReady(before)
  {}

  /** Losses since the last good frame or reset. */
  ghost function Trailing(cs: seq<Command>): nat {
    if cs == [] then 0
    else match cs[|cs| - 1]
      case Lost => 1 + Trailing(cs[..|cs| - 1])
      case Reference(_) => Trailing(cs[..|cs| - 1])
      case _ => 0
  }

  /** Over any run of a fresh pipeline the counter is ten milliseconds for each of them,
      and the stats are never out of date. */
  lemma {:induction false} CounterAndStats(m: Lib, cs: seq<Command>)
    requires AllReady(cs)
    ensures var r := After(m, InitialPipe(), cs);
      r.lossMs == 10 * Trailing(cs) && r.stats == Stats(r.aec.erleDb, r.noise.reductionDb, r.lossMs)
    decreases |cs|
  {
    hide PipeReady, Processed, Cancelled, NextNoise, Suppressed, InitialNoise, Zeros, After;
    if cs == [] {
      AfterNothing(m, InitialPipe());
    } else {
      CounterAndStats(m, cs[..|cs| - 1]);
      AfterLast(m, InitialPipe(), cs);
    }
  }

  lemma AfterNothing(m: Lib, st: Pipe)
    requires PipeReady(st)
    ensures After(m, st, []) == st
  {}

  lemma LossOutput(m: Lib, st: Pipe, j: nat)
    requires PipeReady(st) && st.lossMs == 10 * (j - 1)
    ensures Output(m, st, Lost) == Faded(BurstBase(st), BurstFade(j))
  {
    hide PipeReady, BaseFrame, Faded, Fade, BurstFade;
    FadeSteps(j);
  }

  /** Any loss of any run: max(0, 1 - j/10) times the frame the history determines, where
      the loss is the j-th since the last good frame or reset. */
  lemma AnyLoss(m: Lib, cs: seq<Command>)
    requires AllReady(cs)
    ensures var st := After(m, InitialPipe(), cs);
      Output(m, st, Lost) == Faded(BurstBase(st), BurstFade(Trailing(cs) + 1))
  {
    hide PipeReady, BurstBase, Faded, BurstFade, After, Output;
    CounterAndStats(m, cs);
    LossOutput(m, After(m, InitialPipe(), cs), Trailing(cs) + 1);
  }

  /** The next frame of a loss burst, its j-th, is max(0, 1 - j/10) times one fixed
      frame, the one the history at the start of the burst determines. */
  lemma {:induction false} BurstFrame(m: Lib, st: Pipe, before: seq<Command>, burst: seq<Command>)
    requires PipeReady(st) && StartsBurst(st, before) && IsBurst(burst)
    ensures AllReady(before + burst)
    ensures Output(m, After(m, st, before + burst), Lost)
         == Faded(BurstBase(After(m, st, before)), BurstFade(LossCount(burst) + 1))
  {
    hide PipeReady, BaseFrame, Faded, BurstFade, After, Output;
    BurstCounts(m, st, before, burst);
    LossOutput(m, After(m, st, before + burst), LossCount(burst) + 1);
  }

  lemma FadedEnergy(frame: seq<real>, fade: real)
    ensures Energy(Faded(frame, fade)) == fade * fade * Energy(frame)
  {
    hide Sum;
    forall k | 0 <= k < |frame| ensures Square(Faded(frame, fade))(k) == fade * fade * Square(frame)(k) {
      assert At(Faded(frame, fade), k) == At(frame, k) * fade;
      FadeSquare(At(frame, k), fade, At(Faded(frame, fade), k));
    }
    SumScale(|frame|, fade * fade, Square(frame), Square(Faded(frame, fade)));
  }

  lemma FadeSquare(x: real, f: real, y: real)
    requires y == x * f
    ensures y * y == f * f * (x * x)
  {}

  lemma SquaresOrdered(a: real, b: real, e: real)
    requires 0.0 <= a <= b && e >= 0.0
    ensures a * a * e <= b * b * e
  {
    NonnegProduct(b - a, b + a);
    assert (b - a) * (b + a) == b * b - a * a;
    NonnegProduct(b * b - a * a, e);
  }

  lemma FadeFalls(i: nat, j: nat)
    requires i <= j
    ensures BurstFade(j) <= BurstFade(i)
  {}

  lemma FadeRunsOut(j: nat)
    requires j >= 10
    ensures BurstFade(j) == 0.0
  {}

  /** The energy never rises within a burst, and from the tenth loss on it is silence. */
  lemma {:induction false} BurstFadesOut(m: Lib, st: Pipe, before: seq<Command>, b: seq<Command>, more: seq<Command>)
    requires PipeReady(st) && StartsBurst(st, before) && IsBurst(b) && IsBurst(more)
    ensures AllReady(before + b) && AllReady(before + (b + more))
    ensures Energy(Output(m, After(m, st, before + (b + more)), Lost)) <= Energy(Output(m, After(m, st, before + b), Lost))
    ensures LossCount(b) + 1 >= 10 ==> Output(m, After(m, st, before + b), Lost) == Zeros(FRAME_SIZE)
  {
    hide PipeReady, BurstBase, BurstFade, Energy, After, Output, Faded;
    LossCountAppend(b, more);
    BurstFrame(m, st, before, b); BurstFrame(m, st, before, b + more);
    var base, i, j := BurstBase(After(m, st, before)), LossCount(b) + 1, LossCount(b + more) + 1;
    FadeFalls(i, j);
    FadedEnergy(base, BurstFade(i)); FadedEnergy(base, BurstFade(j));
    EnergyNonneg(base);
    SquaresOrdered(BurstFade(j), BurstFade(i), Energy(base));
    if i >= 10 { FadeRunsOut(i); FadedToNothing(base); }
  }

  lemma ReadyHistory(st: Pipe)
    requires PipeReady(st)
    ensures AllFrames(st.history)
  {}

  lemma FadedToNothing(frame: seq<real>)
    requires |frame| == FRAME_SIZE
    ensures Faded(frame, 0.0) == Zeros(FRAME_SIZE)
  {}

  /** What concealment continues: the last 320 samples of the history. */
  ghost function Context(st: Pipe): seq<real> {
    TakeLast(Concat(st.history), 320)
  }

  /** No concealed sample is louder than the whole flattened history, as long as the
      Levinson recursion did not clamp. */
  lemma {:induction false} ConcealedSampleBound(m: Lib, st: Pipe, before: seq<Command>, burst: seq<Command>, k: nat)
    requires PipeReady(st) && StartsBurst(st, before) && IsBurst(burst) && k < FRAME_SIZE
    requires var h := After(m, st, before);
      h.history != [] && !Levinson(Autocorr(Context(h)), LPC_ORDER).clamped
    ensures AllReady(before + burst)
    ensures var x := Output(m, After(m, st, before + burst), Lost)[k]; x * x <= Energy(Context(After(m, st, before)))
  {
    hide PipeReady, Energy, After, Output, Levinson, Autocorr, BaseFrame, BurstFade, Extend, Faded;
    var h := After(m, st, before);
    ReadyHistory(h);
    HistorySuffices(h.history);
    BurstFrame(m, st, before, burst);
    BaseSampleBound(h.history, k);
    FadedSample(BurstBase(h), BurstFade(LossCount(burst) + 1), k, Energy(Context(h)));
  }

  /** The j-th frame of a burst is max(0, 1 - j/10) times the last 160 samples of a
      sequence that starts with the flattened history and goes on by a recurrence with
      twelve fixed coefficients; without a clamp these solve the normal equations. */
  lemma {:induction false} BurstPredicts(m: Lib, st: Pipe, before: seq<Command>, burst: seq<Command>)
    returns (s: seq<real>, a: seq<real>, order: nat, err: real)
    requires PipeReady(st) && StartsBurst(st, before) && IsBurst(burst) && After(m, st, before).history != []
    ensures var flat := Context(After(m, st, before));
      && |s| == |flat| + 160 && s[..|flat|] == flat && |a| == 12
      && (forall t: nat :: |flat| <= t < |s| ==> Recurs(a, 12, s, t))
      && (!Levinson(Autocorr(flat), 12).clamped ==> PredictorOf(flat, a, order, err))
    ensures AllReady(before + burst)
    ensures forall k :: 0 <= k < 160 ==>
      Output(m, After(m, st, before + burst), Lost)[k] == BurstFade(LossCount(burst) + 1) * s[|s| - 160 + k]
  {
    hide PipeReady, After, Output, Levinson, Autocorr, BaseFrame, BurstFade, Recurs, PredictorOf, Concat, TakeLast;
    var h := After(m, st, before);
    ReadyHistory(h);
    HistorySuffices(h.history);
    BurstFrame(m, st, before, burst);
    a, order, err := BaseFramePredicts(h.history);
    s := Context(h) + BaseFrame(h.history);
  }

  /** With no good frame since the start or the reset there is nothing to continue. */
  lemma NothingToConceal(m: Lib, st: Pipe)
    requires PipeReady(st) && st.history == []
    ensures Output(m, st, Lost) == Zeros(FRAME_SIZE)
  {
    hide Fade;
  }

  lemma FadedSample(frame: seq<real>, fade: real, k: nat, bound: real)
    requires k < |frame| && 0.0 <= fade <= 1.0 && frame[k] * frame[k] <= bound
    ensures Faded(frame, fade)[k] * Faded(frame, fade)[k] <= bound
  {
    ShrinkSquare(frame[k], fade, Faded(frame, fade)[k]);
  }

  lemma BaseSampleBound(h: seq<seq<real>>, k: nat)
    requires h != [] && |Concat(h)| >= LPC_ORDER && k < FRAME_SIZE
    requires !Levinson(Autocorr(TakeLast(Concat(h), LPC_HISTORY)), LPC_ORDER).clamped
    ensures BaseFrame(h)[k] * BaseFrame(h)[k] <= Energy(TakeLast(Concat(h), LPC_HISTORY))
  {
    hide Energy, Levinson, Autocorr, Extend, Concat;
    var flat := TakeLast(Concat(h), LPC_HISTORY);
    var a, tail := Levinson(Autocorr(flat), LPC_ORDER).a, flat[|flat| - LPC_ORDER..];
    ExtendPrefix(tail, a, LPC_ORDER, k + 1, FRAME_SIZE);
    assert BaseFrame(h)[k] == Sample(tail, a, LPC_ORDER, k + 1);
    NeverLouderThanHistory(flat, LPC_ORDER, k + 1);
  }

  // ----- The concealment history

  /** The frames good packets put out since the last reset, oldest first. */
  ghost function GoodOutputs(m: Lib, st: Pipe, cs: seq<Command>, sofar: seq<seq<real>>): seq<seq<real>>
    requires PipeReady(st) && AllReady(cs)
    decreases |cs|
  {
    if cs == [] then sofar
    else
      var acc := match cs[0]
        case Good(_) => sofar + [Output(m, st, cs[0])]
        case Restart => []
        case _ => sofar;
      GoodOutputs(m, Next(m, st, cs[0]), cs[1..], acc)
  }

  /** Over any run, the history is the last 20 good outputs since the reset. */
  lemma {:induction false} HistoryIsRecentOutputs(m: Lib, st: Pipe, cs: seq<Command>, sofar: seq<seq<real>>)
    requires PipeReady(st) && AllReady(cs) && st.history == TakeLast(sofar, 20)
    ensures After(m, st, cs).history == TakeLast(GoodOutputs(m, st, cs, sofar), 20)
    decreases |cs|
  {
    hide PipeReady, TakeLast;
    if cs != [] {
      var c := cs[0];
      var acc := match c
        case Good(_) => sofar + [Output(m, st, c)]
        case Restart => []
        case _ => sofar;
      HistoryStep(m, st, c, sofar, acc);
      HistoryIsRecentOutputs(m, Next(m, st, c), cs[1..], acc);
    }
  }

  lemma HistoryStep(m: Lib, st: Pipe, c: Command, sofar: seq<seq<real>>, acc: seq<seq<real>>)
    requires PipeReady(st) && CommandReady(c) && st.history == TakeLast(sofar, HISTORY_FRAMES)
    requires acc == match c
        case Good(_) => sofar + [Output(m, st, c)]
        case Restart => []
        case _ => sofar
    ensures Next(m, st, c).history == TakeLast(acc, HISTORY_FRAMES)
  {
    hide Suppressed, Cancelled, Processed, NextNoise, PipeReady;
    if c.Good? { TakeLastAppend(sofar, [Output(m, st, c)], HISTORY_FRAMES); }
  }

  /** What concealment flattens after a run: the last 320 samples of all good output
      since the reset that the 20 kept frames can supply. */
  lemma {:induction false} FlattenedHistory(m: Lib, cs: seq<Command>)
    requires AllReady(cs)
    ensures var good := GoodOutputs(m, InitialPipe(), cs, []);
      TakeLast(Concat(After(m, InitialPipe(), cs).history), LPC_HISTORY) == TakeLast(Concat(good), LPC_HISTORY)
  {
    hide PipeReady, After, GoodOutputs;
    HistoryIsRecentOutputs(m, InitialPipe(), cs, []);
    var good := GoodOutputs(m, InitialPipe(), cs, []);
    var kept := TakeLast(good, HISTORY_FRAMES);
    if |good| > HISTORY_FRAMES {
      ReadyHistory(After(m, InitialPipe(), cs));
      ConcatSplit(good, |good| - HISTORY_FRAMES);
      ConcatLength(kept);
      TakeLastFull(Concat(good[..|good| - HISTORY_FRAMES]), Concat(kept), LPC_HISTORY);
    }
  }

  // ----- The stages inside a run

  ghost function AecOps(cs: seq<Command>): seq<Op> {
    if cs == [] then []
    else
      var first := match cs[0]
        case Reference(f) => [Push(f)]
        case Good(f) => [Mic(f)]
        case _ => [];
      first + AecOps(cs[1..])
  }

  ghost predicate NoRestart(cs: seq<Command>) {
    forall i :: 0 <= i < |cs| ==> !cs[i].Restart?
  }

  lemma CancellerStep(m: Lib, st: Pipe, c: Command)
    requires PipeReady(st) && CommandReady(c) && !c.Restart?
    ensures Next(m, st, c).aec == match c
      case Reference(f) => Step(m, st.aec, Push(f))
      case Good(f) => Step(m, st.aec, Mic(f))
      case _ => st.aec
  {
    hide Processed, Pushed, Cancelled, NextNoise, Suppressed;
  }

  /** Between resets the echo canceller runs on the reference and the good frames in the
      order they came; losses do not touch it. */
  lemma {:induction false} CancellerRuns(m: Lib, st: Pipe, cs: seq<Command>)
    requires PipeReady(st) && AllReady(cs) && NoRestart(cs)
    ensures WellSized(AecOps(cs)) && After(m, st, cs).aec == Run(m, st.aec, AecOps(cs))
    decreases |cs|
  {
    hide Next, Step, ValidPsd, AllFrames;
    if cs != [] {
      var rest := AecOps(cs[1..]);
      CancellerStep(m, st, cs[0]);
      CancellerRuns(m, Next(m, st, cs[0]), cs[1..]);
      if cs[0].Reference? {
        assert ([Push(cs[0].frame)] + rest)[1..] == rest;
      } else if cs[0].Good? {
        assert ([Mic(cs[0].frame)] + rest)[1..] == rest;
      } else {
        assert [] + rest == rest;
      }
    }
  }

  /** The spectrum the suppressor sees of a good frame. */
  ghost function GoodSpectrum(m: Lib, st: Pipe, frame: seq<real>): (X: seq<Cx>)
    requires PipeReady(st) && |frame| == FRAME_SIZE
    ensures |X| == FFT_SIZE
  {
    Spectrum(m, Cancelled(st.aec, frame), FFT_SIZE)
  }

  /** The spectra of the cancelled good frames of a run. */
  ghost function Spectra(m: Lib, st: Pipe, cs: seq<Command>): seq<seq<Cx>>
    requires PipeReady(st) && AllReady(cs)
    decreases |cs|
  {
    if cs == [] then []
    else
      var rest := Spectra(m, Next(m, st, cs[0]), cs[1..]);
      if cs[0].Good? then [GoodSpectrum(m, st, cs[0].frame)] + rest else rest
  }

  lemma {:induction false} NoiseAfterFirst(m: Lib, st: Noise, X: seq<Cx>, Xs: seq<seq<Cx>>)
    requires ValidPsd(st.psd, FFT_SIZE) && |X| == FFT_SIZE && AllOfSize(Xs, FFT_SIZE)
    ensures NoiseAfter(m, st, [X] + Xs, FFT_SIZE) == NoiseAfter(m, NextNoise(m, st, X), Xs, FFT_SIZE)
    decreases |Xs|
  {
    hide NextNoise, ValidPsd;
    var all := [X] + Xs;
    if Xs == [] {
      assert all[..0] == [] && NoiseAfter(m, st, [], FFT_SIZE) == st;
      assert all == [X];
    } else {
      NoiseAfterFirst(m, st, X, Xs[..|Xs| - 1]);
      assert all[..|all| - 1] == [X] + Xs[..|Xs| - 1];
    }
  }

  lemma SpectraFirst(m: Lib, st: Pipe, cs: seq<Command>)
    requires PipeReady(st) && AllReady(cs) && cs != []
    requires AllOfSize(Spectra(m, Next(m, st, cs[0]), cs[1..]), FFT_SIZE)
    ensures AllOfSize(Spectra(m, st, cs), FFT_SIZE)
    ensures Spectra(m, st, cs) ==
      (if cs[0].Good? then [GoodSpectrum(m, st, cs[0].frame)] else []) + Spectra(m, Next(m, st, cs[0]), cs[1..])
  {
    hide Next, PipeReady, GoodSpectrum, AllReady;
    if !cs[0].Good? { assert [] + Spectra(m, st, cs) == Spectra(m, st, cs); }
  }

  lemma TailReady(cs: seq<Command>)
    requires AllReady(cs) && cs != []
    ensures CommandReady(cs[0]) && AllReady(cs[1..])
  {}

  lemma NoSpectra(m: Lib, st: Pipe, cs: seq<Command>)
    requires PipeReady(st) && cs == []
    ensures Spectra(m, st, cs) == []
  {}

  lemma NoiseAfterNothing(m: Lib, st: Noise)
    requires ValidPsd(st.psd, FFT_SIZE)
    ensures NoiseAfter(m, st, [], FFT_SIZE) == st
  {}

  lemma NoiseStep(m: Lib, st: Pipe, c: Command)
    requires PipeReady(st) && CommandReady(c) && !c.Restart?
    ensures ValidPsd(st.noise.psd, FFT_SIZE)
    ensures Next(m, st, c).noise == if c.Good? then NextNoise(m, st.noise, GoodSpectrum(m, st, c.frame)) else st.noise
  {
    hide Processed, Pushed, Cancelled, NextNoise, Suppressed, Spectrum;
  }

  /** Between resets the suppressor learns from the cancelled good frames alone. */
  lemma {:induction false} SuppressorRuns(m: Lib, st: Pipe, cs: seq<Command>)
    requires PipeReady(st) && AllReady(cs) && NoRestart(cs)
    ensures AllOfSize(Spectra(m, st, cs), FFT_SIZE)
    ensures After(m, st, cs).noise == NoiseAfter(m, st.noise, Spectra(m, st, cs), FFT_SIZE)
    decreases |cs|
  {
    hide Ready, AllFrames, Next, GoodSpectrum, NoiseAfter, ValidPsd, CommandReady, AllReady, Spectra;
    if cs == [] {
      NoSpectra(m, st, cs);
      NoiseAfterNothing(m, st.noise);
    } else {
      TailReady(cs);
      var c, next := cs[0], Next(m, st, cs[0]);
      SuppressorRuns(m, next, cs[1..]);
      NoiseStep(m, st, c);
      SpectraFirst(m, st, cs);
      if c.Good? {
        NoiseAfterFirst(m, st.noise, GoodSpectrum(m, st, c.frame), Spectra(m, next, cs[1..]));
      } else {
        assert [] + Spectra(m, next, cs[1..]) == Spectra(m, next, cs[1..]);
      }
    }
  }

  /** A good frame is the start of a real signal whose spectrum is that of the windowed
      cancelled frame under Boll's rule, with the estimate as just updated. */
  lemma {:induction false} GoodFrameSpectrum(m: Lib, st: Pipe, frame: seq<real>) returns (y: seq<Cx>)
    requires Lawful(m) && PipeReady(st) && |frame| == FRAME_SIZE
    ensures |y| == 512 && IsReal(y) && forall t :: 0 <= t < 160 ==> Output(m, st, Good(frame))[t] == y[t].re
    ensures forall k: nat :: k < 512 ==>
      SubtractedBin(Dft(y, Wlen(m, 512))[k], Dft(Windowed(m, Cancelled(st.aec, frame), 512), Wlen(m, 512))[k],
                    At(Next(m, st, Good(frame)).noise.psd, Fold(512, k)))
  {
    hide Lawful, Cancelled, NextNoise, Cleaned, Pow2, SubtractedBin, Dft, Windowed, Wlen, Processed;
    SizeIsPow2();
    var clean := Cancelled(st.aec, frame);
    y := CleanedSpectrum(m, NextNoise(m, st.noise, Spectrum(m, clean, FFT_SIZE)).psd, clean, FFT_SIZE);
  }

  /** A good frame leaves the noise suppressor with no more energy than the echo
      canceller gave it. */
  lemma {:induction false} SuppressionNeverAdds(m: Lib, st: Pipe, frame: seq<real>)
    requires Lawful(m) && PipeReady(st) && |frame| == FRAME_SIZE
    ensures Energy(Output(m, st, Good(frame))) <= Energy(Cancelled(st.aec, frame))
  {
    hide Lawful, Energy, Cleaned, Cancelled, NextNoise, Pow2;
    SizeIsPow2();
    NeverAddsEnergy(m, NextNoise(m, st.noise, Spectrum(m, Cancelled(st.aec, frame), FFT_SIZE)).psd,
                    Cancelled(st.aec, frame), FFT_SIZE);
  }

  /** Once the canceller holds the echo path, a frame of nothing but echo comes out silent. */
  lemma {:induction false} KnownEchoIsSilenced(m: Lib, st: Pipe, frame: seq<real>)
    requires Lawful(m) && PipeReady(st) && |frame| == FRAME_SIZE && ExactEcho(st.aec.w, st.aec.ref, frame)
    ensures Output(m, st, Good(frame)) == Zeros(FRAME_SIZE)
  {
    hide Lawful, Energy, Output, Cancelled, Processed, ExactEcho, Zeros, NextNoise, ValidPsd, AllFrames;
    KnownPathIsSilent(m, st.aec, frame);
    SuppressionNeverAdds(m, st, frame);
    ZerosEnergy(FRAME_SIZE);
    var out := Output(m, st, Good(frame));
    forall k | 0 <= k < FRAME_SIZE ensures out[k] == Zeros(FRAME_SIZE)[k] {
      if out[k] != 0.0 { EnergyPositive(out, k); }
      assert Zeros(FRAME_SIZE)[k] == 0.0;
    }
  }

  /** The energies of a run's good output, each weighted with its frame's step size. */
  ghost function GoodHeard(m: Lib, st: Pipe, cs: seq<Command>): real
    requires PipeReady(st) && AllReady(cs)
    decreases |cs|
  {
    if cs == [] then 0.0 else CommandHeard(m, st, cs[0]) + GoodHeard(m, Next(m, st, cs[0]), cs[1..])
  }

  ghost function CommandHeard(m: Lib, st: Pipe, c: Command): real
    requires PipeReady(st) && CommandReady(c)
  {
    if c.Good? then StepSize(st.aec.ref) * Energy(Output(m, st, c)) else 0.0
  }

  /** A good frame is heard with at most what the canceller leaves of it. */
  lemma CommandHeardBound(m: Lib, st: Pipe, c: Command)
    requires Lawful(m) && PipeReady(st) && CommandReady(c)
    ensures CommandHeard(m, st, c) <= if c.Good? then OpHeard(st.aec, Mic(c.frame)) else 0.0
  {
    hide Lawful, Energy, Output, Cancelled, StepSize;
    if c.Good? {
      SuppressionNeverAdds(m, st, c.frame);
      SafeTapEnergy(st.aec.ref, 0.0);
      WeightedLess(StepSize(st.aec.ref), Energy(Output(m, st, c)), Energy(Cancelled(st.aec, c.frame)));
    }
  }

  lemma {:induction false} GoodHeardBound(m: Lib, st: Pipe, cs: seq<Command>)
    requires Lawful(m) && PipeReady(st) && AllReady(cs) && NoRestart(cs)
    ensures WellSized(AecOps(cs)) && GoodHeard(m, st, cs) <= Heard(m, st.aec, AecOps(cs))
    decreases |cs|
  {
    hide Lawful, CommandHeard, Next, ValidPsd, AllFrames, Energy, StepSize, Cancelled, Step;
    if cs != [] {
      var c, rest := cs[0], AecOps(cs[1..]);
      CancellerRuns(m, st, cs);
      CancellerStep(m, st, c);
      CommandHeardBound(m, st, c);
      GoodHeardBound(m, Next(m, st, c), cs[1..]);
      if c.Reference? {
        assert ([Push(c.frame)] + rest)[1..] == rest;
        assert OpHeard(st.aec, Push(c.frame)) == 0.0;
      } else if c.Good? {
        assert ([Mic(c.frame)] + rest)[1..] == rest;
      } else {
        assert [] + rest == rest;
      }
    }
  }

  lemma WeightedLess(mu: real, a: real, b: real)
    requires mu > 0.0 && a <= b
    ensures mu * a <= mu * b
  {}

  /** End to end: on a fresh pipeline that hears nothing but echo, with a margin in the
      step sizes, all good output ever, weighted with the step sizes, carries at most the
      echo path's energy divided by the margin, whatever losses come between. */
  lemma OutputDiesOut(m: Lib, goal: seq<real>, cs: seq<Command>, margin: real)
    requires Lawful(m) && AllReady(cs) && NoRestart(cs) && |goal| == NLMS_LEN && margin >= 0.0
    requires WellSized(AecOps(cs)) && ExactRun(m, goal, InitialAec(), AecOps(cs))
    requires MarginRun(m, InitialAec(), AecOps(cs), margin)
    ensures margin * GoodHeard(m, InitialPipe(), cs) <= Energy(goal)
  {
    hide Lawful, Energy, GoodHeard, Heard, ExactRun, MarginRun, InitialNoise, Zeros, AllFrames;
    GoodHeardBound(m, InitialPipe(), cs);
    EchoDiesOut(m, goal, AecOps(cs), margin);
    NonnegProduct(margin, Heard(m, InitialAec(), AecOps(cs)) - GoodHeard(m, InitialPipe(), cs));
  }
}
