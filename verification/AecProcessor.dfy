/** The echo canceller object and its runs. */
module EchoProcessor {
  import opened Sums
  import opened Frames
  import opened MathLib
  import opened EchoCancellation

  datatype Aec = Aec(ref: seq<real>, w: seq<real>, echoPower: real, errorPower: real, erleDb: real)

  ghost predicate Ready(st: Aec) {
    |st.ref| == BUF_SIZE && |st.w| == NLMS_LEN && st.errorPower >= 0.0
  }

  ghost function InitialAec(): Aec {
    Aec(Zeros(BUF_SIZE), Zeros(NLMS_LEN), POWER_FLOOR, POWER_FLOOR, 0.0)
  }

  function Smooth(oldPower: real, energy: real): (r: real)
    ensures oldPower >= 0.0 && energy >= 0.0 ==> r >= 0.0
  {
    OLD_SHARE * oldPower + NEW_SHARE * (energy / FRAME_SIZE as real)
  }

  ghost function Pushed(st: Aec, frame: seq<real>): Aec
    requires Ready(st) && |frame| == FRAME_SIZE
  {
    st.(ref := st.ref[FRAME_SIZE..] + frame, echoPower := Smooth(st.echoPower, Energy(frame)))
  }

  /** The echo-cancelled frame: the error signal of the adapting filter. */
  ghost function Cancelled(st: Aec, mic: seq<real>): (out: seq<real>)
    requires Ready(st) && |mic| == FRAME_SIZE
    ensures |out| == FRAME_SIZE
  {
    seq(FRAME_SIZE, (n: nat) => ErrorOf(st.ref, mic, StepSize(st.ref), st.w, n))
  }

  ghost function Processed(m: Lib, st: Aec, mic: seq<real>): (r: Aec)
    requires Ready(st) && |mic| == FRAME_SIZE
    ensures Ready(r)
  {
    EnergyNonneg(Cancelled(st, mic));
    var errorPower := Smooth(st.errorPower, Energy(Cancelled(st, mic)));
    st.(w := Adapted(st.ref, mic, StepSize(st.ref), st.w, FRAME_SIZE),
        errorPower := errorPower,
        erleDb := if st.echoPower > POWER_FLOOR then Erle(m, st.echoPower, errorPower) else st.erleDb)
  }

  /** The echo return loss in dB. */
  function Erle(m: Lib, echo: real, error: real): real
    requires error >= 0.0
  {
    10.0 * m.log10(echo / (error + POWER_FLOOR))
  }

  // ----- Runs

  datatype Op = Push(frame: seq<real>) | Mic(frame: seq<real>)

  ghost function Step(m: Lib, st: Aec, op: Op): (r: Aec)
    requires Ready(st) && |op.frame| == FRAME_SIZE
    ensures Ready(r)
  {
    match op
    case Push(f) => Pushed(st, f)
    case Mic(f) => Processed(m, st, f)
  }

  ghost predicate WellSized(ops: seq<Op>) {
    forall i :: 0 <= i < |ops| ==> |ops[i].frame| == FRAME_SIZE
  }

  ghost function Run(m: Lib, st: Aec, ops: seq<Op>): (r: Aec)
    requires Ready(st) && WellSized(ops)
    ensures Ready(r)
    decreases |ops|
  {
    if ops == [] then st else Run(m, Step(m, st, ops[0]), ops[1..])
  }

  ghost predicate ExactRun(m: Lib, goal: seq<real>, st: Aec, ops: seq<Op>)
    requires Ready(st) && WellSized(ops)
    decreases |ops|
  {
    ops == [] ||
    ((ops[0].Mic? ==> ExactEcho(goal, st.ref, ops[0].frame))
     && ExactRun(m, goal, Step(m, st, ops[0]), ops[1..]))
  }

  ghost function FrameDrop(st: Aec, op: Op): real
    requires Ready(st) && |op.frame| == FRAME_SIZE
  {
    if op.Push? then 0.0 else Sum(FRAME_SIZE, DropAt(st.ref, op.frame, StepSize(st.ref), st.w))
  }

  /** The sum of mu e^2 (2 - mu ||x||^2) over every sample processed in a run. */
  ghost function TotalDrop(m: Lib, st: Aec, ops: seq<Op>): real
    requires Ready(st) && WellSized(ops)
    decreases |ops|
  {
    if ops == [] then 0.0 else FrameDrop(st, ops[0]) + TotalDrop(m, Step(m, st, ops[0]), ops[1..])
  }

  /** Conservation over whole runs: what the samples take off is exactly what the
      misalignment loses, however pushes and frames interleave. */
  lemma {:induction false} RunConservation(m: Lib, goal: seq<real>, st: Aec, ops: seq<Op>)
    requires Ready(st) && WellSized(ops) && |goal| == NLMS_LEN && ExactRun(m, goal, st, ops)
    ensures Misalignment(goal, Run(m, st, ops).w) == Misalignment(goal, st.w) - TotalDrop(m, st, ops)
    decreases |ops|
  {
    hide Misalignment, ExactEcho, Sum, StepSize, Adapted, DropAt, Cancelled, Smooth, Erle;
    if ops != [] {
      if ops[0].Mic? {
        FrameIdentity(goal, st.ref, ops[0].frame, StepSize(st.ref), st.w, FRAME_SIZE);
      }
      RunConservation(m, goal, Step(m, st, ops[0]), ops[1..]);
    }
  }

  lemma ZeroWeights(goal: seq<real>, n: nat)
    requires |goal| == n
    ensures Misalignment(goal, Zeros(n)) == Energy(goal)
  {
    forall k | 0 <= k < n ensures GapTerm(goal, Zeros(n))(k) == Square(goal)(k) {
      assert At(Zeros(n), k) == 0.0;
    }
    SumExt(n, GapTerm(goal, Zeros(n)), Square(goal));
  }

  /** From a fresh canceller the total is the echo path's own energy minus what is left. */
  lemma FreshRunConservation(m: Lib, goal: seq<real>, ops: seq<Op>)
    requires WellSized(ops) && |goal| == NLMS_LEN && ExactRun(m, goal, InitialAec(), ops)
    ensures TotalDrop(m, InitialAec(), ops)
         == Energy(goal) - Misalignment(goal, Run(m, InitialAec(), ops).w) <= Energy(goal)
  {
    hide Misalignment, Energy, Zeros, Run, TotalDrop, ExactRun;
    RunConservation(m, goal, InitialAec(), ops);
    ZeroWeights(goal, NLMS_LEN);
    MisalignmentNonneg(goal, Run(m, InitialAec(), ops).w);
  }

  /** Everything pushed in a run, oldest first. */
  ghost function Stream(ops: seq<Op>): seq<real> {
    if ops == [] then []
    else (if ops[0].Push? then ops[0].frame else []) + Stream(ops[1..])
  }

  /** The buffer is always the newest part of what was there followed by what was pushed:
      for a fresh canceller, the last 2400 samples of the zero-padded stream. */
  lemma {:induction false} BufferIsStreamTail(m: Lib, st: Aec, ops: seq<Op>)
    requires Ready(st) && WellSized(ops)
    ensures Run(m, st, ops).ref == TakeLast(st.ref + Stream(ops), BUF_SIZE)
    decreases |ops|
  {
    hide StepSize, Adapted, Cancelled, Smooth, Erle, TakeLast;
    if ops == [] {
      assert st.ref + [] == st.ref;
      TakeAll(st.ref, BUF_SIZE);
    } else {
      var next := Step(m, st, ops[0]);
      BufferIsStreamTail(m, next, ops[1..]);
      if ops[0].Push? {
        var f := ops[0].frame;
        SlideIsTakeLast(st.ref, f);
        TakeLastAppend(st.ref + f, Stream(ops[1..]), BUF_SIZE);
        assert st.ref + f + Stream(ops[1..]) == st.ref + (f + Stream(ops[1..]));
      } else {
        assert [] + Stream(ops[1..]) == Stream(ops[1..]);
      }
    }
  }

  lemma TakeAll(s: seq<real>, n: nat)
    requires |s| == n
    ensures TakeLast(s, n) == s
  {}

  lemma SlideIsTakeLast(s: seq<real>, f: seq<real>)
    requires |s| >= |f|
    ensures s[|f|..] + f == TakeLast(s + f, |s|)
  {}

  /** After any pushes and frames on a fresh canceller, if the 640 samples of the
      zero-padded stream before its last frame carry at most 159 times that frame's
      energy plus 1/2000, no sample of the next frame loses ground. */
  lemma {:induction false} RunFrameConverges(m: Lib, goal: seq<real>, ops: seq<Op>, mic: seq<real>, n: nat)
    requires WellSized(ops) && |goal| == NLMS_LEN && n < FRAME_SIZE
    requires ExactEcho(goal, Run(m, InitialAec(), ops).ref, mic)
    requires var s := Zeros(BUF_SIZE) + Stream(ops);
      Energy(s[|s| - 5 * FRAME_SIZE..|s| - FRAME_SIZE]) <= 159.0 * Energy(s[|s| - FRAME_SIZE..]) + 0.0005
    ensures var st := Run(m, InitialAec(), ops); KeepsAt(goal, st.ref, mic, st.w, n)
  {
    hide KeepsAt, Energy, Run, Stream, ExactEcho;
    var st, s := Run(m, InitialAec(), ops), Zeros(BUF_SIZE) + Stream(ops);
    BufferIsStreamTail(m, InitialAec(), ops);
    assert st.ref == s[|s| - BUF_SIZE..] by { if |s| == BUF_SIZE { assert s[0..] == s; } }
    assert LastFrame(st.ref) == s[|s| - FRAME_SIZE..];
    assert st.ref[BUF_SIZE - 5 * FRAME_SIZE..BUF_SIZE - FRAME_SIZE] == s[|s| - 5 * FRAME_SIZE..|s| - FRAME_SIZE];
    FrameConverges(goal, st.ref, mic, st.w, n);
  }

  // ----- Convergence over whole runs

  ghost predicate SafeFrame(ref: seq<real>)
    requires |ref| >= FRAME_SIZE
  {
    forall n: nat :: n < FRAME_SIZE ==> SafeTaps(ref, NLMS_LEN, n)
  }

  /** Every microphone frame of the run meets a reference with safe taps. */
  ghost predicate SafeRun(m: Lib, st: Aec, ops: seq<Op>)
    requires Ready(st) && WellSized(ops)
    decreases |ops|
  {
    ops == [] || ((ops[0].Mic? ==> SafeFrame(st.ref)) && SafeRun(m, Step(m, st, ops[0]), ops[1..]))
  }

  lemma StepKeepsGround(m: Lib, goal: seq<real>, st: Aec, op: Op)
    requires Ready(st) && |op.frame| == FRAME_SIZE && |goal| == NLMS_LEN
    requires op.Mic? ==> ExactEcho(goal, st.ref, op.frame) && SafeFrame(st.ref)
    ensures Misalignment(goal, Step(m, st, op).w) <= Misalignment(goal, st.w)
  {
    hide Misalignment, ExactEcho, SafeTaps, KeepsAt, StepSize, Adapted, Cancelled, Smooth, Erle, ErrorOf;
    if op.Mic? {
      forall n: nat | n < FRAME_SIZE ensures KeepsAt(goal, st.ref, op.frame, st.w, n) {
        SampleConverges(goal, st.ref, op.frame, st.w, n);
      }
      FrameKeeps(goal, st.ref, op.frame, st.w, FRAME_SIZE);
    }
  }

  /** Over a run whose references are safe the misalignment never rises: what the
      operations of b leave is at most what those of a left. */
  lemma {:induction false} RunConverges(m: Lib, goal: seq<real>, st: Aec, a: seq<Op>, b: seq<Op>)
    requires Ready(st) && WellSized(a + b) && |goal| == NLMS_LEN
    requires ExactRun(m, goal, st, a + b) && SafeRun(m, st, a + b)
    ensures WellSized(a) && Misalignment(goal, Run(m, st, a + b).w) <= Misalignment(goal, Run(m, st, a).w)
    decreases |a| + |b|
  {
    hide Misalignment, ExactEcho, SafeFrame, Step, Ready;
    assert WellSized(a) by { forall i | 0 <= i < |a| ensures |a[i].frame| == FRAME_SIZE { assert (a + b)[i] == a[i]; } }
    if a != [] {
      assert (a + b)[0] == a[0] && (a + b)[1..] == a[1..] + b;
      RunConverges(m, goal, Step(m, st, a[0]), a[1..], b);
    } else {
      assert a + b == b;
      if b != [] {
        var next := Step(m, st, b[0]);
        StepKeepsGround(m, goal, st, b[0]);
        assert [] + b[1..] == b[1..];
        RunConverges(m, goal, next, [], b[1..]);
      }
    }
  }

  /** From a fresh canceller such a run takes off, in all, at least nothing and at most
      the echo path's energy: the errors left to hear are summable. */
  lemma FreshRunConverges(m: Lib, goal: seq<real>, ops: seq<Op>)
    requires WellSized(ops) && |goal| == NLMS_LEN
    requires ExactRun(m, goal, InitialAec(), ops) && SafeRun(m, InitialAec(), ops)
    ensures 0.0 <= TotalDrop(m, InitialAec(), ops) <= Energy(goal)
    ensures Misalignment(goal, Run(m, InitialAec(), ops).w) <= Energy(goal)
  {
    hide Misalignment, Energy, Zeros, TotalDrop, ExactRun, SafeRun;
    assert [] + ops == ops;
    RunConverges(m, goal, InitialAec(), [], ops);
    FreshRunConservation(m, goal, ops);
    ZeroWeights(goal, NLMS_LEN);
  }

  // ----- What the output is

  /** Every output sample is the microphone less what the weights reached by then make of
      the reference: the sum over k of w[k] times the sample k before it. */
  lemma OutputSpelledOut(st: Aec, mic: seq<real>, n: nat, term: int -> real)
    requires Ready(st) && |mic| == FRAME_SIZE && n < FRAME_SIZE
    requires forall k: nat :: k < NLMS_LEN ==>
      term(k) == Adapted(st.ref, mic, StepSize(st.ref), st.w, n)[k] * st.ref[2240 + n - k]
    ensures Cancelled(st, mic)[n] == mic[n] - Sum(NLMS_LEN, term)
  {
    hide Sum, Adapted, StepSize, ErrorOf;
    ErrorSpelledOut(st.ref, mic, StepSize(st.ref), st.w, n, term);
  }

  /** A canceller that holds the echo path puts out silence and keeps its weights. */
  lemma KnownPathIsSilent(m: Lib, st: Aec, mic: seq<real>)
    requires Ready(st) && |mic| == FRAME_SIZE && ExactEcho(st.w, st.ref, mic)
    ensures Cancelled(st, mic) == Zeros(FRAME_SIZE) && Processed(m, st, mic).w == st.w
  {
    hide ErrorOf, StepSize, Adapted, ExactEcho, Energy, Erle, Smooth, Zeros;
    KnownPath(st.ref, mic, StepSize(st.ref), st.w, FRAME_SIZE);
    forall n: nat | n < FRAME_SIZE ensures Cancelled(st, mic)[n] == 0.0 {
      KnownPath(st.ref, mic, StepSize(st.ref), st.w, n);
    }
  }

  /** In particular a pure delay of d samples is cancelled exactly when it is the
      reference that many samples ago that comes back. */
  lemma DelayIsSilent(m: Lib, st: Aec, d: nat)
    requires Ready(st) && d < NLMS_LEN && st.w == Delay(d)
    ensures Cancelled(st, st.ref[2240 - d..2400 - d]) == Zeros(FRAME_SIZE)
    ensures Processed(m, st, st.ref[2240 - d..2400 - d]).w == st.w
  {
    hide Cancelled, Processed, ExactEcho, Delay;
    DelayedEcho(st.ref, st.ref[2240 - d..2400 - d], d);
    KnownPathIsSilent(m, st, st.ref[2240 - d..2400 - d]);
  }

  // ----- What is left to hear

  /** Every microphone frame of the run meets a reference whose taps leave the step a
      margin: mu ||x||^2 <= 2 - margin at each sample. */
  ghost predicate MarginRun(m: Lib, st: Aec, ops: seq<Op>, margin: real)
    requires Ready(st) && WellSized(ops)
    decreases |ops|
  {
    ops == [] || ((ops[0].Mic? ==> MarginFrame(st.ref, margin)) && MarginRun(m, Step(m, st, ops[0]), ops[1..], margin))
  }

  ghost predicate MarginFrame(ref: seq<real>, margin: real)
    requires |ref| >= FRAME_SIZE
  {
    forall n: nat :: n < FRAME_SIZE ==> StepSize(ref) * Energy(TapsAt(ref, NLMS_LEN, n)) <= 2.0 - margin
  }

  /** The output energies of a run, each weighted with its frame's step size. */
  ghost function Heard(m: Lib, st: Aec, ops: seq<Op>): real
    requires Ready(st) && WellSized(ops)
    decreases |ops|
  {
    if ops == [] then 0.0 else OpHeard(st, ops[0]) + Heard(m, Step(m, st, ops[0]), ops[1..])
  }

  ghost function OpHeard(st: Aec, op: Op): real
    requires Ready(st) && |op.frame| == FRAME_SIZE
  {
    if op.Mic? then StepSize(st.ref) * Energy(Cancelled(st, op.frame)) else 0.0
  }

  lemma MarginDrop(mu: real, e: real, energy: real, margin: real, share: real)
    requires mu > 0.0 && mu * energy <= 2.0 - margin && share == margin * mu
    ensures share * (e * e) <= Drop(mu, e, energy)
  {
    var p, q := mu * (e * e), 2.0 - mu * energy - margin;
    SquareNonneg(e);
    NonnegProduct(mu, e * e);
    NonnegProduct(p, q);
    assert Drop(mu, e, energy) == p * (2.0 - mu * energy);
    assert share * (e * e) == margin * p;
  }

  lemma FrameHeard(st: Aec, mic: seq<real>, margin: real, share: real)
    requires Ready(st) && |mic| == FRAME_SIZE && MarginFrame(st.ref, margin) && share == margin * StepSize(st.ref)
    ensures share * Energy(Cancelled(st, mic)) <= FrameDrop(st, Mic(mic))
  {
    hide Sum, StepSize, Energy, TapVector, ErrorOf, Drop;
    var mu, out := StepSize(st.ref), Cancelled(st, mic);
    var scaled := (n: int) => share * Square(out)(n);
    SafeTapEnergy(st.ref, 0.0);
    forall n | 0 <= n < FRAME_SIZE ensures scaled(n) <= DropAt(st.ref, mic, mu, st.w)(n) {
      var e := ErrorOf(st.ref, mic, mu, st.w, n);
      assert At(out, n) == e;
      assert DropAt(st.ref, mic, mu, st.w)(n) == Drop(mu, e, Energy(TapsAt(st.ref, NLMS_LEN, n)));
      SquareIs(out, n, e);
      MarginDrop(mu, e, Energy(TapsAt(st.ref, NLMS_LEN, n)), margin, share);
    }
    SumScale(FRAME_SIZE, share, Square(out), scaled);
    SumMono(FRAME_SIZE, scaled, DropAt(st.ref, mic, mu, st.w));
    EnergyIsSum(out, FRAME_SIZE);
  }

  lemma SquareIs(x: seq<real>, k: int, e: real)
    requires At(x, k) == e
    ensures Square(x)(k) == e * e
  {}

  lemma EnergyIsSum(x: seq<real>, n: nat)
    requires |x| == n
    ensures Energy(x) == Sum(n, Square(x))
  {}

  lemma {:induction false} RunHeard(m: Lib, st: Aec, ops: seq<Op>, margin: real)
    requires Ready(st) && WellSized(ops) && MarginRun(m, st, ops, margin)
    ensures margin * Heard(m, st, ops) <= TotalDrop(m, st, ops)
    decreases |ops|
  {
    hide StepSize, Energy, Cancelled, MarginFrame, FrameDrop, Step;
    if ops != [] {
      var next := Step(m, st, ops[0]);
      RunHeard(m, next, ops[1..], margin);
      if ops[0].Mic? {
        var mu, e := StepSize(st.ref), Energy(Cancelled(st, ops[0].frame));
        FrameHeard(st, ops[0].frame, margin, margin * mu);
        SplitMargin(margin, mu, e, Heard(m, next, ops[1..]));
        assert ops[0] == Mic(ops[0].frame);
      } else {
        PushDropsNothing(st, ops[0]);
      }
    }
  }

  lemma PushDropsNothing(st: Aec, op: Op)
    requires Ready(st) && |op.frame| == FRAME_SIZE && op.Push?
    ensures FrameDrop(st, op) == 0.0
  {}

  lemma SplitMargin(margin: real, mu: real, e: real, rest: real)
    ensures margin * (mu * e + rest) == margin * mu * e + margin * rest
  {}

  /** From zero weights, all the echo ever left in the output, weighted with the step
      sizes, is at most the echo path's energy divided by the margin: it dies out. */
  lemma EchoDiesOut(m: Lib, goal: seq<real>, ops: seq<Op>, margin: real)
    requires WellSized(ops) && |goal| == NLMS_LEN
    requires ExactRun(m, goal, InitialAec(), ops) && MarginRun(m, InitialAec(), ops, margin)
    ensures margin * Heard(m, InitialAec(), ops) <= Energy(goal)
  {
    hide Misalignment, Energy, Zeros, TotalDrop, ExactRun, MarginRun, Heard;
    RunHeard(m, InitialAec(), ops, margin);
    FreshRunConservation(m, goal, ops);
  }

  // ----- The power estimates

  /** The mean powers of the pushed frames of a run, and of its output frames. */
  ghost function EchoPowers(ops: seq<Op>): seq<real> {
    if ops == [] then []
    else (if ops[0].Push? then [Energy(ops[0].frame) / 160.0] else []) + EchoPowers(ops[1..])
  }

  ghost function OutputPowers(m: Lib, st: Aec, ops: seq<Op>): seq<real>
    requires Ready(st) && WellSized(ops)
    decreases |ops|
  {
    if ops == [] then []
    else
      var first := if ops[0].Mic? then [Energy(Cancelled(st, ops[0].frame)) / 160.0] else [];
      first + OutputPowers(m, Step(m, st, ops[0]), ops[1..])
  }

  /** Over any run the two power estimates are the exponential averages of the pushed
      frames' and the output frames' mean powers. */
  lemma {:induction false} PowersAreAverages(m: Lib, st: Aec, ops: seq<Op>, echo: seq<real>, out: seq<real>, p: real)
    requires Ready(st) && WellSized(ops)
    requires st.echoPower == Averaged(p, echo) && st.errorPower == Averaged(p, out)
    ensures var r := Run(m, st, ops);
      r.echoPower == Averaged(p, echo + EchoPowers(ops)) && r.errorPower == Averaged(p, out + OutputPowers(m, st, ops))
    decreases |ops|
  {
    hide Energy, Cancelled, StepSize, Adapted, Averaged, Erle;
    if ops == [] {
      assert echo + [] == echo && out + [] == out;
    } else {
      var f, next, rest := ops[0].frame, Step(m, st, ops[0]), ops[1..];
      if ops[0].Push? {
        var x := Energy(f) / 160.0;
        AveragedStep(p, echo, x);
        PowersAreAverages(m, next, rest, echo + [x], out, p);
        Regroup(echo, [x], EchoPowers(rest));
        assert [] + OutputPowers(m, next, rest) == OutputPowers(m, next, rest);
      } else {
        var x := Energy(Cancelled(st, f)) / 160.0;
        AveragedStep(p, out, x);
        PowersAreAverages(m, next, rest, echo, out + [x], p);
        Regroup(out, [x], OutputPowers(m, next, rest));
        assert [] + EchoPowers(rest) == EchoPowers(rest);
      }
    }
  }

  /** The echo return loss is reported once the echo power is above its floor, and is
      non-negative exactly when that power is at least the residual's plus the floor. */
  lemma ErleSign(m: Lib, st: Aec, mic: seq<real>)
    requires GrowingLog(m) && Ready(st) && |mic| == FRAME_SIZE
    ensures var r := Processed(m, st, mic);
      if st.echoPower > 0.0000000001
      then r.erleDb >= 0.0 <==> st.echoPower >= r.errorPower + 0.0000000001
      else r.erleDb == st.erleDb
  {
    hide Cancelled, StepSize, Adapted, Energy, GrowingLog;
    var r := Processed(m, st, mic);
    if st.echoPower > POWER_FLOOR { LogSign(m, st.echoPower, r.errorPower + POWER_FLOOR); }
  }

  // ----- A run that does not converge

  ghost function Ones(n: nat): (r: seq<real>)
    ensures |r| == n
  {
    seq(n, _ => 1.0)
  }

  ghost function SoundThenSilence(): (ops: seq<Op>)
    ensures WellSized(ops)
  {
    [Push(Ones(FRAME_SIZE)), Push(Zeros(FRAME_SIZE))]
  }

  lemma SoundThenSilenceState(m: Lib)
    ensures var st := Run(m, InitialAec(), SoundThenSilence());
      st.w == Zeros(NLMS_LEN) && LastFrame(st.ref) == Zeros(FRAME_SIZE) && st.ref[Position(BUF_SIZE, -1)] == 1.0
  {
    hide Smooth, Energy, Zeros, Ones;
    var ops := SoundThenSilence();
    var s1 := Step(m, InitialAec(), ops[0]);
    var s2 := Step(m, s1, ops[1]);
    assert ops[1..][0] == ops[1] && ops[1..][1..] == [];
    assert Run(m, s2, []) == s2;
    assert Run(m, s1, ops[1..]) == s2;
    assert s2.ref == s1.ref[FRAME_SIZE..] + Zeros(FRAME_SIZE);
    assert s1.ref == InitialAec().ref[FRAME_SIZE..] + Ones(FRAME_SIZE);
    OnesAt(FRAME_SIZE - 1);
  }

  lemma OnesAt(k: nat)
    requires k < FRAME_SIZE
    ensures Ones(FRAME_SIZE)[k] == 1.0
  {}

  /** One frame of ones, one of silence, and an exact echo one sample late: the first
      sample of the next frame takes a fresh canceller further from the path. */
  lemma SilenceAfterSoundDiverges(m: Lib)
    ensures var st := Run(m, InitialAec(), SoundThenSilence());
      ExactEcho(Delay(1), st.ref, EchoOf(Delay(1), st.ref))
      && Misalignment(Delay(1), Adapted(st.ref, EchoOf(Delay(1), st.ref), StepSize(st.ref), st.w, 1))
           > Misalignment(Delay(1), st.w)
  {
    hide Misalignment, Energy, Run, StepSize, Dot, TapVector, ErrorOf, EchoOf, ExactEcho, Zeros, SoundThenSilence;
    var st, goal := Run(m, InitialAec(), SoundThenSilence()), Delay(1);
    var mic, x := EchoOf(goal, st.ref), TapsAt(st.ref, NLMS_LEN, 0);
    SoundThenSilenceState(m);
    TapIs(st.ref, Position(BUF_SIZE, 0), NLMS_LEN, 1);
    assert At(x, 1) == 1.0;
    ZerosEnergy(FRAME_SIZE);
    EnergyAtLeast(x, 1);
    ErrorIsGap(goal, st.ref, mic, StepSize(st.ref), st.w, 0);
    DelayDot(1, x);
    DotCommutes(NLMS_LEN, x, goal); DotCommutes(NLMS_LEN, x, st.w);
    DotZeros(st.w, x);
    SampleConverges(goal, st.ref, mic, st.w, 0);
  }

  lemma ZerosEnergy(n: nat)
    ensures Energy(Zeros(n)) == 0.0
  {
    forall k | 0 <= k < n ensures Square(Zeros(n))(k) == 0.0 { assert At(Zeros(n), k) == 0.0; }
    SumZero(n, Square(Zeros(n)));
  }

  lemma EnergyAtLeast(x: seq<real>, k: nat)
    requires k < |x| && At(x, k) == 1.0
    ensures Energy(x) >= 1.0
  {
    hide Sum;
    forall i | 0 <= i < |x| ensures Square(x)(i) >= 0.0 { SquareAtLeastZero(x, i); }
    SumTerm(|x|, Square(x), k);
  }

  // ----- The loops

  method FillZero(a: array<real>)
    modifies a
    ensures a[..] == Zeros(a.Length)
  {
    for i := 0 to a.Length
      invariant forall k :: 0 <= k < i ==> a[k] == 0.0
    {
      a[i] := 0.0;
    }
  }

  method FrameEnergy(frame: seq<real>) returns (pwr: real)
    ensures pwr == Energy(frame)
  {
    pwr := 0.0;
    for i := 0 to |frame|
      invariant pwr == Sum(i, Square(frame))
    {
      pwr := pwr + frame[i] * frame[i];
    }
  }

  method FrameStepSize(x: array<real>) returns (mu: real)
    requires x.Length >= FRAME_SIZE
    ensures mu == StepSize(x[..])
  {
    hide Energy;
    var frame := x[x.Length - FRAME_SIZE..];
    assert frame == LastFrame(x[..]);
    var energy := FrameEnergy(frame);
    EnergyNonneg(frame);
    energy := energy / FRAME_SIZE as real * NLMS_LEN as real;
    mu := NLMS_MU / (energy + NLMS_DELTA);
  }

  /** The inner product of the weights and the taps ending at position pos. */
  method EchoEstimate(w: array<real>, ref: array<real>, pos: nat) returns (est: real)
    requires w.Length - 1 <= pos < ref.Length
    ensures est == Dot(w.Length, w[..], TapVector(ref[..], pos, w.Length))
  {
    hide TapVector;
    ghost var x := TapVector(ref[..], pos, w.Length);
    est := 0.0;
    for k := 0 to w.Length
      invariant est == Sum(k, Product(w[..], x))
    {
      TapIs(ref[..], pos, w.Length, k);
      est := est + w[k] * ref[pos - k];
    }
  }

  /** The weight update, in place. */
  method UpdateWeights(w: array<real>, ref: array<real>, c: real, pos: nat)
    requires w != ref && w.Length - 1 <= pos < ref.Length
    modifies w
    ensures w[..] == Updated(old(w[..]), c, TapVector(ref[..], pos, w.Length))
  {
    hide TapVector;
    ghost var w0, x := w[..], TapVector(ref[..], pos, w.Length);
    for k := 0 to w.Length
      invariant forall i :: 0 <= i < w.Length ==> w[i] == if i < k then Updated(w0, c, x)[i] else w0[i]
    {
      TapIs(ref[..], pos, w.Length, k);
      w[k] := w[k] + c * ref[pos - k];
    }
  }

  lemma CorrectionIs(ref: seq<real>, mic: seq<real>, mu: real, w0: seq<real>, n: nat, e: real, c: real)
    requires e == ErrorOf(ref, mic, mu, w0, n) && c == mu * e
    ensures Adapted(ref, mic, mu, w0, n + 1)
         == Updated(Adapted(ref, mic, mu, w0, n), c, TapVector(ref, Position(|ref|, n), |w0|))
  {
    hide ErrorSample, TapVector, Updated;
    assert c == Correction(ref, mic, mu, Adapted(ref, mic, mu, w0, n), n);
  }

  lemma CancelledIs(st: Aec, mic: seq<real>, out: seq<real>)
    requires Ready(st) && |mic| == FRAME_SIZE && |out| == FRAME_SIZE
    requires forall n: nat :: n < FRAME_SIZE ==> out[n] == ErrorOf(st.ref, mic, StepSize(st.ref), st.w, n)
    ensures out == Cancelled(st, mic)
  {
    hide ErrorOf, StepSize;
  }

  /** The per-sample loop of a frame: estimate, subtract, adapt. */
  method Adapt(ref: array<real>, w: array<real>, mic: seq<real>, mu: real) returns (out: seq<real>)
    requires w != ref && |mic| == FRAME_SIZE && w.Length + FRAME_SIZE <= ref.Length
    modifies w
    ensures w[..] == Adapted(ref[..], mic, mu, old(w[..]), FRAME_SIZE)
    ensures |out| == FRAME_SIZE
    ensures forall n: nat :: n < FRAME_SIZE ==> out[n] == ErrorOf(ref[..], mic, mu, old(w[..]), n)
  {
    hide Dot, TapVector, Updated;
    ghost var x, w0 := ref[..], w[..];
    var samples := |mic|;
    var e := new real[samples];
    for n := 0 to samples
      invariant ref[..] == x && w[..] == Adapted(x, mic, mu, w0, n)
      invariant forall k: nat :: k < n ==> e[k] == ErrorOf(x, mic, mu, w0, k)
    {
      var pos := ref.Length - samples + n;
      var est := EchoEstimate(w, ref, pos);
      e[n] := mic[n] - est;
      assert e[n] == ErrorOf(x, mic, mu, w0, n);
      var c := mu * e[n];
      CorrectionIs(x, mic, mu, w0, n, e[n], c);
      UpdateWeights(w, ref, c, pos);
    }
    out := e[..];
  }

  // ----- The object

  class AecProcessor {
    const lib: Lib
    var refBuf: array<real>
    var w: array<real>
    var echoPower: real
    var errorPower: real
    var erleDb: real

    ghost predicate Valid()
      reads this
    {
      refBuf != w && errorPower >= 0.0 && (Initialised() || (refBuf.Length == 0 && w.Length == 0))
    }

    ghost predicate Initialised()
      reads this
    {
      refBuf.Length == BUF_SIZE && w.Length == NLMS_LEN
    }

    ghost function State(): Aec
      reads this, refBuf, w
    {
      Aec(refBuf[..], w[..], echoPower, errorPower, erleDb)
    }

    constructor (m: Lib)
      ensures Valid() && lib == m && refBuf.Length == 0 && fresh(refBuf) && fresh(w)
      ensures echoPower == POWER_FLOOR && errorPower == POWER_FLOOR && erleDb == 0.0
    {
      lib := m;
      refBuf := new real[0];
      w := new real[0];
      echoPower := POWER_FLOOR;
      errorPower := POWER_FLOOR;
      erleDb := 0.0;
    }

    method Init()
      requires Valid()
      modifies this
      ensures Valid() && Initialised() && fresh(refBuf) && fresh(w)
      ensures refBuf[..] == Zeros(BUF_SIZE) && w[..] == Zeros(NLMS_LEN)
      ensures echoPower == old(echoPower) && errorPower == old(errorPower) && erleDb == old(erleDb)
    {
      var filterMs, rate := 150, 16000;
      var size := if filterMs * rate / 1000 >= NLMS_LEN + FRAME_SIZE then filterMs * rate / 1000 else NLMS_LEN + FRAME_SIZE;
      refBuf := new real[size](_ => 0.0);
      w := new real[NLMS_LEN](_ => 0.0);
    }

    /** Slide the buffer left by one frame and append the new one. */
    method Slide(frame: seq<real>)
      requires Valid() && Initialised() && |frame| == FRAME_SIZE
      modifies refBuf
      ensures refBuf[..] == old(refBuf[..])[FRAME_SIZE..] + frame
    {
      var n := refBuf.Length;
      ghost var before := refBuf[..];
      var i := 0;
      while i < n - FRAME_SIZE
        invariant 0 <= i <= n - FRAME_SIZE
        invariant forall k :: 0 <= k < i ==> refBuf[k] == before[k + FRAME_SIZE]
        invariant forall k :: i <= k < n ==> refBuf[k] == before[k]
      {
        refBuf[i] := refBuf[i + FRAME_SIZE];
        i := i + 1;
      }
      i := 0;
      while i < FRAME_SIZE
        invariant 0 <= i <= FRAME_SIZE
        invariant forall k :: 0 <= k < n - FRAME_SIZE ==> refBuf[k] == before[k + FRAME_SIZE]
        invariant forall k :: 0 <= k < i ==> refBuf[n - FRAME_SIZE + k] == frame[k]
      {
        refBuf[n - FRAME_SIZE + i] := frame[i];
        i := i + 1;
      }
      forall k | 0 <= k < n ensures refBuf[k] == (before[FRAME_SIZE..] + frame)[k] {
        if k >= n - FRAME_SIZE { assert refBuf[n - FRAME_SIZE + (k - (n - FRAME_SIZE))] == frame[k - (n - FRAME_SIZE)]; }
      }
    }

    /** One far-end frame: slide it in and update the smoothed echo power. */
    method PushReference(frame: seq<real>)
      requires Valid() && Initialised() && |frame| == FRAME_SIZE
      modifies this, refBuf
      ensures Valid() && refBuf == old(refBuf) && w == old(w)
      ensures State() == Pushed(old(State()), frame)
    {
      hide Energy;
      Slide(frame);
      var pwr := FrameEnergy(frame);
      echoPower := Smooth(echoPower, pwr);
    }

    /** One microphone frame through the adapting filter. */
    method Cancel(mic: seq<real>) returns (out: seq<real>)
      requires Valid() && Initialised() && |mic| == FRAME_SIZE
      modifies this, w
      ensures Valid() && refBuf == old(refBuf) && w == old(w)
      ensures out == Cancelled(old(State()), mic) && State() == Processed(lib, old(State()), mic)
    {
      hide Energy, StepSize, Adapted, ErrorOf, Cancelled, Smooth, Erle;
      ghost var st := State();
      var mu := FrameStepSize(refBuf);
      out := Adapt(refBuf, w, mic, mu);
      var sum := FrameEnergy(out);
      CancelledIs(st, mic, out);
      EnergyNonneg(out);
      errorPower := Smooth(errorPower, sum);
      if echoPower > POWER_FLOOR {
        erleDb := Erle(lib, echoPower, errorPower);
      }
    }

    /** One microphone frame. Before Init the frame passes through unchanged. */
    method Process(mic: seq<real>) returns (out: seq<real>)
      requires Valid() && |mic| == FRAME_SIZE
      modifies this, w
      ensures Valid() && refBuf == old(refBuf) && w == old(w)
      ensures !Initialised() ==> out == mic && State() == old(State())
      ensures Initialised() ==> out == Cancelled(old(State()), mic) && State() == Processed(lib, old(State()), mic)
    {
      hide Cancelled, Processed;
      if refBuf.Length < FRAME_SIZE {
        return mic;
      }
      out := Cancel(mic);
    }

    method Reset()
      requires Valid()
      modifies this, refBuf, w
      ensures Valid() && refBuf == old(refBuf) && w == old(w)
      ensures Initialised() ==> State() == InitialAec()
    {
      FillZero(refBuf);
      FillZero(w);
      echoPower := POWER_FLOOR;
      errorPower := POWER_FLOOR;
      erleDb := 0.0;
    }
  }
}
