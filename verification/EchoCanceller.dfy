/** The NLMS echo canceller on values: the sliding reference, the per-sample update,
    and what happens to the distance between the weights and the true echo path. */
module EchoCancellation {
  import opened Sums
  import opened Frames

  const NLMS_LEN: nat := 512
  const BUF_SIZE: nat := 2400
  const NLMS_MU := 0.04
  const NLMS_DELTA := 0.00001
  const POWER_FLOOR := 0.0000000001
  const OLD_SHARE := 0.95
  const NEW_SHARE := 0.05

  // ----- One sample

  /** The reference tap vector ending at position pos, newest sample first. */
  ghost function TapVector(x: seq<real>, pos: int, taps: nat): (r: seq<real>)
    ensures |r| == taps
  {
    seq(taps, (k: nat) => At(x, pos - k))
  }

  /** w + c x. */
  ghost function Updated(w: seq<real>, c: real, x: seq<real>): (r: seq<real>)
    ensures |r| == |w|
  {
    seq(|w|, (k: nat) requires k < |w| => w[k] + c * At(x, k))
  }

  ghost function GapTerm(goal: seq<real>, w: seq<real>): int -> real {
    (k: int) => (At(goal, k) - At(w, k)) * (At(goal, k) - At(w, k))
  }

  /** The squared distance of the weights from the echo path. */
  ghost function Misalignment(goal: seq<real>, w: seq<real>): real {
    Sum(|w|, GapTerm(goal, w))
  }

  ghost function CrossGap(goal: seq<real>, w: seq<real>, x: seq<real>): int -> real {
    (k: int) => (At(goal, k) - At(w, k)) * At(x, k)
  }

  lemma ErrorIsCrossGap(goal: seq<real>, w: seq<real>, x: seq<real>, n: nat)
    ensures Dot(n, goal, x) - Dot(n, w, x) == Sum(n, CrossGap(goal, w, x))
  {
    hide At, Sum;
    forall k | 0 <= k < n
      ensures CrossGap(goal, w, x)(k) == Product(goal, x)(k) + (-1.0) * Product(w, x)(k)
    {
      GapProduct(At(goal, k), At(w, k), At(x, k));
    }
    SumLinear(n, Product(goal, x), -1.0, Product(w, x), CrossGap(goal, w, x));
  }

  lemma GapProduct(a: real, b: real, x: real)
    ensures (a - b) * x == a * x + (-1.0) * (b * x)
  {}

  lemma GapSquare(g: real, c: real, x: real, h: real)
    requires h == g - c * x
    ensures h * h == g * g + (-2.0 * c) * (g * x) + c * c * (x * x)
  {}

  lemma UpdatedGap(goal: seq<real>, w: seq<real>, c: real, x: seq<real>, k: nat)
    requires k < |w|
    ensures GapTerm(goal, Updated(w, c, x))(k)
         == GapTerm(goal, w)(k) + (-2.0 * c) * CrossGap(goal, w, x)(k) + c * c * Square(x)(k)
  {
    var g, h := At(goal, k) - At(w, k), At(goal, k) - At(Updated(w, c, x), k);
    assert At(Updated(w, c, x), k) == At(w, k) + c * At(x, k);
    GapSquare(g, c, At(x, k), h);
  }

  /** The misalignment after moving the weights by c x. */
  lemma MisalignmentAfter(goal: seq<real>, w: seq<real>, c: real, x: seq<real>)
    ensures Misalignment(goal, Updated(w, c, x))
         == Misalignment(goal, w) + (-2.0 * c) * Sum(|w|, CrossGap(goal, w, x)) + c * c * Sum(|w|, Square(x))
  {
    hide Sum, Updated, At;
    var n, w' := |w|, Updated(w, c, x);
    var mid := (k: int) => GapTerm(goal, w)(k) + (-2.0 * c) * CrossGap(goal, w, x)(k);
    forall k | 0 <= k < n ensures GapTerm(goal, w')(k) == mid(k) + c * c * Square(x)(k) {
      UpdatedGap(goal, w, c, x, k);
    }
    SumLinear(n, GapTerm(goal, w), -2.0 * c, CrossGap(goal, w, x), mid);
    SumLinear(n, mid, c * c, Square(x), GapTerm(goal, w'));
  }

  /** What one update takes off the misalignment. */
  ghost function Drop(mu: real, e: real, energy: real): real {
    mu * (e * e) * (2.0 - mu * energy)
  }

  lemma DropIdentity(mu: real, e: real, energy: real, c: real)
    requires c == mu * e
    ensures (-2.0 * c) * e + c * c * energy == -Drop(mu, e, energy)
  {}

  /** One NLMS step with an exact echo: the misalignment falls by exactly
      mu e^2 (2 - mu ||x||^2). */
  lemma StepIdentity(goal: seq<real>, w: seq<real>, x: seq<real>, mu: real, e: real, c: real)
    requires |x| == |w| && c == mu * e
    requires e == Dot(|w|, goal, x) - Dot(|w|, w, x)
    ensures Misalignment(goal, Updated(w, c, x)) == Misalignment(goal, w) - Drop(mu, e, Energy(x))
  {
    hide Sum, Dot, Misalignment, Updated, Drop;
    MisalignmentAfter(goal, w, c, x);
    ErrorIsCrossGap(goal, w, x, |w|);
    DropIdentity(mu, e, Energy(x), c);
  }

  /** So a step with a positive step size keeps the misalignment from growing exactly
      when there is no error or mu ||x||^2 <= 2. */
  lemma StepConverges(goal: seq<real>, w: seq<real>, x: seq<real>, mu: real, e: real, c: real)
    requires |x| == |w| && c == mu * e && mu > 0.0
    requires e == Dot(|w|, goal, x) - Dot(|w|, w, x)
    ensures Misalignment(goal, Updated(w, c, x)) <= Misalignment(goal, w)
       <==> e == 0.0 || mu * Energy(x) <= 2.0
  {
    hide Energy, Dot, Misalignment, Updated, Drop;
    StepIdentity(goal, w, x, mu, e, c);
    DropSign(mu, e, Energy(x));
  }

  lemma DropSign(mu: real, e: real, energy: real)
    requires mu > 0.0
    ensures Drop(mu, e, energy) >= 0.0 <==> e == 0.0 || mu * energy <= 2.0
  {
    var sq := e * e;
    var p, q := mu * sq, 2.0 - mu * energy;
    assert Drop(mu, e, energy) == p * q;
    if e != 0.0 {
      PositiveSquare(e, sq);
      PositiveProduct(mu, sq, p);
      if q >= 0.0 { NonnegProduct(p, q); } else { NegativeProduct(p, q); }
    }
  }

  lemma PositiveSquare(e: real, sq: real)
    requires e != 0.0 && sq == e * e
    ensures sq > 0.0
  {
    if e > 0.0 { PositiveProduct(e, e, sq); } else { PositiveProduct(-e, -e, sq); }
  }

  lemma PositiveProduct(a: real, b: real, p: real)
    requires a > 0.0 && b > 0.0 && p == a * b
    ensures p > 0.0
  {}

  lemma NegativeProduct(a: real, b: real)
    requires a > 0.0 && b < 0.0
    ensures a * b < 0.0
  {}

  // ----- One frame

  /** Position of sample n of the current frame in a buffer of N reference samples. */
  function Position(N: int, n: int): int { N - FRAME_SIZE + n }

  ghost function LastFrame(ref: seq<real>): seq<real>
    requires |ref| >= FRAME_SIZE
  {
    ref[|ref| - FRAME_SIZE..]
  }

  /** The step size, from the energy of the newest reference frame alone. */
  ghost function StepSize(ref: seq<real>): real
    requires |ref| >= FRAME_SIZE
  {
    EnergyNonneg(LastFrame(ref));
    NLMS_MU / (Energy(LastFrame(ref)) / FRAME_SIZE as real * NLMS_LEN as real + NLMS_DELTA)
  }

  ghost function ErrorSample(ref: seq<real>, mic: seq<real>, w: seq<real>, n: nat): real {
    At(mic, n) - Dot(|w|, w, TapVector(ref, Position(|ref|, n), |w|))
  }

  /** The weights after the first n samples of a frame. */
  ghost function Adapted(ref: seq<real>, mic: seq<real>, mu: real, w0: seq<real>, n: nat): (w: seq<real>)
    ensures |w| == |w0|
  {
    if n == 0 then w0
    else
      var w := Adapted(ref, mic, mu, w0, n - 1);
      Updated(w, Correction(ref, mic, mu, w, n - 1), TapVector(ref, Position(|ref|, n - 1), |w|))
  }

  ghost function Correction(ref: seq<real>, mic: seq<real>, mu: real, w: seq<real>, n: nat): real {
    mu * ErrorSample(ref, mic, w, n)
  }

  ghost function ErrorOf(ref: seq<real>, mic: seq<real>, mu: real, w0: seq<real>, n: nat): real {
    ErrorSample(ref, mic, Adapted(ref, mic, mu, w0, n), n)
  }

  /** The microphone hears the echo path applied to the reference, and nothing else. */
  ghost predicate ExactEcho(goal: seq<real>, ref: seq<real>, mic: seq<real>) {
    && |mic| == FRAME_SIZE
    && forall n: nat :: n < FRAME_SIZE ==>
         At(mic, n) == Dot(|goal|, goal, TapVector(ref, Position(|ref|, n), |goal|))
  }

  /** What sample n of the frame takes off the misalignment. */
  ghost function DropAt(ref: seq<real>, mic: seq<real>, mu: real, w0: seq<real>): int -> real {
    (n: int) => if n < 0 then 0.0 else
      Drop(mu, ErrorOf(ref, mic, mu, w0, n), Energy(TapVector(ref, Position(|ref|, n), |w0|)))
  }

  /** Sample n of an exact-echo frame: the misalignment falls by exactly its drop. */
  lemma SampleIdentity(goal: seq<real>, ref: seq<real>, mic: seq<real>, mu: real, w0: seq<real>, n: nat)
    requires |goal| == |w0| && n < FRAME_SIZE && ExactEcho(goal, ref, mic)
    ensures Misalignment(goal, Adapted(ref, mic, mu, w0, n + 1))
         == Misalignment(goal, Adapted(ref, mic, mu, w0, n)) - DropAt(ref, mic, mu, w0)(n)
  {
    hide Misalignment, Drop, Dot, TapVector, Energy, Updated, At;
    var w, x := Adapted(ref, mic, mu, w0, n), TapVector(ref, Position(|ref|, n), |w0|);
    StepIdentity(goal, w, x, mu, ErrorOf(ref, mic, mu, w0, n), Correction(ref, mic, mu, w, n));
  }

  /** Inside a frame the misalignment is what is left after the drops so far. */
  lemma {:induction false} FrameIdentity(goal: seq<real>, ref: seq<real>, mic: seq<real>, mu: real, w0: seq<real>, n: nat)
    requires |goal| == |w0| && n <= FRAME_SIZE && ExactEcho(goal, ref, mic)
    ensures Misalignment(goal, Adapted(ref, mic, mu, w0, n)) == Misalignment(goal, w0) - Sum(n, DropAt(ref, mic, mu, w0))
  {
    hide Misalignment, DropAt, ExactEcho;
    if n > 0 {
      FrameIdentity(goal, ref, mic, mu, w0, n - 1);
      SampleIdentity(goal, ref, mic, mu, w0, n - 1);
    }
  }

  // ----- The same in plain sums and delays

  lemma TapIs(ref: seq<real>, pos: int, taps: nat, k: nat)
    requires k < taps && 0 <= pos - k < |ref|
    ensures At(TapVector(ref, pos, taps), k) == ref[pos - k]
  {
    assert TapVector(ref, pos, taps)[k] == At(ref, pos - k);
  }

  /** Filtering is convolution: tap k of sample n is the reference k samples before it. */
  lemma TapsDot(w: seq<real>, ref: seq<real>, n: nat, term: int -> real)
    requires n < FRAME_SIZE && |w| + FRAME_SIZE <= |ref|
    requires forall k: nat :: k < |w| ==> term(k) == w[k] * ref[|ref| - 160 + n - k]
    ensures Dot(|w|, w, TapVector(ref, Position(|ref|, n), |w|)) == Sum(|w|, term)
  {
    hide Sum, TapVector;
    var x := TapVector(ref, Position(|ref|, n), |w|);
    forall k: nat | k < |w| ensures Product(w, x)(k) == term(k) { TapIs(ref, |ref| - 160 + n, |w|, k); }
    SumExt(|w|, Product(w, x), term);
  }

  /** The error of sample n: the microphone less the sum over k of w[k] times the
      reference k samples earlier, with the weights adapted so far. */
  lemma ErrorSpelledOut(ref: seq<real>, mic: seq<real>, mu: real, w0: seq<real>, n: nat, term: int -> real)
    requires n < FRAME_SIZE == |mic| && |w0| + FRAME_SIZE <= |ref|
    requires forall k: nat :: k < |w0| ==> term(k) == Adapted(ref, mic, mu, w0, n)[k] * ref[|ref| - 160 + n - k]
    ensures ErrorOf(ref, mic, mu, w0, n) == mic[n] - Sum(|w0|, term)
  {
    hide Sum, Dot, TapVector, Adapted;
    TapsDot(Adapted(ref, mic, mu, w0, n), ref, n, term);
  }

  /** The path that passes the reference on unchanged, d samples late. */
  ghost function Delay(d: nat): (goal: seq<real>)
    requires d < NLMS_LEN
    ensures |goal| == NLMS_LEN
  {
    Zeros(NLMS_LEN)[d := 1.0]
  }

  lemma DelayDot(d: nat, x: seq<real>)
    requires d < NLMS_LEN == |x|
    ensures Dot(NLMS_LEN, Delay(d), x) == At(x, d)
  {
    hide Sum;
    forall k | 0 <= k < NLMS_LEN && k != d ensures Product(Delay(d), x)(k) == 0.0 {
      assert At(Delay(d), k) == 0.0;
    }
    assert At(Delay(d), d) == 1.0;
    SumSingle(NLMS_LEN, Product(Delay(d), x), d);
  }

  /** Its echo is the newest frame, taken d samples earlier: the newest frame itself for
      no delay. */
  lemma DelayedEcho(ref: seq<real>, mic: seq<real>, d: nat)
    requires d < NLMS_LEN && NLMS_LEN + FRAME_SIZE <= |ref|
    ensures ExactEcho(Delay(d), ref, mic) <==> mic == ref[|ref| - 160 - d..|ref| - d]
  {
    hide Dot, TapVector, Delay;
    var echo := ref[|ref| - 160 - d..|ref| - d];
    forall n: nat | n < FRAME_SIZE
      ensures Dot(NLMS_LEN, Delay(d), TapVector(ref, Position(|ref|, n), NLMS_LEN)) == echo[n]
    {
      DelayDot(d, TapVector(ref, Position(|ref|, n), NLMS_LEN));
      TapIs(ref, |ref| - 160 + n, NLMS_LEN, d);
    }
    if ExactEcho(Delay(d), ref, mic) {
      forall n: nat | n < FRAME_SIZE ensures mic[n] == echo[n] { assert At(mic, n) == echo[n]; }
    }
  }

  /** Weights that already are the echo path hear nothing and stay as they are. */
  lemma {:induction false} KnownPath(ref: seq<real>, mic: seq<real>, mu: real, w: seq<real>, n: nat)
    requires ExactEcho(w, ref, mic) && n <= FRAME_SIZE
    ensures Adapted(ref, mic, mu, w, n) == w
    ensures n < FRAME_SIZE ==> ErrorOf(ref, mic, mu, w, n) == 0.0
  {
    hide Dot, TapVector;
    if n > 0 {
      KnownPath(ref, mic, mu, w, n - 1);
      NoMove(w, TapVector(ref, Position(|ref|, n - 1), |w|));
      assert Correction(ref, mic, mu, w, n - 1) == 0.0;
    }
  }

  lemma NoMove(w: seq<real>, x: seq<real>)
    ensures Updated(w, 0.0, x) == w
  {}

  // ----- When the step size is safe

  /** The tap vectors of a frame look at most 671 samples back: the current frame and
      the four before it. */
  lemma TapEnergyBound(ref: seq<real>, n: nat)
    requires |ref| >= 5 * FRAME_SIZE && n < FRAME_SIZE
    ensures Energy(TapVector(ref, Position(|ref|, n), NLMS_LEN)) <= Energy(ref[|ref| - 5 * FRAME_SIZE..])
  {
    hide Sum, At;
    var pos := Position(|ref|, n);
    WindowEnergy(ref, pos, NLMS_LEN, |ref| - 5 * FRAME_SIZE, 5 * FRAME_SIZE);
  }

  lemma SquareSame(x: seq<real>, i: int, y: seq<real>, j: int)
    requires At(x, i) == At(y, j)
    ensures Square(x)(i) == Square(y)(j)
  {}

  lemma SquareAtLeastZero(x: seq<real>, k: int)
    ensures Square(x)(k) >= 0.0
  {
    SquareNonneg(At(x, k));
  }

  lemma TapInBlock(ref: seq<real>, pos: int, taps: nat, start: nat, k: nat)
    requires start <= pos - taps + 1 && pos < |ref| && k < taps
    ensures Square(TapVector(ref, pos, taps))(taps - 1 - k) == Square(ref[start..])(pos - taps + 1 - start + k)
  {
    var i, j := taps - 1 - k, pos - taps + 1 - start + k;
    assert TapVector(ref, pos, taps)[i] == At(ref, pos - i);
    assert ref[start..][j] == ref[pos - i];
    SquareSame(TapVector(ref, pos, taps), i, ref[start..], j);
  }

  /** A run of non-negative terms inside a sum is at most the sum. */
  lemma PartOfSum(f: int -> real, skip: nat, taps: nat, total: nat, mid: int -> real)
    requires skip + taps <= total && forall k :: 0 <= k < total ==> f(k) >= 0.0
    requires forall k :: 0 <= k < taps ==> mid(k) == f(skip + k)
    ensures Sum(taps, mid) <= Sum(total, f)
  {
    hide Sum;
    var rest := (k: int) => f(skip + taps + k);
    SumSplit(skip, taps, f, mid);
    SumSplit(skip + taps, total - skip - taps, f, rest);
    SumNonneg(skip, f);
    SumNonneg(total - skip - taps, rest);
  }

  /** A window read backwards inside a block has at most the block's energy. */
  lemma WindowEnergy(ref: seq<real>, pos: int, taps: nat, start: nat, len: nat)
    requires start + len == |ref| && start <= pos - taps + 1 && pos < |ref|
    ensures Energy(TapVector(ref, pos, taps)) <= Energy(ref[start..])
  {
    hide Sum, Square, TapVector;
    var x, y := TapVector(ref, pos, taps), ref[start..];
    var back := (k: int) => Square(x)(taps - 1 - k);
    SumReverse(taps, Square(x), back);
    var skip: nat := pos - taps + 1 - start;
    forall k | 0 <= k < taps ensures back(k) == Square(y)(skip + k) { TapInBlock(ref, pos, taps, start, k); }
    forall k | 0 <= k < len ensures Square(y)(k) >= 0.0 { SquareAtLeastZero(y, k); }
    PartOfSum(Square(y), skip, taps, len, back);
  }

  lemma EnergySplit(x: seq<real>, m: nat)
    requires m <= |x|
    ensures Energy(x) == Energy(x[..m]) + Energy(x[m..])
  {
    SumSplit(m, |x| - m, Square(x), Square(x[m..]));
    SumExt(m, Square(x), Square(x[..m]));
  }

  /** The step size is safe for taps of energy t exactly when t is at most 160 times the
      newest frame's energy plus 1/2000. */
  lemma SafeTapEnergy(ref: seq<real>, t: real)
    requires |ref| >= FRAME_SIZE
    ensures StepSize(ref) > 0.0
    ensures StepSize(ref) * t <= 2.0 <==> t <= 160.0 * Energy(LastFrame(ref)) + 0.0005
  {
    hide Energy;
    var e0 := Energy(LastFrame(ref));
    EnergyNonneg(LastFrame(ref));
    var d := e0 / FRAME_SIZE as real * NLMS_LEN as real + NLMS_DELTA;
    assert d == 3.2 * e0 + NLMS_DELTA;
    QuotientCompare(NLMS_MU, d, t, StepSize(ref));
  }

  lemma QuotientCompare(a: real, d: real, t: real, mu: real)
    requires a > 0.0 && d > 0.0 && mu == a / d
    ensures mu > 0.0
    ensures mu * t <= 2.0 <==> a * t <= 2.0 * d
  {
    assert mu * d == a;
    var m := mu * t;
    assert m * d == a * t;
    if m > 2.0 { PositiveProduct(m - 2.0, d, (m - 2.0) * d); } else { NonnegProduct(2.0 - m, d); }
  }

  ghost function TapsAt(ref: seq<real>, taps: nat, n: int): (x: seq<real>)
    ensures |x| == taps
  {
    TapVector(ref, Position(|ref|, n), taps)
  }

  /** Sample n does not take the weights further from the path. */
  ghost predicate KeepsAt(goal: seq<real>, ref: seq<real>, mic: seq<real>, w0: seq<real>, n: nat)
    requires |ref| >= FRAME_SIZE
  {
    Misalignment(goal, Adapted(ref, mic, StepSize(ref), w0, n + 1))
      <= Misalignment(goal, Adapted(ref, mic, StepSize(ref), w0, n))
  }

  /** Taps of a sample the reference alone declares safe. */
  ghost predicate SafeTaps(ref: seq<real>, taps: nat, n: int)
    requires |ref| >= FRAME_SIZE
  {
    Energy(TapsAt(ref, taps, n)) <= 160.0 * Energy(LastFrame(ref)) + 0.0005
  }

  /** A sample moves the weights away exactly when it has an error and unsafe taps. */
  lemma SampleConverges(goal: seq<real>, ref: seq<real>, mic: seq<real>, w0: seq<real>, n: nat)
    requires |goal| == |w0| && |ref| >= FRAME_SIZE && n < FRAME_SIZE && ExactEcho(goal, ref, mic)
    ensures KeepsAt(goal, ref, mic, w0, n)
       <==> ErrorOf(ref, mic, StepSize(ref), w0, n) == 0.0 || SafeTaps(ref, |w0|, n)
  {
    hide Misalignment, Energy, StepSize, Adapted, ErrorOf, TapVector, Drop, ExactEcho;
    var mu, e, t := StepSize(ref), ErrorOf(ref, mic, StepSize(ref), w0, n), Energy(TapsAt(ref, |w0|, n));
    SafeTapEnergy(ref, t);
    DropSign(mu, e, t);
    SampleIdentity(goal, ref, mic, mu, w0, n);
  }

  /** One process call: no sample of the frame loses ground if and only if every sample
      has no error or safe taps. */
  lemma FrameConvergesIff(goal: seq<real>, ref: seq<real>, mic: seq<real>, w0: seq<real>)
    requires |goal| == |w0| && |ref| >= FRAME_SIZE && ExactEcho(goal, ref, mic)
    ensures (forall n: nat :: n < FRAME_SIZE ==> KeepsAt(goal, ref, mic, w0, n))
       <==> (forall n: nat :: n < FRAME_SIZE ==>
               ErrorOf(ref, mic, StepSize(ref), w0, n) == 0.0 || SafeTaps(ref, |w0|, n))
  {
    hide KeepsAt, SafeTaps, ErrorOf, StepSize, ExactEcho;
    forall n: nat | n < FRAME_SIZE
      ensures KeepsAt(goal, ref, mic, w0, n)
         <==> ErrorOf(ref, mic, StepSize(ref), w0, n) == 0.0 || SafeTaps(ref, |w0|, n)
    {
      SampleConverges(goal, ref, mic, w0, n);
    }
  }

  // ----- The same, from the reference alone

  /** Inner products against w + c x, on either side. */
  lemma DotUpdated(w: seq<real>, c: real, x: seq<real>, y: seq<real>)
    ensures Dot(|w|, Updated(w, c, x), y) == Dot(|w|, w, y) + c * Dot(|w|, x, y)
    ensures Dot(|w|, y, Updated(w, c, x)) == Dot(|w|, y, w) + c * Dot(|w|, y, x)
  {
    hide Sum, Product, Updated;
    var u := Updated(w, c, x);
    forall k: nat | k < |w|
      ensures Product(u, y)(k) == Product(w, y)(k) + c * Product(x, y)(k)
      ensures Product(y, u)(k) == Product(y, w)(k) + c * Product(y, x)(k)
    {
      UpdatedTerm(w, c, x, y, k);
    }
    SumLinear(|w|, Product(w, y), c, Product(x, y), Product(u, y));
    SumLinear(|w|, Product(y, w), c, Product(y, x), Product(y, u));
  }

  lemma UpdatedTerm(w: seq<real>, c: real, x: seq<real>, y: seq<real>, k: nat)
    requires k < |w|
    ensures var u := Updated(w, c, x);
      && Product(u, y)(k) == Product(w, y)(k) + c * Product(x, y)(k)
      && Product(y, u)(k) == Product(y, w)(k) + c * Product(y, x)(k)
  {
    var u := Updated(w, c, x);
    assert At(u, k) == At(w, k) + c * At(x, k);
    hide At;
    ProductUpdated(At(w, k), c, At(x, k), At(y, k), At(u, k));
  }

  lemma ProductUpdated(w: real, c: real, x: real, y: real, u: real)
    requires u == w + c * x
    ensures u * y == w * y + c * (x * y)
    ensures y * u == y * w + c * (y * x)
  {}

  lemma DotCommutes(n: nat, u: seq<real>, v: seq<real>)
    ensures Dot(n, u, v) == Dot(n, v, u)
  {
    hide Sum;
    SumExt(n, Product(u, v), Product(v, u));
  }

  /** What the gap between path and weights after k samples contributes to the error of
      sample n: the taps of n with the directions of samples k..n-1 adapted out. */
  ghost function Visible(ref: seq<real>, mu: real, taps: nat, n: nat, k: nat): (y: seq<real>)
    requires k <= n
    ensures |y| == taps
    decreases n - k
  {
    if k == n then TapsAt(ref, taps, n)
    else
      var y := Visible(ref, mu, taps, n, k + 1);
      Updated(y, Unlearned(ref, mu, taps, k, y), TapsAt(ref, taps, k))
  }

  ghost function Unlearned(ref: seq<real>, mu: real, taps: nat, k: nat, y: seq<real>): real {
    -(mu * Dot(taps, TapsAt(ref, taps, k), y))
  }

  lemma GapStep(yg: real, y0: real, y1: real, yg': real, y0': real, g: real, x: real, mu: real, e: real, p: real, c: real, q: real)
    requires e == g - x && c == mu * e && q == -(mu * p)
    requires y1 == y0 + c * p && yg' == yg + q * g && y0' == y0 + q * x
    ensures yg - y1 == yg' - y0'
  {
    assert q * g - q * x == q * e;
    assert q * e == -(c * p);
  }

  /** An error of an exact-echo frame is the gap between path and weights seen through
      the sample's taps. */
  lemma ErrorIsGap(goal: seq<real>, ref: seq<real>, mic: seq<real>, mu: real, w0: seq<real>, n: nat)
    requires |goal| == |w0| && n < FRAME_SIZE && ExactEcho(goal, ref, mic)
    ensures var x := TapsAt(ref, |w0|, n);
      ErrorOf(ref, mic, mu, w0, n) == Dot(|w0|, x, goal) - Dot(|w0|, x, Adapted(ref, mic, mu, w0, n))
  {
    hide Dot, TapVector, Adapted, At;
    var x := TapsAt(ref, |w0|, n);
    DotCommutes(|w0|, goal, x); DotCommutes(|w0|, Adapted(ref, mic, mu, w0, n), x);
  }

  lemma AdaptedNext(ref: seq<real>, mic: seq<real>, mu: real, w0: seq<real>, n: nat)
    ensures Adapted(ref, mic, mu, w0, n + 1)
         == Updated(Adapted(ref, mic, mu, w0, n), Correction(ref, mic, mu, Adapted(ref, mic, mu, w0, n), n), TapsAt(ref, |w0|, n))
  {
    hide Updated, Correction, TapVector;
  }

  /** The error of sample n, seen from the weights after k samples. */
  lemma {:induction false} VisibleError(goal: seq<real>, ref: seq<real>, mic: seq<real>, mu: real, w0: seq<real>, n: nat, k: nat)
    requires |goal| == |w0| && k <= n < FRAME_SIZE && ExactEcho(goal, ref, mic)
    ensures var y := Visible(ref, mu, |w0|, n, k);
      ErrorOf(ref, mic, mu, w0, n) == Dot(|w0|, y, goal) - Dot(|w0|, y, Adapted(ref, mic, mu, w0, k))
    decreases n - k
  {
    hide Dot, TapsAt, Updated, Adapted, ErrorSample, ExactEcho;
    var L := |w0|;
    ErrorIsGap(goal, ref, mic, mu, w0, k);
    if k < n {
      VisibleError(goal, ref, mic, mu, w0, n, k + 1);
      var w, x, y := Adapted(ref, mic, mu, w0, k), TapsAt(ref, L, k), Visible(ref, mu, L, n, k + 1);
      var e, p := ErrorOf(ref, mic, mu, w0, k), Dot(L, x, y);
      var c, q := Correction(ref, mic, mu, w, k), Unlearned(ref, mu, L, k, y);
      DotCommutes(L, x, y);
      AdaptedNext(ref, mic, mu, w0, k);
      DotUpdated(w, c, x, y);
      DotUpdated(y, q, x, goal); DotUpdated(y, q, x, w);
      GapStep(Dot(L, y, goal), Dot(L, y, w), Dot(L, y, Updated(w, c, x)),
              Dot(L, Updated(y, q, x), goal), Dot(L, Updated(y, q, x), w), Dot(L, x, goal), Dot(L, x, w), mu, e, p, c, q);
    }
  }

  ghost function EchoOf(goal: seq<real>, ref: seq<real>): (mic: seq<real>)
    ensures ExactEcho(goal, ref, mic)
  {
    seq(FRAME_SIZE, (n: nat) => Dot(|goal|, goal, TapVector(ref, Position(|ref|, n), |goal|)))
  }

  /** Sample n has no error whatever the echo path. */
  ghost predicate Blind(ref: seq<real>, taps: nat, n: nat)
    requires |ref| >= FRAME_SIZE
  {
    forall k :: 0 <= k < taps ==> Visible(ref, StepSize(ref), taps, n, 0)[k] == 0.0
  }

  lemma BlindHasNoError(goal: seq<real>, ref: seq<real>, mic: seq<real>, w0: seq<real>, n: nat)
    requires |goal| == |w0| && |ref| >= FRAME_SIZE && n < FRAME_SIZE && ExactEcho(goal, ref, mic)
    requires Blind(ref, |w0|, n)
    ensures ErrorOf(ref, mic, StepSize(ref), w0, n) == 0.0
  {
    hide StepSize, Visible, ErrorOf, Sum, ExactEcho;
    var y := Visible(ref, StepSize(ref), |w0|, n, 0);
    VisibleError(goal, ref, mic, StepSize(ref), w0, n, 0);
    forall k | 0 <= k < |w0| ensures Product(y, goal)(k) == 0.0 && Product(y, w0)(k) == 0.0 {
      assert At(y, k) == 0.0;
    }
    SumZero(|w0|, Product(y, goal)); SumZero(|w0|, Product(y, w0));
    assert Adapted(ref, mic, StepSize(ref), w0, 0) == w0;
  }

  /** Otherwise the path that differs from the weights by what sample n sees gives it an
      error. */
  lemma SeeingHasError(ref: seq<real>, w0: seq<real>, n: nat) returns (goal: seq<real>)
    requires |ref| >= FRAME_SIZE && n < FRAME_SIZE && !Blind(ref, |w0|, n)
    ensures |goal| == |w0| && ErrorOf(ref, EchoOf(goal, ref), StepSize(ref), w0, n) != 0.0
  {
    hide StepSize, Visible, ErrorOf, Dot, Energy, EchoOf, ExactEcho, Updated;
    var mu := StepSize(ref);
    var y := Visible(ref, mu, |w0|, n, 0);
    goal := Updated(w0, 1.0, y);
    VisibleError(goal, ref, EchoOf(goal, ref), mu, w0, n, 0);
    assert Adapted(ref, EchoOf(goal, ref), mu, w0, 0) == w0;
    DotUpdated(w0, 1.0, y, y);
    DotIsEnergy(y);
    var k :| 0 <= k < |y| && y[k] != 0.0;
    EnergyPositive(y, k);
  }

  lemma DotIsEnergy(y: seq<real>)
    ensures Dot(|y|, y, y) == Energy(y)
  {
    SumExt(|y|, Product(y, y), Square(y));
  }

  lemma EnergyPositive(y: seq<real>, k: nat)
    requires k < |y| && y[k] != 0.0
    ensures Energy(y) > 0.0
  {
    forall i | 0 <= i < |y| ensures Square(y)(i) >= 0.0 { SquareAtLeastZero(y, i); }
    SumTerm(|y|, Square(y), k);
    PositiveSquare(y[k], Square(y)(k));
  }

  /** What a caller can check before the call: for the reference held, no echo path can
      make any sample of the frame lose ground if and only if every sample has safe taps
      or is blind to the gap. */
  lemma FrameSafeIff(ref: seq<real>, w0: seq<real>)
    requires |ref| >= FRAME_SIZE
    ensures (forall goal, n: nat :: |goal| == |w0| && n < FRAME_SIZE ==> KeepsAt(goal, ref, EchoOf(goal, ref), w0, n))
       <==> (forall n: nat :: n < FRAME_SIZE ==> SafeTaps(ref, |w0|, n) || Blind(ref, |w0|, n))
  {
    hide KeepsAt, SafeTaps, Blind, EchoOf, ExactEcho, ErrorOf, StepSize;
    if forall n: nat :: n < FRAME_SIZE ==> SafeTaps(ref, |w0|, n) || Blind(ref, |w0|, n) {
      forall goal: seq<real>, n: nat | |goal| == |w0| && n < FRAME_SIZE
        ensures KeepsAt(goal, ref, EchoOf(goal, ref), w0, n)
      {
        SampleConverges(goal, ref, EchoOf(goal, ref), w0, n);
        if Blind(ref, |w0|, n) { BlindHasNoError(goal, ref, EchoOf(goal, ref), w0, n); }
      }
    } else {
      var n: nat :| n < FRAME_SIZE && !SafeTaps(ref, |w0|, n) && !Blind(ref, |w0|, n);
      var goal := SeeingHasError(ref, w0, n);
      SampleConverges(goal, ref, EchoOf(goal, ref), w0, n);
    }
  }

  /** Sample by sample, for weights and path left open, the tap energy alone decides. */
  lemma SampleSafeIff(ref: seq<real>, taps: nat, n: nat)
    requires |ref| >= FRAME_SIZE
    ensures (forall goal, w :: |goal| == |w| == taps ==> StepKeeps(goal, ref, w, n)) <==> SafeTaps(ref, taps, n)
  {
    hide StepSize, TapVector, Misalignment, Updated, Energy, Dot;
    var x := TapsAt(ref, taps, n);
    SafeTapEnergy(ref, Energy(x));
    forall goal: seq<real>, w: seq<real> | |goal| == |w| == taps
      ensures StepKeeps(goal, ref, w, n) <==> Dot(taps, goal, x) - Dot(taps, w, x) == 0.0 || SafeTaps(ref, taps, n)
    {
      StepConverges(goal, w, x, StepSize(ref), Dot(taps, goal, x) - Dot(taps, w, x), StepMove(goal, ref, w, n));
    }
    if !SafeTaps(ref, taps, n) {
      var w := Zeros(taps);
      DotZeros(w, x); DotIsEnergy(x);
      EnergyNonneg(LastFrame(ref));
      assert !StepKeeps(x, ref, w, n);
    }
  }

  /** One exact-echo step at the taps of sample n, from weights w. */
  ghost predicate StepKeeps(goal: seq<real>, ref: seq<real>, w: seq<real>, n: nat)
    requires |ref| >= FRAME_SIZE
  {
    Misalignment(goal, Updated(w, StepMove(goal, ref, w, n), TapsAt(ref, |w|, n))) <= Misalignment(goal, w)
  }

  ghost function StepMove(goal: seq<real>, ref: seq<real>, w: seq<real>, n: nat): real
    requires |ref| >= FRAME_SIZE
  {
    var x := TapsAt(ref, |w|, n);
    StepSize(ref) * (Dot(|w|, goal, x) - Dot(|w|, w, x))
  }

  lemma DotZeros(w: seq<real>, x: seq<real>)
    requires forall k :: 0 <= k < |w| ==> w[k] == 0.0
    ensures Dot(|w|, w, x) == 0.0
  {
    forall k | 0 <= k < |w| ensures Product(w, x)(k) == 0.0 { assert At(w, k) == 0.0; }
    SumZero(|w|, Product(w, x));
  }

  /** A silent newest frame: its sample n is safe, for every path and all weights, if and
      only if its taps, all of them older sound, carry at most 1/2000 of energy. */
  lemma SilentFrame(ref: seq<real>, taps: nat, n: nat)
    requires |ref| >= FRAME_SIZE && Energy(LastFrame(ref)) == 0.0
    ensures (forall goal, w :: |goal| == |w| == taps ==> StepKeeps(goal, ref, w, n))
       <==> Energy(TapsAt(ref, taps, n)) <= 0.0005
  {
    hide StepKeeps, Energy, TapsAt;
    SampleSafeIff(ref, taps, n);
  }

  /** A condition on frame energies alone: if the four reference frames before the newest
      carry together at most 159 times its energy plus 1/2000, all its samples are safe. */
  lemma {:induction false} QuietBeforeIsSafe(ref: seq<real>, n: nat)
    requires |ref| >= 5 * FRAME_SIZE && n < FRAME_SIZE
    requires Energy(ref[|ref| - 5 * FRAME_SIZE..|ref| - FRAME_SIZE]) <= 159.0 * Energy(LastFrame(ref)) + 0.0005
    ensures SafeTaps(ref, NLMS_LEN, n)
  {
    hide TapVector, Energy;
    var five := ref[|ref| - 5 * FRAME_SIZE..];
    TapEnergyBound(ref, n);
    EnergySplit(five, 4 * FRAME_SIZE);
    assert five[..4 * FRAME_SIZE] == ref[|ref| - 5 * FRAME_SIZE..|ref| - FRAME_SIZE];
    assert five[4 * FRAME_SIZE..] == LastFrame(ref);
  }

  /** Then no sample of the frame moves the weights away from any echo path. */
  lemma {:induction false} FrameConverges(goal: seq<real>, ref: seq<real>, mic: seq<real>, w0: seq<real>, n: nat)
    requires |goal| == |w0| == NLMS_LEN && |ref| >= 5 * FRAME_SIZE && n < FRAME_SIZE
    requires ExactEcho(goal, ref, mic)
    requires Energy(ref[|ref| - 5 * FRAME_SIZE..|ref| - FRAME_SIZE]) <= 159.0 * Energy(LastFrame(ref)) + 0.0005
    ensures KeepsAt(goal, ref, mic, w0, n)
  {
    hide KeepsAt, SafeTaps, Energy, ExactEcho, ErrorOf, StepSize;
    QuietBeforeIsSafe(ref, n);
    SampleConverges(goal, ref, mic, w0, n);
  }

  lemma MisalignmentNonneg(goal: seq<real>, w: seq<real>)
    ensures Misalignment(goal, w) >= 0.0
  {
    forall k | 0 <= k < |w| ensures GapTerm(goal, w)(k) >= 0.0 { SquareNonneg(At(goal, k) - At(w, k)); }
    SumNonneg(|w|, GapTerm(goal, w));
  }

  /** Samples that keep their ground add up. */
  lemma {:induction false} FrameKeeps(goal: seq<real>, ref: seq<real>, mic: seq<real>, w0: seq<real>, n: nat)
    requires |ref| >= FRAME_SIZE && forall k: nat :: k < n ==> KeepsAt(goal, ref, mic, w0, k)
    ensures Misalignment(goal, Adapted(ref, mic, StepSize(ref), w0, n)) <= Misalignment(goal, w0)
  {
    hide Misalignment, StepSize, Updated;
    if n > 0 {
      FrameKeeps(goal, ref, mic, w0, n - 1);
      assert KeepsAt(goal, ref, mic, w0, n - 1);
    }
  }
}
