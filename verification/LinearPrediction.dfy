/** The Levinson recursion with its clamp and early exits: what the coefficients solve
    and how good a predictor they make. */
module LinearPrediction {
  import opened Sums
  import opened Toeplitz
  import opened Autocorrelation
  import opened Stability

  const REFLECTION_LIMIT := 0.999
  const ERROR_FLOOR := 0.000000000001

  /** Coefficients found so far, the prediction error, and whether a clamp has fired. */
  datatype Lpc = Lpc(a: seq<real>, err: real, clamped: bool)

  ghost function Fn(s: seq<real>): int -> real {
    (k: int) => At(s, k)
  }

  /** The prediction-error filter 1, a[0], a[1], ... */
  ghost function FilterOf(a: seq<real>): int -> real {
    (j: int) => if j == 0 then 1.0 else At(a, j - 1)
  }

  ghost function CrossTerm(R: int -> real, a: seq<real>): int -> real {
    (j: int) => At(a, j) * R(|a| - j)
  }

  ghost function Mismatch(R: int -> real, a: seq<real>): real {
    R(|a| + 1) + Sum(|a|, CrossTerm(R, a))
  }

  /** The recursion stops before the first step below the floor, and after a step at it. */
  ghost predicate Stops(s: Lpc) {
    if s.a == [] then s.err < ERROR_FLOOR else s.err <= ERROR_FLOOR
  }

  ghost function RawReflection(R: int -> real, s: Lpc): real
    requires s.err != 0.0
  {
    -Mismatch(R, s.a) / s.err
  }

  function Clamp(k: real): real {
    var low := if k <= REFLECTION_LIMIT then k else REFLECTION_LIMIT;
    if low >= -REFLECTION_LIMIT then low else -REFLECTION_LIMIT
  }

  ghost function GrownAt(a: seq<real>, k: real, j: int): real {
    At(a, j) + k * At(a, |a| - 1 - j)
  }

  ghost function Grow(a: seq<real>, k: real): (r: seq<real>)
    ensures |r| == |a| + 1
  {
    seq(|a| + 1, (j: nat) => if j < |a| then GrownAt(a, k, j) else k)
  }

  ghost function Reflect(R: int -> real, s: Lpc): Lpc
    requires !Stops(s)
  {
    var k := Clamp(RawReflection(R, s));
    Lpc(Grow(s.a, k), s.err * (1.0 - k * k), s.clamped || k != RawReflection(R, s))
  }

  /** The state after at most i steps. */
  ghost function Levinson(R: int -> real, i: nat): (s: Lpc)
    ensures |s.a| <= i
  {
    if i == 0 then Lpc([], R(0), false)
    else
      var s := Levinson(R, i - 1);
      if Stops(s) then s else Reflect(R, s)
  }

  // ----- The prediction error

  ghost function Distance(x: real, y: real): real { if x <= y then y - x else x - y }

  /** The clamp takes the nearest value of its range. */
  lemma ClampBound(k: real)
    ensures -REFLECTION_LIMIT <= Clamp(k) <= REFLECTION_LIMIT
    ensures -REFLECTION_LIMIT <= k <= REFLECTION_LIMIT <==> Clamp(k) == k
    ensures 0.0 < 1.0 - Clamp(k) * Clamp(k) <= 1.0
    ensures forall x :: -REFLECTION_LIMIT <= x <= REFLECTION_LIMIT ==> Distance(Clamp(k), k) <= Distance(x, k)
  {
    SquareBelow(Clamp(k), REFLECTION_LIMIT);
  }

  lemma SquareBelow(k: real, b: real)
    requires -b <= k <= b < 1.0
    ensures 0.0 <= k * k < 1.0
  {
    SquareNonneg(k);
    var a := if k >= 0.0 then k else -k;
    ShrinkProduct(a, a);
    assert a * a == k * k;
  }

  lemma ScaleError(err: real, f: real)
    requires err > 0.0 && 0.0 < f <= 1.0
    ensures 0.0 < err * f <= err
  {
    ShrinkProduct(f, err);
  }

  lemma ReflectError(R: int -> real, s: Lpc)
    requires !Stops(s) && s.err > 0.0
    ensures 0.0 < Reflect(R, s).err <= s.err
  {
    hide Mismatch, Clamp, Grow, Stops;
    var k := RawReflection(R, s);
    ClampBound(k);
    ScaleError(s.err, 1.0 - Clamp(k) * Clamp(k));
  }

  /** In every run, clamped or not, the error never increases. It stays positive when R[0]
      is at least the floor; below the floor nothing is predicted and it stays R[0]. */
  lemma {:induction false} ErrorNeverRises(R: int -> real, i: nat)
    ensures Levinson(R, i + 1).err <= Levinson(R, i).err <= R(0)
    ensures R(0) >= ERROR_FLOOR ==> Levinson(R, i).err > 0.0 && Levinson(R, i + 1).err > 0.0
    ensures R(0) < ERROR_FLOOR ==> Levinson(R, i) == Lpc([], R(0), false)
  {
    hide Reflect;
    if i > 0 { ErrorNeverRises(R, i - 1); }
    var s := Levinson(R, i);
    if !Stops(s) { ReflectError(R, s); }
  }

  // ----- How far the recursion gets

  /** Step i adds a coefficient exactly when all steps before it did and the error they
      left is above the floor; for the first step it only has to reach it. */
  lemma {:induction false} OrderGrows(R: int -> real, i: nat)
    ensures |Levinson(R, i + 1).a| == i + 1 <==>
      if i == 0 then R(0) >= 0.000000000001
      else |Levinson(R, i).a| == i && Levinson(R, i).err > 0.000000000001
    ensures |Levinson(R, i + 1).a| != i + 1 ==> Levinson(R, i + 1) == Levinson(R, i)
  {
    hide Clamp, Grow, Mismatch;
    if i > 0 {
      OrderGrows(R, i - 1);
      if |Levinson(R, i).a| != i { StoppedBefore(R, i); }
    }
  }

  lemma {:induction false} StoppedBefore(R: int -> real, i: nat)
    requires |Levinson(R, i).a| < i
    ensures Stops(Levinson(R, i))
  {
    hide Reflect, Stops;
    var s := Levinson(R, i - 1);
    if !Stops(s) { GrowthOfOne(R, s); StoppedBefore(R, i - 1); }
  }

  lemma GrowthOfOne(R: int -> real, s: Lpc)
    requires !Stops(s)
    ensures |Reflect(R, s).a| == |s.a| + 1
  {}

  /** So after i steps there are i coefficients, unless the error is down to the floor. */
  lemma OrderReached(R: int -> real, i: nat)
    ensures |Levinson(R, i).a| == i || Levinson(R, i).err <= 0.000000000001
  {
    if |Levinson(R, i).a| < i { StoppedBefore(R, i); }
  }

  /** Step j takes place and its reflection coefficient is out of range. */
  ghost predicate ClampFires(R: int -> real, j: nat) {
    var s := Levinson(R, j);
    !Stops(s) && !(-0.999 <= RawReflection(R, s) <= 0.999)
  }

  /** The flag tells whether a clamp has fired. */
  lemma {:induction false} ClampedIff(R: int -> real, i: nat)
    ensures Levinson(R, i).clamped <==> exists j: nat :: j < i && ClampFires(R, j)
  {
    hide Clamp, Grow, Mismatch;
    if i > 0 {
      ClampedIff(R, i - 1);
      var s := Levinson(R, i - 1);
      if !Stops(s) { ClampBound(RawReflection(R, s)); }
      assert Levinson(R, i).clamped <==> s.clamped || ClampFires(R, i - 1);
    }
  }

  // ----- What the coefficients solve

  lemma MismatchIsRow(R: int -> real, a: seq<real>)
    ensures Row(R, |a| + 2, FilterOf(a), |a| + 1) == Mismatch(R, a)
  {
    hide Sum;
    var n, z := |a| + 1, FilterOf(a);
    var f := RowTerm(R, z, n);
    SumTail(n, f);
    assert Abs(n - 0) == n && f(0) == R(n);
    var last := (j: int) => Tail(f)(|a| + j);
    SumSplit(|a|, 1, Tail(f), last);
    assert last(0) == 0.0 by { assert z(n) == 0.0; }
    SumZero(1, last);
    forall j | 0 <= j < |a| ensures Tail(f)(j) == CrossTerm(R, a)(j) {
      assert Abs(n - (j + 1)) == |a| - j;
    }
    SumExt(|a|, Tail(f), CrossTerm(R, a));
  }

  lemma GrownFilter(a: seq<real>, k: real, y: int -> real)
    requires IsFlip(|a| + 1, y, FilterOf(a))
    ensures IsCombination(|a| + 2, FilterOf(Grow(a, k)), FilterOf(a), -k, y)
  {
    var n, z, z' := |a| + 1, FilterOf(a), FilterOf(Grow(a, k));
    forall j | 0 <= j < n + 1 ensures z'(j) == z(j) - (-k) * y(j) {
      assert y(j) == z(n - j);
      if j == 0 {
        assert z(n) == 0.0;
      } else if j < n {
        assert Grow(a, k)[j - 1] == At(a, j - 1) + k * At(a, |a| - 1 - (j - 1));
      } else {
        assert Grow(a, k)[|a|] == k;
      }
    }
  }

  /** One step of coefficient growth, for a correlation sequence whose next value fits. */
  lemma GrowSolves(R: int -> real, a: seq<real>, err: real, k: real, err': real)
    requires err' == err * (1.0 - k * k)
    requires Predicts(R, |a| + 1, FilterOf(a), err)
    requires Mismatch(R, a) == -(k * err)
    ensures Predicts(R, |a| + 2, FilterOf(Grow(a, k)), err')
  {
    hide Grow, Mismatch, Predicts, Row;
    var n := |a| + 1;
    var y := (j: int) => FilterOf(a)(n - j);
    MismatchIsRow(R, a);
    GrownFilter(a, k, y);
    LevinsonStep(R, n, FilterOf(a), err, k, y, FilterOf(Grow(a, k)), err');
  }

  lemma PredictsExt(R: int -> real, R': int -> real, n: nat, z: int -> real, err: real)
    requires Predicts(R, n, z, err)
    requires forall j :: 0 <= j < n ==> R(j) == R'(j)
    ensures Predicts(R', n, z, err)
  {
    hide Sum;
    forall i {:trigger Row(R', n, z, i)} | 0 <= i < n ensures Row(R', n, z, i) == Row(R, n, z, i) {
      forall j | 0 <= j < n ensures RowTerm(R, z, i)(j) == RowTerm(R', z, i)(j) {
        assert R(Abs(i - j)) == R'(Abs(i - j));
      }
      SumExt(n, RowTerm(R, z, i), RowTerm(R', z, i));
    }
  }

  /** The correlation sequence the (possibly clamped) coefficients solve exactly: each
      step extends it by the value that makes the clamped reflection the right one. */
  ghost function Matched(R: int -> real, i: nat): (P: seq<real>)
    ensures |P| == |Levinson(R, i).a| + 1
  {
    if i == 0 then [R(0)]
    else
      var s, P := Levinson(R, i - 1), Matched(R, i - 1);
      if Stops(s) then P
      else P + [NextLag(P, s.a, Clamp(RawReflection(R, s)), s.err)]
  }

  ghost function NextLag(P: seq<real>, a: seq<real>, k: real, err: real): real {
    -(k * err) - Sum(|a|, CrossTerm(Fn(P), a))
  }

  lemma MatchedStep(a: seq<real>, P: seq<real>, k: real, err: real, P': seq<real>)
    requires |P| == |a| + 1 && P' == P + [NextLag(P, a, k, err)]
    ensures Mismatch(Fn(P'), a) == -(k * err)
    ensures forall j :: 0 <= j < |P| ==> Fn(P)(j) == Fn(P')(j)
  {
    hide Sum;
    SumExt(|a|, CrossTerm(Fn(P), a), CrossTerm(Fn(P'), a));
  }

  /** The coefficients always solve the matched normal equations, clamped or not. */
  lemma {:induction false} MatchedSolves(R: int -> real, i: nat)
    ensures var s := Levinson(R, i);
      Predicts(Fn(Matched(R, i)), |s.a| + 1, FilterOf(s.a), s.err)
  {
    hide Mismatch, Grow, Predicts, NextLag, Fn;
    if i == 0 {
      MatchedStart(R);
    } else {
      MatchedSolves(R, i - 1);
      var s, P := Levinson(R, i - 1), Matched(R, i - 1);
      if !Stops(s) {
        var k := Clamp(RawReflection(R, s));
        MatchedStep(s.a, P, k, s.err, Matched(R, i));
        PredictsExt(Fn(P), Fn(Matched(R, i)), |s.a| + 1, FilterOf(s.a), s.err);
        GrowSolves(Fn(Matched(R, i)), s.a, s.err, k, Levinson(R, i).err);
      }
    }
  }

  lemma MatchedStart(R: int -> real)
    ensures Predicts(Fn([R(0)]), 1, FilterOf([]), R(0))
  {
    SumAtZero(1, RowTerm(Fn([R(0)]), FilterOf([]), 0));
  }

  lemma UnclampedLag(R: int -> real, P: seq<real>, a: seq<real>, err: real, k: real)
    requires err != 0.0 && k == -Mismatch(R, a) / err && forall j :: 0 <= j <= |a| ==> Fn(P)(j) == R(j)
    ensures NextLag(P, a, k, err) == R(|a| + 1)
  {
    hide Sum, Fn;
    DivideBack(Mismatch(R, a), err, k);
    SumExt(|a|, CrossTerm(Fn(P), a), CrossTerm(R, a));
  }

  /** As long as no clamp has fired the matched sequence is the given one. */
  lemma {:induction false} UnclampedMatches(R: int -> real, i: nat)
    requires !Levinson(R, i).clamped
    ensures forall j :: 0 <= j <= |Levinson(R, i).a| ==> Fn(Matched(R, i))(j) == R(j)
  {
    hide Clamp, Grow, Sum;
    if i > 0 {
      var s, P := Levinson(R, i - 1), Matched(R, i - 1);
      UnclampedMatches(R, i - 1);
      if !Stops(s) {
        UnclampedLag(R, P, s.a, s.err, RawReflection(R, s));
        assert Matched(R, i)[|s.a| + 1] == R(|s.a| + 1);
        forall j | 0 <= j <= |s.a| ensures Fn(Matched(R, i))(j) == R(j) {
          assert Fn(Matched(R, i))(j) == Fn(P)(j);
        }
      }
    }
  }

  lemma DivideBack(m: real, err: real, k: real)
    requires err != 0.0 && k == -m / err
    ensures m == -(k * err)
  {}

  /** The normal equations: without a clamp, after any number of steps the filter
      annihilates every lagged product and leaves exactly the error. */
  lemma NormalEquations(R: int -> real, i: nat)
    requires !Levinson(R, i).clamped
    ensures var s := Levinson(R, i); Predicts(R, |s.a| + 1, FilterOf(s.a), s.err)
  {
    hide *;
    MatchedSolves(R, i);
    UnclampedMatches(R, i);
    var s := Levinson(R, i);
    PredictsExt(Fn(Matched(R, i)), R, |s.a| + 1, FilterOf(s.a), s.err);
  }

  ghost function NormalTerm(R: int -> real, a: seq<real>, m: int): int -> real {
    (j: int) => At(a, j) * R(Abs(m - j))
  }

  /** The same in the form of the textbook: sum_j a[j] R[|m-j|] = -R[m+1] for every
      m, and err = R[0] + sum_j a[j] R[j+1]. */
  lemma NormalEquationsSpelledOut(R: int -> real, i: nat, m: nat)
    requires !Levinson(R, i).clamped
    ensures var s := Levinson(R, i);
      && (m < |s.a| ==> Sum(|s.a|, NormalTerm(R, s.a, m)) == -R(m + 1))
      && s.err == R(0) + Sum(|s.a|, NormalTerm(R, s.a, -1))
  {
    hide Sum, Levinson;
    NormalEquations(R, i);
    var s := Levinson(R, i);
    RowOfFilter(R, s.a, 0);
    if m < |s.a| { RowOfFilter(R, s.a, m + 1); }
  }

  lemma RowOfFilter(R: int -> real, a: seq<real>, m: nat)
    ensures Row(R, |a| + 1, FilterOf(a), m) == R(m) + Sum(|a|, NormalTerm(R, a, m - 1))
  {
    hide Sum;
    var f := RowTerm(R, FilterOf(a), m);
    SumTail(|a|, f);
    assert Abs(m - 0) == m && f(0) == R(m);
    forall j | 0 <= j < |a| ensures Tail(f)(j) == NormalTerm(R, a, m - 1)(j) {
      assert m - (j + 1) == m - 1 - j;
    }
    SumExt(|a|, Tail(f), NormalTerm(R, a, m - 1));
  }

  /** For a real block of samples the raw reflection is at most one in size until a
      clamp fires: the unclamped next error would be a sum of squares. */
  lemma {:induction false} RawReflectionBound(x: seq<real>, i: nat)
    requires |x| > 0
    requires var s := Levinson(Autocorr(x), i); !s.clamped && !Stops(s)
    ensures -1.0 <= RawReflection(Autocorr(x), Levinson(Autocorr(x), i)) <= 1.0
  {
    hide Sum, Levinson, Autocorr, Grow, Mismatch, Form, Predicts;
    var R := Autocorr(x);
    var s := Levinson(R, i);
    var k := RawReflection(R, s);
    NormalEquations(R, i);
    DivideBack(Mismatch(R, s.a), s.err, k);
    var err' := s.err * (1.0 - k * k);
    GrowSolves(R, s.a, s.err, k, err');
    var z := FilterOf(Grow(s.a, k));
    ErrorIsForm(R, |s.a| + 2, z, err');
    FormNonneg(|s.a| + 2, z, x);
    FactorNonneg(s.err, 1.0 - k * k);
    WithinOne(k);
  }

  lemma FactorNonneg(e: real, f: real)
    requires e > 0.0 && e * f >= 0.0
    ensures f >= 0.0
  {}

  lemma WithinOne(k: real)
    requires 1.0 - k * k >= 0.0
    ensures -1.0 <= k <= 1.0
  {}

  /** Without a clamp the coefficients are the best of their order: no filter with the
      same leading one leaves less residual energy over the samples. */
  lemma {:induction false} BestPredictor(x: seq<real>, i: nat, v: int -> real)
    requires |x| > 0 && v(0) == 1.0 && !Levinson(Autocorr(x), i).clamped
    ensures var a := Levinson(Autocorr(x), i).a;
      Sum(|x| + |a| + 1, FilteredSquare(|a| + 1, FilterOf(a), x)) <= Sum(|x| + |a| + 1, FilteredSquare(|a| + 1, v, x))
  {
    hide Sum, Levinson, Autocorr, Form, Predicts, FilteredSquare;
    var R, s := Autocorr(x), Levinson(Autocorr(x), i);
    var n, z := |s.a|, FilterOf(s.a);
    NormalEquations(R, i);
    ErrorIsForm(R, n + 1, z, s.err);
    Deflate(R, n, v, z, s.err);
    FormNonneg(n, Tail(Residue(v, z)), x);
    FormIsEnergy(n + 1, z, x); FormIsEnergy(n + 1, v, x);
    NonnegProduct(|x| as real, Form(R, n + 1, v, v) - Form(R, n + 1, z, z));
  }
}
