/** The biased autocorrelation of a block of samples, and why its Toeplitz form is
    never negative: it is an average of squared filter outputs. */
module Autocorrelation {
  import opened Sums
  import opened Toeplitz

  ghost function LagTerm(x: seq<real>, lag: int): int -> real {
    (n: int) => At(x, n) * At(x, n + lag)
  }

  /** R[lag] = (1/M) sum of x[n] x[n + lag]; zero for no samples. */
  ghost function Autocorr(x: seq<real>): int -> real {
    (lag: int) => if |x| == 0 then 0.0 else Sum(|x|, LagTerm(x, lag)) / |x| as real
  }

  lemma AutocorrTimesLength(x: seq<real>, lag: int)
    ensures |x| as real * Autocorr(x)(lag) == Sum(|x|, LagTerm(x, lag))
  {
    if |x| > 0 {
      QuotientTimes(Sum(|x|, LagTerm(x, lag)), |x| as real);
    }
  }

  lemma QuotientTimes(s: real, n: real)
    requires n != 0.0
    ensures n * (s / n) == s
  {}

  ghost function ShiftTerm(x: seq<real>, i: int, j: int): int -> real {
    (t: int) => At(x, t - i) * At(x, t - j)
  }

  lemma ShiftOutside(x: seq<real>, i: int, j: int, t: int)
    requires t < j || t >= j + |x|
    ensures ShiftTerm(x, i, j)(t) == 0.0
  {
    assert At(x, t - j) == 0.0;
  }

  lemma ShiftInside(x: seq<real>, i: int, j: int, s: int)
    ensures ShiftTerm(x, i, j)(j + s) == LagTerm(x, j - i)(s)
  {
    hide At;
    assert j + s - i == s + (j - i);
  }

  lemma ShiftedSum(x: seq<real>, i: nat, j: nat, L: nat)
    requires i <= j && |x| + j <= L
    ensures Sum(L, ShiftTerm(x, i, j)) == Sum(|x|, LagTerm(x, j - i))
  {
    hide At, ShiftTerm, LagTerm, Sum;
    var f := ShiftTerm(x, i, j);
    var shifted := (s: int) => f(j + s);
    var rest := (s: int) => shifted(|x| + s);
    SumSplit(j, L - j, f, shifted);
    forall t | 0 <= t < j ensures f(t) == 0.0 { ShiftOutside(x, i, j, t); }
    SumZero(j, f);
    SumSplit(|x|, L - j - |x|, shifted, rest);
    forall s | 0 <= s < L - j - |x| ensures rest(s) == 0.0 { ShiftOutside(x, i, j, j + |x| + s); }
    SumZero(L - j - |x|, rest);
    forall s | 0 <= s < |x| ensures shifted(s) == LagTerm(x, j - i)(s) { ShiftInside(x, i, j, s); }
    SumExt(|x|, shifted, LagTerm(x, j - i));
  }

  /** Shifting both factors alike does not change the sum, as long as the range is
      long enough to cover the samples. */
  lemma CrossOfShifts(x: seq<real>, i: nat, j: nat, L: nat)
    requires |x| + i <= L && |x| + j <= L
    ensures Sum(L, ShiftTerm(x, i, j)) == |x| as real * Autocorr(x)(Abs(i - j))
  {
    hide Sum, At, Autocorr;
    if i <= j {
      ShiftedSum(x, i, j, L);
      AutocorrTimesLength(x, j - i);
    } else {
      ShiftedSum(x, j, i, L);
      SumExt(L, ShiftTerm(x, i, j), ShiftTerm(x, j, i));
      AutocorrTimesLength(x, i - j);
    }
  }

  ghost function TapTerm(v: int -> real, x: seq<real>, t: int): int -> real {
    (i: int) => v(i) * At(x, t - i)
  }

  /** The output at time t of the filter v of order n run over the samples. */
  ghost function Filtered(n: nat, v: int -> real, x: seq<real>, t: int): real {
    Sum(n, TapTerm(v, x, t))
  }

  ghost function FilteredSquare(n: nat, v: int -> real, x: seq<real>): int -> real {
    (t: int) => Filtered(n, v, x, t) * Filtered(n, v, x, t)
  }

  ghost function CorrTerm(n: nat, v: int -> real, x: seq<real>, i: int): int -> real {
    (t: int) => At(x, t - i) * Filtered(n, v, x, t)
  }

  ghost function CorrMatrix(v: int -> real, x: seq<real>, i: int): (int, int) -> real {
    (t: int, j: int) => v(j) * (At(x, t - i) * At(x, t - j))
  }

  lemma CorrRow(n: nat, v: int -> real, x: seq<real>, i: int, t: int, row: int -> real)
    requires forall j :: 0 <= j < n ==> row(j) == CorrMatrix(v, x, i)(t, j)
    ensures CorrTerm(n, v, x, i)(t) == Sum(n, row)
  {
    hide Sum, At;
    forall j | 0 <= j < n ensures row(j) == At(x, t - i) * TapTerm(v, x, t)(j) {
      Reorder(v(j), At(x, t - i), At(x, t - j));
    }
    SumScale(n, At(x, t - i), TapTerm(v, x, t), row);
  }

  lemma CorrColumn(v: int -> real, x: seq<real>, i: nat, j: nat, L: nat, col: int -> real)
    requires |x| + i <= L && |x| + j <= L
    requires forall t :: 0 <= t < L ==> col(t) == CorrMatrix(v, x, i)(t, j)
    ensures Sum(L, col) == |x| as real * RowTerm(Autocorr(x), v, i)(j)
  {
    hide Sum, At, Autocorr;
    SumScale(L, v(j), ShiftTerm(x, i, j), col);
    CrossOfShifts(x, i, j, L);
    Reorder(v(j), |x| as real, Autocorr(x)(Abs(i - j)));
  }

  /** Correlating the filter output with a shifted copy of the samples gives M (T v)[i]. */
  lemma CorrelateOutput(n: nat, v: int -> real, x: seq<real>, i: nat, L: nat)
    requires i < n && L == |x| + n
    ensures Sum(L, CorrTerm(n, v, x, i)) == |x| as real * Row(Autocorr(x), n, v, i)
  {
    hide Sum, At, Autocorr, CorrMatrix, CorrTerm, RowTerm;
    var f := CorrMatrix(v, x, i);
    var rows := (t: int) => Sum(n, (j: int) => f(t, j));
    var cols := (j: int) => Sum(L, (t: int) => f(t, j));
    forall t | 0 <= t < L ensures CorrTerm(n, v, x, i)(t) == rows(t) {
      CorrRow(n, v, x, i, t, (j: int) => f(t, j));
    }
    SumExt(L, CorrTerm(n, v, x, i), rows);
    SumSwap(L, n, f);
    forall j: nat | j < n ensures cols(j) == |x| as real * RowTerm(Autocorr(x), v, i)(j) {
      CorrColumn(v, x, i, j, L, (t: int) => f(t, j));
    }
    SumScale(n, |x| as real, RowTerm(Autocorr(x), v, i), cols);
  }

  ghost function EnergyMatrix(n: nat, v: int -> real, x: seq<real>): (int, int) -> real {
    (t: int, i: int) => v(i) * CorrTerm(n, v, x, i)(t)
  }

  lemma EnergyRow(n: nat, v: int -> real, x: seq<real>, t: int, row: int -> real)
    requires forall i :: 0 <= i < n ==> row(i) == EnergyMatrix(n, v, x)(t, i)
    ensures FilteredSquare(n, v, x)(t) == Sum(n, row)
  {
    hide Sum, At;
    var y := Filtered(n, v, x, t);
    forall i | 0 <= i < n ensures row(i) == y * TapTerm(v, x, t)(i) {
      var h := At(x, t - i);
      assert CorrTerm(n, v, x, i)(t) == h * y;
      Regroup(v(i), h, y);
    }
    SumScale(n, y, TapTerm(v, x, t), row);
  }

  lemma EnergyColumn(n: nat, v: int -> real, x: seq<real>, i: nat, col: int -> real)
    requires i < n
    requires forall t :: 0 <= t < |x| + n ==> col(t) == EnergyMatrix(n, v, x)(t, i)
    ensures Sum(|x| + n, col) == |x| as real * FormTerm(Autocorr(x), n, v, v)(i)
  {
    hide Sum, At, Autocorr, CorrTerm, Row;
    SumScale(|x| + n, v(i), CorrTerm(n, v, x, i), col);
    CorrelateOutput(n, v, x, i, |x| + n);
    Reorder(v(i), |x| as real, Row(Autocorr(x), n, v, i));
  }

  /** M v'Tv is the total squared output of the filter v over the samples. */
  lemma FormIsEnergy(n: nat, v: int -> real, x: seq<real>)
    ensures |x| as real * Form(Autocorr(x), n, v, v) == Sum(|x| + n, FilteredSquare(n, v, x))
  {
    hide Sum, At, Autocorr, EnergyMatrix, FilteredSquare, FormTerm;
    var L, f := |x| + n, EnergyMatrix(n, v, x);
    var rows := (t: int) => Sum(n, (i: int) => f(t, i));
    var cols := (i: int) => Sum(L, (t: int) => f(t, i));
    forall t | 0 <= t < L ensures FilteredSquare(n, v, x)(t) == rows(t) {
      EnergyRow(n, v, x, t, (i: int) => f(t, i));
    }
    SumExt(L, FilteredSquare(n, v, x), rows);
    SumSwap(L, n, f);
    forall i: nat | i < n ensures cols(i) == |x| as real * FormTerm(Autocorr(x), n, v, v)(i) {
      EnergyColumn(n, v, x, i, (t: int) => f(t, i));
    }
    SumScale(n, |x| as real, FormTerm(Autocorr(x), n, v, v), cols);
  }

  lemma Regroup(a: real, b: real, y: real)
    ensures a * (b * y) == y * (a * b)
  {}

  /** Any single squared output is at most M v'Tv. */
  lemma OutputBound(n: nat, v: int -> real, x: seq<real>, t: nat)
    requires t < |x| + n
    ensures Filtered(n, v, x, t) * Filtered(n, v, x, t) <= |x| as real * Form(Autocorr(x), n, v, v)
  {
    FormIsEnergy(n, v, x);
    forall s | 0 <= s < |x| + n ensures FilteredSquare(n, v, x)(s) >= 0.0 {
      SquareNonneg(Filtered(n, v, x, s));
    }
    SumTerm(|x| + n, FilteredSquare(n, v, x), t);
  }

  /** The form is positive semidefinite. */
  lemma FormNonneg(n: nat, v: int -> real, x: seq<real>)
    requires |x| > 0
    ensures Form(Autocorr(x), n, v, v) >= 0.0
  {
    OutputBound(n, v, x, 0);
    SquareNonneg(Filtered(n, v, x, 0));
    CancelLeft(|x| as real, 0.0, Form(Autocorr(x), n, v, v));
  }
}
