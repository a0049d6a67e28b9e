/** Symmetric Toeplitz forms over real vectors: the linear algebra behind linear
    prediction. Vectors and correlation sequences are functions of an index, and a
    form of order n looks at the first n entries. */
module Toeplitz {
  import opened Sums

  function Abs(k: int): int { if k < 0 then -k else k }

  ghost function RowTerm(R: int -> real, v: int -> real, i: int): int -> real {
    (j: int) => v(j) * R(Abs(i - j))
  }

  /** Entry i of T v, with T[i][j] = R(|i - j|) of order n. */
  ghost function Row(R: int -> real, n: nat, v: int -> real, i: int): real {
    Sum(n, RowTerm(R, v, i))
  }

  ghost function FormTerm(R: int -> real, n: nat, u: int -> real, v: int -> real): int -> real {
    (i: int) => u(i) * Row(R, n, v, i)
  }

  /** u' T v of order n. */
  ghost function Form(R: int -> real, n: nat, u: int -> real, v: int -> real): real {
    Sum(n, FormTerm(R, n, u, v))
  }

  ghost function PairTerm(u: int -> real, v: int -> real): int -> real {
    (i: int) => u(i) * v(i)
  }

  ghost function Inner(n: nat, u: int -> real, v: int -> real): real {
    Sum(n, PairTerm(u, v))
  }

  ghost function FormMatrix(R: int -> real, u: int -> real, v: int -> real): (int, int) -> real {
    (i: int, j: int) => u(i) * (v(j) * R(Abs(i - j)))
  }

  lemma FormRow(R: int -> real, n: nat, u: int -> real, v: int -> real, i: int, row: int -> real)
    requires forall j :: 0 <= j < n ==> row(j) == FormMatrix(R, u, v)(i, j)
    ensures Sum(n, row) == FormTerm(R, n, u, v)(i)
  {
    hide Sum;
    SumScale(n, u(i), RowTerm(R, v, i), row);
  }

  lemma FormColumn(R: int -> real, n: nat, u: int -> real, v: int -> real, j: int, col: int -> real)
    requires forall i :: 0 <= i < n ==> col(i) == FormMatrix(R, u, v)(i, j)
    ensures Sum(n, col) == FormTerm(R, n, v, u)(j)
  {
    hide Sum;
    forall i | 0 <= i < n ensures col(i) == v(j) * RowTerm(R, u, j)(i) {
      assert Abs(i - j) == Abs(j - i);
      Reorder(u(i), v(j), R(Abs(i - j)));
    }
    SumScale(n, v(j), RowTerm(R, u, j), col);
  }

  lemma FormSymmetric(R: int -> real, n: nat, u: int -> real, v: int -> real)
    ensures Form(R, n, u, v) == Form(R, n, v, u)
  {
    hide Sum, FormMatrix, FormTerm;
    var f := FormMatrix(R, u, v);
    var rows := (i: int) => Sum(n, (j: int) => f(i, j));
    var cols := (j: int) => Sum(n, (i: int) => f(i, j));
    forall i | 0 <= i < n ensures rows(i) == FormTerm(R, n, u, v)(i) {
      FormRow(R, n, u, v, i, (j: int) => f(i, j));
    }
    forall j | 0 <= j < n ensures cols(j) == FormTerm(R, n, v, u)(j) {
      FormColumn(R, n, u, v, j, (i: int) => f(i, j));
    }
    SumSwap(n, n, f);
    SumExt(n, rows, FormTerm(R, n, u, v));
    SumExt(n, cols, FormTerm(R, n, v, u));
  }

  lemma Reorder(a: real, b: real, c: real)
    ensures a * (b * c) == b * (a * c)
  {}

  /** d = v - c z. */
  ghost predicate IsCombination(n: nat, d: int -> real, v: int -> real, c: real, z: int -> real) {
    forall j :: 0 <= j < n ==> d(j) == v(j) - c * z(j)
  }

  lemma RowLinear(R: int -> real, n: nat, d: int -> real, v: int -> real, c: real, z: int -> real, i: int)
    requires IsCombination(n, d, v, c, z)
    ensures Row(R, n, d, i) == Row(R, n, v, i) - c * Row(R, n, z, i)
  {
    forall j | 0 <= j < n
      ensures RowTerm(R, d, i)(j) == RowTerm(R, v, i)(j) + (-c) * RowTerm(R, z, i)(j)
    {
      Distribute(v(j), c, z(j), R(Abs(i - j)));
    }
    SumLinear(n, RowTerm(R, v, i), -c, RowTerm(R, z, i), RowTerm(R, d, i));
  }

  lemma Distribute(v: real, c: real, z: real, r: real)
    ensures (v - c * z) * r == v * r + (-c) * (z * r)
  {}

  lemma FormLinear(R: int -> real, n: nat, u: int -> real, d: int -> real, v: int -> real, c: real, z: int -> real)
    requires IsCombination(n, d, v, c, z)
    ensures Form(R, n, u, d) == Form(R, n, u, v) - c * Form(R, n, u, z)
  {
    forall i | 0 <= i < n
      ensures FormTerm(R, n, u, d)(i) == FormTerm(R, n, u, v)(i) + (-c) * FormTerm(R, n, u, z)(i)
    {
      RowLinear(R, n, d, v, c, z, i);
      DistributeLeft(u(i), Row(R, n, v, i), c, Row(R, n, z, i));
    }
    SumLinear(n, FormTerm(R, n, u, v), -c, FormTerm(R, n, u, z), FormTerm(R, n, u, d));
  }

  lemma DistributeLeft(u: real, a: real, c: real, b: real)
    ensures u * (a - c * b) == u * a + (-c) * (u * b)
  {}

  // ----- Normal equations

  /** z is a prediction-error filter of order n with error err: T z = err e0, z(0) = 1. */
  ghost predicate Predicts(R: int -> real, n: nat, z: int -> real, err: real) {
    && n > 0 && z(0) == 1.0
    && Row(R, n, z, 0) == err
    && forall i :: 0 < i < n ==> Row(R, n, z, i) == 0.0
  }

  /** Against such a filter every vector only shows its first entry. */
  lemma FormAgainstFilter(R: int -> real, n: nat, u: int -> real, z: int -> real, err: real)
    requires Predicts(R, n, z, err)
    ensures Form(R, n, u, z) == u(0) * err
  {
    var f, first := FormTerm(R, n, u, z), (i: int) => if i == 0 then u(0) * err else 0.0;
    forall i | 0 <= i < n ensures f(i) == first(i) { if i > 0 { assert u(i) * 0.0 == 0.0; } }
    SumExt(n, f, first);
    SumSplit(1, n - 1, first, (i: int) => first(1 + i));
    SumZero(n - 1, (i: int) => first(1 + i));
    assert Sum(1, first) == Sum(0, first) + first(0);
  }

  /** The error is the value of the form at the filter itself. */
  lemma ErrorIsForm(R: int -> real, n: nat, z: int -> real, err: real)
    requires Predicts(R, n, z, err)
    ensures Form(R, n, z, z) == err
  {
    FormAgainstFilter(R, n, z, z, err);
  }

  /** The tail of a vector. */
  ghost function Tail(d: int -> real): int -> real {
    (j: int) => d(j + 1)
  }

  lemma {:induction false} SumTail(n: nat, f: int -> real)
    ensures Sum(n + 1, f) == f(0) + Sum(n, Tail(f))
  {
    SumSplit(1, n, f, Tail(f));
    assert Sum(1, f) == Sum(0, f) + f(0);
  }

  lemma RowOfTail(R: int -> real, n: nat, d: int -> real, i: int)
    requires d(0) == 0.0
    ensures Row(R, n + 1, d, i + 1) == Row(R, n, Tail(d), i)
  {
    hide Sum;
    var f := RowTerm(R, d, i + 1);
    SumTail(n, f);
    assert f(0) == 0.0;
    SumExt(n, Tail(f), RowTerm(R, Tail(d), i));
  }

  lemma FormOfTail(R: int -> real, n: nat, d: int -> real)
    requires d(0) == 0.0
    ensures Form(R, n + 1, d, d) == Form(R, n, Tail(d), Tail(d))
  {
    hide Sum, Row;
    var t, f := Tail(d), FormTerm(R, n + 1, d, d);
    SumTail(n, f);
    assert f(0) == 0.0;
    forall i | 0 <= i < n ensures Tail(f)(i) == FormTerm(R, n, t, t)(i) { RowOfTail(R, n, d, i); }
    SumExt(n, Tail(f), FormTerm(R, n, t, t));
  }

  /** v minus v(0) times the filter: its first entry is zero. */
  ghost function Residue(v: int -> real, z: int -> real): int -> real {
    (j: int) => v(j) - v(0) * z(j)
  }

  /** Taking the first coordinate out along the filter removes exactly v(0)^2 err from
      the form. */
  lemma Deflate(R: int -> real, n: nat, v: int -> real, z: int -> real, err: real)
    requires Predicts(R, n + 1, z, err)
    ensures Form(R, n + 1, v, v) == Form(R, n, Tail(Residue(v, z)), Tail(Residue(v, z))) + v(0) * (v(0) * err)
  {
    var d := Residue(v, z);
    assert d(0) == 0.0;
    FormOfTail(R, n, d);
    FormLinear(R, n + 1, d, d, v, v(0), z);
    FormAgainstFilter(R, n + 1, d, z, err);
    assert v(0) * (0.0 * err) == 0.0;
    FormSymmetric(R, n + 1, d, v);
    FormLinear(R, n + 1, v, d, v, v(0), z);
    FormAgainstFilter(R, n + 1, v, z, err);
  }

  // ----- Growing the filter by one coefficient

  /** y is z read backwards over positions 0..n. */
  ghost predicate IsFlip(n: nat, y: int -> real, z: int -> real) {
    forall j :: 0 <= j <= n ==> y(j) == z(n - j)
  }

  lemma RowOfFlip(R: int -> real, n: nat, y: int -> real, z: int -> real, m: int)
    requires IsFlip(n, y, z)
    ensures Row(R, n + 1, y, m) == Row(R, n + 1, z, n - m)
  {
    var f, g := RowTerm(R, z, n - m), RowTerm(R, y, m);
    forall j | 0 <= j < n + 1 ensures g(j) == f(n - j) {
      assert n - m - (n - j) == -(m - j);
      assert Abs(n - m - (n - j)) == Abs(m - j);
    }
    SumReverse(n + 1, f, g);
  }

  lemma RowOfPadded(R: int -> real, n: nat, z: int -> real, m: int)
    requires z(n) == 0.0
    ensures Row(R, n + 1, z, m) == Row(R, n, z, m)
  {
    assert RowTerm(R, z, m)(n) == 0.0;
  }

  lemma RowOfGrown(R: int -> real, n: nat, z: int -> real, k: real, y: int -> real, z': int -> real, m: nat)
    requires z(n) == 0.0 && m <= n
    requires IsFlip(n, y, z) && IsCombination(n + 1, z', z, -k, y)
    ensures Row(R, n + 1, z', m) == Row(R, n + 1, z, m) - (-k) * Row(R, n + 1, z, n - m)
  {
    hide Row, IsFlip, IsCombination;
    RowLinear(R, n + 1, z', z, -k, y, m);
    RowOfFlip(R, n, y, z, m);
  }

  lemma RowOfOld(R: int -> real, n: nat, z: int -> real, err: real, m: nat)
    requires Predicts(R, n, z, err) && z(n) == 0.0 && m < n
    ensures Row(R, n + 1, z, m) == if m == 0 then err else 0.0
  {
    hide Row;
    RowOfPadded(R, n, z, m);
  }

  /** The Levinson step: adding k times the reversed filter, with k chosen to cancel
      the new row, gives the filter of the next order and shrinks the error. */
  lemma LevinsonStep(R: int -> real, n: nat, z: int -> real, err: real, k: real, y: int -> real, z': int -> real, err': real)
    requires Predicts(R, n, z, err) && z(n) == 0.0
    requires Row(R, n + 1, z, n) == -(k * err) && err' == err * (1.0 - k * k)
    requires IsFlip(n, y, z) && IsCombination(n + 1, z', z, -k, y)
    ensures Predicts(R, n + 1, z', err')
  {
    hide Row;
    forall m: nat {:trigger Row(R, n + 1, z', m)} | m <= n
      ensures Row(R, n + 1, z', m) == if m == 0 then err' else 0.0
    {
      RowOfGrown(R, n, z, k, y, z', m);
      if m < n { RowOfOld(R, n, z, err, m); }
      if n - m < n { RowOfOld(R, n, z, err, n - m); }
      ShrinkError(err, k, Row(R, n + 1, z, n), err');
    }
    assert z'(0) == 1.0;
  }

  lemma ShrinkError(err: real, k: real, last: real, err': real)
    requires last == -(k * err) && err' == err * (1.0 - k * k)
    ensures err - (-k) * last == err'
    ensures last - (-k) * err == 0.0
    ensures 0.0 - (-k) * 0.0 == 0.0
  {}
}
