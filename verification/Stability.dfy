/** Bounds on a recursive filter's state that survive every step of zero-excitation
    synthesis, for any correlation sequence the filter solves. */
module Stability {
  import opened Sums
  import opened Toeplitz

  /** However the n state samples are combined, the result is bounded by the form. */
  ghost predicate StateBound(R: int -> real, n: nat, x: int -> real, c: real) {
    forall v: int -> real :: Inner(n, v, x) * Inner(n, v, x) <= c * Form(R, n, v, v)
  }

  ghost predicate Nonneg(R: int -> real, n: nat) {
    forall v: int -> real :: Form(R, n, v, v) >= 0.0
  }

  /** The sample the all-pole filter produces from the state, newest sample first. */
  ghost function NextSample(n: nat, z: int -> real, x: int -> real): real {
    -Inner(n, Tail(z), x)
  }

  ghost predicate IsShifted(n: nat, x': int -> real, z: int -> real, x: int -> real) {
    x'(0) == NextSample(n, z, x) && forall j :: 0 <= j < n ==> x'(j + 1) == x(j)
  }

  /** v cut off at order n. */
  ghost function Cut(n: nat, v: int -> real): int -> real {
    (j: int) => if 0 <= j < n then v(j) else 0.0
  }

  lemma FormExt(R: int -> real, n: nat, u: int -> real, v: int -> real)
    requires forall j :: 0 <= j < n ==> u(j) == v(j)
    ensures Form(R, n, u, u) == Form(R, n, v, v)
  {
    forall i | 0 <= i < n ensures FormTerm(R, n, u, u)(i) == FormTerm(R, n, v, v)(i) {
      SumExt(n, RowTerm(R, u, i), RowTerm(R, v, i));
    }
    SumExt(n, FormTerm(R, n, u, u), FormTerm(R, n, v, v));
  }

  lemma FormOfPadded(R: int -> real, n: nat, v: int -> real)
    requires v(n) == 0.0
    ensures Form(R, n + 1, v, v) == Form(R, n, v, v)
  {
    forall i | 0 <= i < n ensures FormTerm(R, n + 1, v, v)(i) == FormTerm(R, n, v, v)(i) {
      RowOfPadded(R, n, v, i);
    }
    SumExt(n, FormTerm(R, n + 1, v, v), FormTerm(R, n, v, v));
    assert FormTerm(R, n + 1, v, v)(n) == 0.0;
  }

  lemma InnerTail(n: nat, u: int -> real, v: int -> real)
    ensures Inner(n + 1, u, v) == u(0) * v(0) + Inner(n, Tail(u), Tail(v))
  {
    hide Sum;
    SumTail(n, PairTerm(u, v));
    SumExt(n, Tail(PairTerm(u, v)), PairTerm(Tail(u), Tail(v)));
  }

  /** d = v - c z, seen through inner products. */
  lemma InnerLinear(n: nat, d: int -> real, v: int -> real, c: real, z: int -> real, x: int -> real)
    requires IsCombination(n, d, v, c, z)
    ensures Inner(n, d, x) == Inner(n, v, x) - c * Inner(n, z, x)
  {
    hide Sum;
    forall j | 0 <= j < n ensures PairTerm(d, x)(j) == PairTerm(v, x)(j) + (-c) * PairTerm(z, x)(j) {
      Distribute(v(j), c, z(j), x(j));
    }
    SumLinear(n, PairTerm(v, x), -c, PairTerm(z, x), PairTerm(d, x));
  }

  lemma InnerExt(n: nat, u: int -> real, u': int -> real, x: int -> real, x': int -> real)
    requires forall j :: 0 <= j < n ==> u(j) == u'(j) && x(j) == x'(j)
    ensures Inner(n, u, x) == Inner(n, u', x')
  {
    hide Sum;
    SumExt(n, PairTerm(u, x), PairTerm(u', x'));
  }

  /** Combining the new state is combining the old one with the deflated vector. */
  lemma InnerShift(n: nat, v: int -> real, z: int -> real, x: int -> real, x': int -> real)
    requires n > 0 && IsShifted(n, x', z, x)
    ensures Inner(n, v, x') == Inner(n, Tail(Residue(Cut(n, v), z)), x)
  {
    hide Inner;
    var w := Cut(n, v);
    InnerTail(n, w, x');
    InnerExt(n, v, w, x', x');
    assert Inner(n + 1, w, x') == Inner(n, w, x') by { hide Tail; InnerCut(n, w, x'); }
    InnerExt(n, Tail(w), Tail(w), Tail(x'), x);
    InnerLinear(n, Tail(Residue(w, z)), Tail(w), w(0), Tail(z), x);
  }

  lemma InnerCut(n: nat, w: int -> real, x: int -> real)
    requires w(n) == 0.0
    ensures Inner(n + 1, w, x) == Inner(n, w, x)
  {
    assert PairTerm(w, x)(n) == 0.0;
  }

  /** One synthesis step keeps the bound: A T A' is T minus a multiple of e0 e0'. */
  lemma StepKeepsBound(R: int -> real, n: nat, z: int -> real, err: real, x: int -> real, x': int -> real, c: real)
    requires n > 0 && Predicts(R, n + 1, z, err) && err >= 0.0 && c >= 0.0
    requires StateBound(R, n, x, c) && IsShifted(n, x', z, x)
    ensures StateBound(R, n, x', c)
  {
    hide Form, Inner, Predicts, IsShifted;
    forall v: int -> real ensures Inner(n, v, x') * Inner(n, v, x') <= c * Form(R, n, v, v) {
      var w := Cut(n, v);
      var u := Tail(Residue(w, z));
      InnerShift(n, v, z, x, x');
      Deflate(R, n, w, z, err);
      FormOfPadded(R, n, w);
      FormExt(R, n, w, v);
      assert Inner(n, u, x) * Inner(n, u, x) <= c * Form(R, n, u, u);
      SquareNonneg(w(0));
      DeflatedIsSmaller(c, w(0), err, Form(R, n, u, u), Form(R, n, v, v));
    }
  }

  lemma DeflatedIsSmaller(c: real, v0: real, err: real, small: real, big: real)
    requires c >= 0.0 && err >= 0.0 && big == small + v0 * (v0 * err)
    ensures c * small <= c * big
  {
    var s := v0 * v0;
    SquareNonneg(v0);
    NonnegProduct(s, err);
    assert v0 * (v0 * err) == s * err;
    NonnegProduct(c, big - small);
  }

  ghost function Unit(): int -> real {
    (j: int) => if j == 0 then 1.0 else 0.0
  }

  lemma SumAtZero(n: nat, f: int -> real)
    requires n > 0 && forall i :: 0 < i < n ==> f(i) == 0.0
    ensures Sum(n, f) == f(0)
  {
    SumTail(n - 1, f);
    SumZero(n - 1, Tail(f));
  }

  /** The bound applied to the newest sample alone. */
  lemma NewestSampleBound(R: int -> real, n: nat, x: int -> real, c: real)
    requires n > 0 && StateBound(R, n, x, c)
    ensures x(0) * x(0) <= c * R(0)
  {
    var e := Unit();
    SumAtZero(n, PairTerm(e, x));
    assert Inner(n, e, x) == x(0);
    SumAtZero(n, RowTerm(R, e, 0));
    SumAtZero(n, FormTerm(R, n, e, e));
    assert Form(R, n, e, e) == R(0);
    assert Inner(n, e, x) * Inner(n, e, x) <= c * Form(R, n, e, e);
  }

  /** Every state has some bound when the filters of all orders have positive error:
      peel off one order at a time. */
  lemma DeflateBound(R: int -> real, n: nat, z: int -> real, err: real, x: int -> real, c: real, c': real)
    requires Predicts(R, n + 1, z, err) && err > 0.0 && c >= 0.0
    requires Nonneg(R, n) && StateBound(R, n, Tail(x), c)
    requires var g := Inner(n + 1, z, x); c' == 2.0 * c + 2.0 * (g * g / err)
    ensures c' >= 0.0 && Nonneg(R, n + 1) && StateBound(R, n + 1, x, c')
  {
    var N := n + 1;
    var g := Inner(N, z, x);
    SquareNonneg(g);
    RatioNonneg(g * g, err);
    forall v: int -> real
      ensures Form(R, N, v, v) >= 0.0 && Inner(N, v, x) * Inner(N, v, x) <= c' * Form(R, N, v, v)
    {
      PeelAt(R, n, z, err, x, c, c', v);
    }
  }

  lemma PeelAt(R: int -> real, n: nat, z: int -> real, err: real, x: int -> real, c: real, c': real, v: int -> real)
    requires Predicts(R, n + 1, z, err) && err > 0.0 && c >= 0.0
    requires Nonneg(R, n) && StateBound(R, n, Tail(x), c)
    requires var g := Inner(n + 1, z, x); c' == 2.0 * c + 2.0 * (g * g / err)
    ensures Form(R, n + 1, v, v) >= 0.0
    ensures Inner(n + 1, v, x) * Inner(n + 1, v, x) <= c' * Form(R, n + 1, v, v)
  {
    hide Form, Inner, Row, Residue, Tail;
    var g := Inner(n + 1, z, x);
    var u := Tail(Residue(v, z));
    var q, F := Inner(n, u, Tail(x)), Form(R, n, u, u);
    InnerSplit(n, v, z, x);
    Deflate(R, n, v, z, err);
    assert q * q <= c * F;
    assert F >= 0.0;
    PeelBound(v(0), g, err, q, c, F, c', Form(R, n + 1, v, v), Inner(n + 1, v, x));
  }

  lemma RatioNonneg(a: real, b: real)
    requires a >= 0.0 && b > 0.0
    ensures a / b >= 0.0
  {}

  lemma InnerSplit(n: nat, v: int -> real, z: int -> real, x: int -> real)
    requires z(0) == 1.0
    ensures Inner(n + 1, v, x) == v(0) * Inner(n + 1, z, x) + Inner(n, Tail(Residue(v, z)), Tail(x))
  {
    hide Inner;
    var d := Residue(v, z);
    InnerLinear(n + 1, d, v, v(0), z, x);
    InnerTail(n, d, x);
    assert d(0) == 0.0;
  }

  /** (v0 g + q)^2 <= (2c + 2 g^2/err) (F + v0^2 err) when q^2 <= c F. */
  lemma PeelBound(v0: real, g: real, err: real, q: real, c: real, F: real, c': real, G: real, total: real)
    requires err > 0.0 && c >= 0.0 && q * q <= c * F
    requires c' == 2.0 * c + 2.0 * (g * g / err)
    requires G == F + v0 * (v0 * err) && F >= 0.0
    requires total == v0 * g + q
    ensures G >= 0.0 && total * total <= c' * G
  {
    var A, h, E := v0 * g, g * g / err, v0 * (v0 * err);
    SquareNonneg(g); RatioNonneg(g * g, err);
    SquareNonneg(v0);
    assert E == v0 * v0 * err;
    NonnegProduct(v0 * v0, err);
    SquareAsProduct(v0, g, err, A, h, E);
    TwoSquares(A, q, total);
    NonnegProduct(c, E); NonnegProduct(h, F);
    ExpandProduct(c, h, F, E, c', G);
  }

  lemma SquareAsProduct(v0: real, g: real, err: real, A: real, h: real, E: real)
    requires err > 0.0 && A == v0 * g && h == g * g / err && E == v0 * (v0 * err)
    ensures A * A == h * E
  {
    assert h * err == g * g;
    assert h * E == (v0 * v0) * (h * err);
    assert A * A == (v0 * v0) * (g * g);
  }

  lemma TwoSquares(a: real, b: real, t: real)
    requires t == a + b
    ensures t * t <= 2.0 * (a * a) + 2.0 * (b * b)
  {
    var d := a - b;
    SquareNonneg(d);
    assert t * t + d * d == 2.0 * (a * a) + 2.0 * (b * b);
  }

  lemma ExpandProduct(c: real, h: real, F: real, E: real, c': real, G: real)
    requires c' == 2.0 * c + 2.0 * h && G == F + E
    ensures c' * G == 2.0 * (c * F) + 2.0 * (h * E) + 2.0 * (c * E) + 2.0 * (h * F)
  {}
}
