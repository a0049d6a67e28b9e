/** Finite sums of real-valued functions, the one notation in which the signal
    properties of this project are stated. */
module Sums {

  /** f(0) + f(1) + ... + f(n-1). */
  ghost function Sum(n: nat, f: int -> real): real {
    if n == 0 then 0.0 else Sum(n - 1, f) + f(n - 1)
  }

  lemma {:induction false} SumExt(n: nat, f: int -> real, g: int -> real)
    requires forall i :: 0 <= i < n ==> f(i) == g(i)
    ensures Sum(n, f) == Sum(n, g)
  {
    if n > 0 { SumExt(n - 1, f, g); }
  }

  /** Linearity: a term-by-term combination sums to the combination of the sums. */
  lemma {:induction false} SumLinear(n: nat, f: int -> real, c: real, g: int -> real, h: int -> real)
    requires forall i :: 0 <= i < n ==> h(i) == f(i) + c * g(i)
    ensures Sum(n, h) == Sum(n, f) + c * Sum(n, g)
  {
    if n > 0 { SumLinear(n - 1, f, c, g, h); }
  }

  lemma {:induction false} SumScale(n: nat, c: real, g: int -> real, h: int -> real)
    requires forall i :: 0 <= i < n ==> h(i) == c * g(i)
    ensures Sum(n, h) == c * Sum(n, g)
  {
    if n > 0 { SumScale(n - 1, c, g, h); }
  }

  lemma {:induction false} SumZero(n: nat, f: int -> real)
    requires forall i :: 0 <= i < n ==> f(i) == 0.0
    ensures Sum(n, f) == 0.0
  {
    if n > 0 { SumZero(n - 1, f); }
  }

  lemma {:induction false} SumMono(n: nat, f: int -> real, g: int -> real)
    requires forall i :: 0 <= i < n ==> f(i) <= g(i)
    ensures Sum(n, f) <= Sum(n, g)
  {
    if n > 0 { SumMono(n - 1, f, g); }
  }

  lemma {:induction false} SumNonneg(n: nat, f: int -> real)
    requires forall i :: 0 <= i < n ==> f(i) >= 0.0
    ensures Sum(n, f) >= 0.0
  {
    if n > 0 { SumNonneg(n - 1, f); }
  }

  /** One term of a sum of non-negative terms is at most the sum. */
  lemma {:induction false} SumTerm(n: nat, f: int -> real, k: nat)
    requires k < n
    requires forall i :: 0 <= i < n ==> f(i) >= 0.0
    ensures f(k) <= Sum(n, f)
  {
    if k == n - 1 { SumNonneg(n - 1, f); } else { SumTerm(n - 1, f, k); }
  }

  /** All terms but one vanish. */
  lemma {:induction false} SumSingle(n: nat, f: int -> real, k: nat)
    requires k < n && forall i :: 0 <= i < n && i != k ==> f(i) == 0.0
    ensures Sum(n, f) == f(k)
  {
    if k == n - 1 { SumZero(n - 1, f); } else { SumSingle(n - 1, f, k); }
  }

  lemma {:induction false} SumSplit(m: nat, n: nat, f: int -> real, g: int -> real)
    requires forall i :: 0 <= i < n ==> g(i) == f(m + i)
    ensures Sum(m + n, f) == Sum(m, f) + Sum(n, g)
  {
    if n > 0 { SumSplit(m, n - 1, f, g); }
  }

  lemma {:induction false} SumReverse(n: nat, f: int -> real, g: int -> real)
    requires forall i :: 0 <= i < n ==> g(i) == f(n - 1 - i)
    ensures Sum(n, f) == Sum(n, g)
  {
    if n > 0 {
      var tail := (i: int) => g(i + 1);
      SumSplit(1, n - 1, g, tail);
      SumReverse(n - 1, f, tail);
      assert Sum(1, g) == Sum(0, g) + g(0);
    }
  }

  /** The order of summation over a rectangle does not matter. */
  lemma {:induction false} SumSwap(m: nat, n: nat, f: (int, int) -> real)
    ensures Sum(m, (i: int) => Sum(n, (j: int) => f(i, j)))
         == Sum(n, (j: int) => Sum(m, (i: int) => f(i, j)))
  {
    var rows := (i: int) => Sum(n, (j: int) => f(i, j));
    var cols := (j: int) => Sum(m, (i: int) => f(i, j));
    if m == 0 {
      SumZero(n, cols);
    } else {
      SumSwap(m - 1, n, f);
      var cols' := (j: int) => Sum(m - 1, (i: int) => f(i, j));
      var last := (j: int) => f(m - 1, j);
      forall j | 0 <= j < n ensures cols(j) == cols'(j) + 1.0 * last(j) { SumLast(m - 1, (i: int) => f(i, j)); }
      SumLinear(n, cols', 1.0, last, cols);
      SumLast(m - 1, rows);
      assert rows(m - 1) == Sum(n, (j: int) => f(m - 1, j));
      SumExt(n, last, (j: int) => f(m - 1, j));
    }
  }

  /** Zero-padded access: samples outside a vector count as silence. */
  function At(s: seq<real>, k: int): real {
    if 0 <= k < |s| then s[k] else 0.0
  }

  ghost function Square(s: seq<real>): int -> real {
    (k: int) => At(s, k) * At(s, k)
  }

  /** The energy of a block of samples. */
  ghost function Energy(s: seq<real>): real {
    Sum(|s|, Square(s))
  }

  ghost function Product(u: seq<real>, v: seq<real>): int -> real {
    (k: int) => At(u, k) * At(v, k)
  }

  ghost function Dot(n: nat, u: seq<real>, v: seq<real>): real {
    Sum(n, Product(u, v))
  }

  // ----- Exponential averages

  ghost function Power(b: real, n: nat): real {
    if n == 0 then 1.0 else b * Power(b, n - 1)
  }

  ghost function Weighted(xs: seq<real>): int -> real {
    (i: int) => if 0 <= i < |xs| then 0.05 * Power(0.95, |xs| - 1 - i) * xs[i] else 0.0
  }

  /** What is left of a starting value after the measurements xs, each taken in with
      weight 1/20: 0.95^n start + sum of 0.05 0.95^(n-1-i) xs[i]. */
  ghost function Averaged(start: real, xs: seq<real>): real {
    Power(0.95, |xs|) * start + Sum(|xs|, Weighted(xs))
  }

  lemma AveragedNothing(start: real, xs: seq<real>)
    requires xs == []
    ensures Averaged(start, xs) == start
  {}

  lemma AveragedStep(start: real, xs: seq<real>, x: real)
    ensures Averaged(start, xs + [x]) == 0.95 * Averaged(start, xs) + 0.05 * x
  {
    hide Sum;
    var n, ys := |xs|, xs + [x];
    forall i | 0 <= i < n ensures Weighted(ys)(i) == 0.95 * Weighted(xs)(i) {
      assert ys[i] == xs[i];
      AgedWeight(Power(0.95, n - 1 - i), Power(0.95, n - i), xs[i]);
    }
    SumScale(n, 0.95, Weighted(xs), Weighted(ys));
    SumLast(n, Weighted(ys));
    assert Power(0.95, 0) == 1.0 && Weighted(ys)(n) == 0.05 * x;
    AgedStart(Power(0.95, n), Power(0.95, n + 1), start);
  }

  lemma SumLast(n: nat, f: int -> real)
    ensures Sum(n + 1, f) == Sum(n, f) + f(n)
  {}

  lemma AgedWeight(p: real, q: real, x: real)
    requires q == 0.95 * p
    ensures 0.05 * q * x == 0.95 * (0.05 * p * x)
  {}

  lemma AgedStart(p: real, q: real, x: real)
    requires q == 0.95 * p
    ensures q * x == 0.95 * (p * x)
  {}

  // ----- Arithmetic of single products

  lemma NonnegProduct(a: real, b: real)
    requires a >= 0.0 && b >= 0.0
    ensures a * b >= 0.0
  {}

  lemma SquareNonneg(a: real)
    ensures a * a >= 0.0
  {}

  lemma ShrinkProduct(a: real, b: real)
    requires 0.0 <= a <= 1.0 && b >= 0.0
    ensures 0.0 <= a * b <= b
  {}

  lemma TimesOne(p: real, e: real)
    requires p == 1.0
    ensures p * e == e
  {}

  lemma CancelLeft(n: real, a: real, b: real)
    requires n > 0.0 && n * a <= n * b
    ensures a <= b
  {}

  lemma Inverse(n: real, r: real)
    requires n != 0.0
    ensures 1.0 / n * n == 1.0 && 1.0 / n * (n * r) == r && n * (1.0 / n * r) == r
  {
    var d := 1.0 / n;
    assert d * n == 1.0;
    assert d * (n * r) == (d * n) * r;
    assert n * (d * r) == (d * n) * r;
  }

  lemma EnergyNonneg(x: seq<real>)
    ensures Energy(x) >= 0.0
  {
    forall k | 0 <= k < |x| ensures Square(x)(k) >= 0.0 { SquareNonneg(At(x, k)); }
    SumNonneg(|x|, Square(x));
  }
}
