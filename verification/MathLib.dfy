/** The C math functions the pipeline calls, as a parameter: only the laws below
    are ever used, and rounding is not modelled. */
module MathLib {
  import opened Complex

  datatype Lib = Lib(pi: real, cos: real -> real, sin: real -> real,
                     sqrt: real -> real, log10: real -> real)

  /** Pythagoras and the double-angle laws, the half turn, and the square root.
      Nothing is asked of log10. */
  ghost predicate Lawful(m: Lib) {
    && (forall t :: m.cos(t) * m.cos(t) + m.sin(t) * m.sin(t) == 1.0)
    && (forall t, u {:trigger m.cos(t), m.cos(u)} :: u == t + t ==>
          m.cos(u) == m.cos(t) * m.cos(t) - m.sin(t) * m.sin(t))
    && (forall t, u {:trigger m.sin(t), m.sin(u)} :: u == t + t ==>
          m.sin(u) == m.cos(t) * m.sin(t) + m.sin(t) * m.cos(t))
    && m.cos(-m.pi) == -1.0 && m.sin(-m.pi) == 0.0
    && (forall x :: x >= 0.0 ==> m.sqrt(x) >= 0.0 && m.sqrt(x) * m.sqrt(x) == x)
  }

  /** The addition laws, needed only to write a root's powers as cosines and sines. */
  ghost predicate Adds(m: Lib) {
    forall t, u :: AddsAt(m, t, u)
  }

  ghost predicate AddsAt(m: Lib, t: real, u: real) {
    && m.cos(t + u) == m.cos(t) * m.cos(u) - m.sin(t) * m.sin(u)
    && m.sin(t + u) == m.cos(t) * m.sin(u) + m.sin(t) * m.cos(u)
  }

  /** The logarithm of one is zero and the logarithm increases: all that the decibel
      decisions need. */
  ghost predicate GrowingLog(m: Lib) {
    m.log10(1.0) == 0.0 && forall x, y :: 0.0 < x < y ==> m.log10(x) < m.log10(y)
  }

  lemma PositiveQuotient(a: real, b: real)
    requires a > 0.0 && b > 0.0
    ensures a / b > 0.0
  {}

  lemma CompareScaled(q: real, t: real, b: real)
    requires b > 0.0
    ensures q < t <==> q * b < t * b
  {}

  lemma CompareToOne(q: real, b: real, a: real)
    requires b > 0.0 && q * b == a
    ensures q < 1.0 <==> a < b
  {
    CompareScaled(q, 1.0, b);
  }

  /** A level in decibels is non-negative exactly when the ratio is at least one. */
  lemma LogSign(m: Lib, a: real, b: real)
    requires GrowingLog(m) && a > 0.0 && b > 0.0
    ensures m.log10(a / b) >= 0.0 <==> a >= b
  {
    var q := a / b;
    assert q * b == a;
    PositiveQuotient(a, b);
    CompareToOne(q, b, a);
    if q < 1.0 { assert m.log10(q) < m.log10(1.0); }
    if q > 1.0 { assert m.log10(1.0) < m.log10(q); }
  }

  lemma CosZero(m: Lib)
    requires Lawful(m) && Adds(m)
    ensures m.cos(0.0) == 1.0 && m.sin(0.0) == 0.0
  {
    assert AddsAt(m, 0.0, -m.pi);
    assert 0.0 + -m.pi == -m.pi;
  }

  /** The per-stage root of the transform. */
  function Wlen(m: Lib, len: nat): Cx
    requires len > 0
  {
    var ang := -2.0 * m.pi / len as real;
    Cx(m.cos(ang), m.sin(ang))
  }

  lemma HalfAngle(pi: real, len: nat)
    requires len > 0
    ensures var a := -2.0 * pi / (2 * len) as real; a + a == -2.0 * pi / len as real
  {
    var l := len as real;
    assert (2 * len) as real == 2.0 * l;
    var x := -2.0 * pi;
    assert x / (2.0 * l) + x / (2.0 * l) == x / l;
  }

  /** The three facts the transform rests on. */
  lemma WlenLaws(m: Lib, len: nat)
    requires Lawful(m) && len > 0
    ensures Norm(Wlen(m, len)) == 1.0
    ensures Mul(Wlen(m, 2 * len), Wlen(m, 2 * len)) == Wlen(m, len)
    ensures Wlen(m, 2) == MINUS_ONE
  {
    HalfAngle(m.pi, len);
    assert -2.0 * m.pi / (2 as real) == -m.pi;
  }

  lemma SquareAtMostOne(c: real)
    requires c * c <= 1.0
    ensures -1.0 <= c <= 1.0
  {}

  lemma CosBound(m: Lib, t: real)
    requires Lawful(m)
    ensures -1.0 <= m.cos(t) <= 1.0
  {
    var c, s := m.cos(t), m.sin(t);
    assert s * s >= 0.0;
    assert c * c <= 1.0;
    SquareAtMostOne(c);
  }

  lemma SqrtBound(m: Lib, x: real)
    requires Lawful(m) && 0.0 <= x <= 1.0
    ensures 0.0 <= m.sqrt(x) <= 1.0
  {
    SquareAtMostOne(m.sqrt(x));
  }
}
