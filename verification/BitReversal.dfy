/** The reversed-carry counter and the bit-reversal permutation. A size is a power
    of two, so the source's `j & bit` is "the digit of j at weight bit is 1" and
    `j ^= bit` adds or subtracts that weight. */
module BitReversal {
  import opened Fourier

  /** i < n with its log2(n) binary digits in reverse order. */
  ghost function Rev(n: nat, i: nat): nat
    decreases n
  {
    if n <= 1 then 0 else i % 2 * (n / 2) + Rev(n / 2, i / 2)
  }

  lemma {:induction false} RevBound(n: nat, i: nat)
    requires Pow2(n)
    ensures Rev(n, i) < n
    decreases n
  {
    if n > 1 { RevBound(n / 2, i / 2); }
  }

  lemma HalvedIndex(q: nat, g: nat, r: nat, i: nat)
    requires q < 2 && i == q * (2 * g) + r
    ensures i % 2 == r % 2 && i / 2 == q * g + r / 2
  {
    if q == 0 {
      assert q * (2 * g) == 0 && q * g == 0;
    } else {
      assert q * (2 * g) == 2 * g && q * g == g;
    }
  }

  lemma RevStep(n: nat, i: nat)
    requires n > 1
    ensures Rev(n, i) == i % 2 * (n / 2) + Rev(n / 2, i / 2)
  {}

  lemma DoubledWeight(b: nat, g: nat)
    ensures b * (2 * g) == 2 * (b * g)
  {}

  /** The same function read from the other end: the top digit of i comes last. */
  lemma {:induction false} RevTop(n: nat, q: nat, r: nat)
    requires Pow2(n) && n > 1 && q < 2 && r < n / 2
    ensures Rev(n, q * (n / 2) + r) == 2 * Rev(n / 2, r) + q
    decreases n
  {
    hide Rev;
    var h := n / 2;
    var i := q * h + r;
    RevStep(n, i);
    if h == 1 {
      assert i == q;
      RevZero(1);
    } else {
      var g := h / 2;
      HalvedIndex(q, g, r, i);
      RevStep(h, r);
      RevTop(h, q, r / 2);
      DoubledWeight(r % 2, g);
    }
  }

  /** Bit reversal is its own inverse. */
  lemma {:induction false} RevInvolution(n: nat, i: nat)
    requires Pow2(n) && i < n
    ensures Rev(n, i) < n && Rev(n, Rev(n, i)) == i
    decreases n
  {
    RevBound(n, i);
    if n > 1 {
      RevInvolution(n / 2, i / 2);
      RevTop(n, i % 2, Rev(n / 2, i / 2));
    }
  }

  /** What the highest remaining digit says about the counter. */
  lemma CarryStep(bit: nat, c: nat)
    requires Pow2(bit) && c + 1 < 2 * bit
    ensures Rev(2 * bit, c) < 2 * bit
    ensures if Rev(2 * bit, c) / bit % 2 == 1 then
        && bit % 2 == 0 && Pow2(bit / 2) && c / 2 + 1 < bit
        && Rev(2 * bit, c) - bit == Rev(bit, c / 2)
        && Rev(2 * bit, c + 1) == Rev(bit, c / 2 + 1)
      else
        Rev(2 * bit, c) + bit == Rev(2 * bit, c + 1)
  {
    RevBound(bit, c / 2);
    assert (2 * bit) / 2 == bit;
    TopDigit(bit, c % 2, Rev(bit, c / 2));
    assert Rev(2 * bit, c) == c % 2 * bit + Rev(bit, c / 2);
    if c % 2 == 1 {
      assert (c + 1) % 2 == 0 && (c + 1) / 2 == c / 2 + 1;
    } else {
      assert (c + 1) % 2 == 1 && (c + 1) / 2 == c / 2;
    }
  }

  /** One reversed-carry increment, from the highest weight down: clear ones until a
      zero digit is found, and set it. */
  method ReversedIncrement(n: nat, i: nat, j0: nat) returns (j: nat)
    requires Pow2(n) && i + 1 < n && j0 == Rev(n, i)
    ensures j == Rev(n, i + 1)
  {
    j := j0;
    var bit := n / 2;
    ghost var c: nat := i;  // the counter still to be incremented, over weights up to bit
    assert 2 * bit == n;
    hide Rev, Pow2;
    while j / bit % 2 == 1
      invariant bit > 0 && Pow2(bit) && c + 1 < 2 * bit
      invariant j == Rev(2 * bit, c) && Rev(2 * bit, c + 1) == Rev(n, i + 1)
      decreases bit
    {
      CarryStep(bit, c);
      assert 2 * (bit / 2) == bit;
      j, c, bit := j - bit, c / 2, bit / 2;
    }
    CarryStep(bit, c);
    j := j + bit;
  }

  lemma TopDigit(bit: nat, q: nat, r: nat)
    requires bit > 0 && q < 2 && r < bit
    ensures (q * bit + r) / bit % 2 == q
  {
    if q == 0 { assert q * bit + r == r; } else { assert q * bit + r == bit + r; }
  }

  /** Position k after the swaps for indices below i. */
  ghost function Source(n: nat, i: nat, k: nat): nat {
    if k < i || Rev(n, k) < i then Rev(n, k) else k
  }

  /** x0 after the swaps for indices below i; with i = |x0|, x0 bit-reversed. */
  ghost function Permuted<T(!new)>(x0: seq<T>, i: nat): (x: seq<T>)
    requires Pow2(|x0|)
    ensures |x| == |x0|
  {
    seq(|x0|, (k: nat) requires k < |x0| =>
      RevBound(|x0|, k);
      x0[Source(|x0|, i, k)])
  }

  lemma SwapStep<T(!new)>(x0: seq<T>, i: nat)
    requires Pow2(|x0|) && i < |x0|
    ensures var x, j := Permuted(x0, i), Rev(|x0|, i);
      j < |x0| && Permuted(x0, i + 1) == if i < j then x[i := x[j]][j := x[i]] else x
  {
    hide Rev, Pow2;
    var n, j := |x0|, Rev(|x0|, i);
    var x := Permuted(x0, i);
    RevInvolution(n, i);
    var y := if i < j then x[i := x[j]][j := x[i]] else x;
    assert |y| == n;
    forall k: nat | k < n ensures y[k] == Permuted(x0, i + 1)[k] {
      RevInvolution(n, k);
      RevInvolution(n, j);
      assert x[k] == x0[Source(n, i, k)];
      if k == i {
        if i < j { assert y[i] == x[j] == x0[Source(n, i, j)]; }
      } else if k == j {
        if i < j { assert y[j] == x[i] == x0[Source(n, i, i)]; }
      } else {
        assert Rev(n, k) != i;
        assert y[k] == x[k];
      }
    }
    assert y == Permuted(x0, i + 1);
  }

  lemma PermutedFirst<T(!new)>(x0: seq<T>)
    requires Pow2(|x0|)
    ensures Permuted(x0, 1) == x0
  {
    forall k: nat | k < |x0| ensures Source(|x0|, 1, k) == k {
      RevInvolution(|x0|, k);
      RevZero(|x0|);
    }
  }

  /** The permutation loop: afterwards position k holds the old value at Rev(n, k). */
  method Permute<T(!new)>(x: array<T>)
    requires Pow2(x.Length)
    modifies x
    ensures x[..] == Permuted(old(x[..]), x.Length)
  {
    hide Rev, Permuted;
    ghost var x0 := x[..];
    var n := x.Length;
    var i, j := 1, 0;
    RevBound(n, 0);
    RevZero(n);
    PermutedFirst(x0);
    while i < n
      invariant 1 <= i <= n && j == Rev(n, i - 1)
      invariant x[..] == Permuted(x0, i)
    {
      j := ReversedIncrement(n, i - 1, j);
      RevBound(n, i);
      SwapStep(x0, i);
      if i < j { x[i], x[j] := x[j], x[i]; }
      i := i + 1;
    }
  }

  /** Bit-reversing twice restores the order. */
  lemma PermuteTwice<T(!new)>(x: seq<T>)
    requires Pow2(|x|)
    ensures Permuted(Permuted(x, |x|), |x|) == x
  {
    var n, y := |x|, Permuted(x, |x|);
    forall k: nat | k < n ensures Permuted(y, n)[k] == x[k] {
      RevInvolution(n, k);
      assert Permuted(y, n)[k] == y[Rev(n, k)];
      assert y[Rev(n, k)] == x[Source(n, n, Rev(n, k))];
    }
  }

  lemma {:induction false} RevZero(n: nat)
    ensures Rev(n, 0) == 0
    decreases n
  {
    if n > 1 { RevZero(n / 2); }
  }
}
