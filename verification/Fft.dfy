/** The in-place radix-2 transform: bit reversal, then butterfly stages with a running
    twiddle product. It leaves exactly the plain transform of its input. */
module Fft {
  import opened Complex
  import opened MathLib
  import opened Fourier
  import opened FourierInverse
  import opened BitReversal

  /** Every s-th sample of x from off on, len of them. */
  ghost function Strided(x: seq<Cx>, s: nat, off: nat, len: nat): (r: seq<Cx>)
    ensures |r| == len
  {
    seq(len, (t: nat) => Sample(x, off + t * s))
  }

  ghost function Sample(x: seq<Cx>, i: nat): Cx {
    if i < |x| then x[i] else ZERO
  }

  /** The input samples that block b of a stage with s blocks of length len combines. */
  ghost function BlockInput(x0: seq<Cx>, s: nat, len: nat, b: nat): (r: seq<Cx>)
    ensures |r| == len
  {
    Strided(x0, s, Rev(s, b), len)
  }

  /** Block b holds the transform of its subsequence. */
  ghost predicate BlockDone(x: seq<Cx>, x0: seq<Cx>, s: nat, len: nat, b: nat, w: Cx) {
    b * len + len <= |x| && x[b * len..b * len + len] == Dft(BlockInput(x0, s, len, b), w)
  }

  ghost predicate StageDone(x: seq<Cx>, x0: seq<Cx>, s: nat, len: nat, w: Cx) {
    |x| == s * len && forall b: nat :: b < s ==> BlockDone(x, x0, s, len, b, w)
  }

  /** Neighbouring blocks hold the even and the odd samples of the merged block. */
  lemma BlocksInterleave(x0: seq<Cx>, s: nat, h: nat, b: nat)
    ensures Interleaves(BlockInput(x0, s, 2 * h, b), BlockInput(x0, 2 * s, h, 2 * b), BlockInput(x0, 2 * s, h, 2 * b + 1))
  {
    if s > 0 {
      assert (2 * s) / 2 == s && (2 * b) / 2 == b && (2 * b + 1) / 2 == b;
      assert Rev(2 * s, 2 * b) == Rev(s, b) && Rev(2 * s, 2 * b + 1) == s + Rev(s, b);
    } else {
      assert Rev(2 * s, 2 * b) == 0 && Rev(2 * s, 2 * b + 1) == 0 && Rev(s, b) == 0;
    }
    forall t: nat | t < h
      ensures BlockInput(x0, s, 2 * h, b)[2 * t] == BlockInput(x0, 2 * s, h, 2 * b)[t]
      ensures BlockInput(x0, s, 2 * h, b)[2 * t + 1] == BlockInput(x0, 2 * s, h, 2 * b + 1)[t]
    {
      BlockArithmetic(t, s);
    }
  }

  /** After bit reversal every block of length one is done. */
  lemma FirstStage(x0: seq<Cx>)
    requires Pow2(|x0|)
    ensures StageDone(Permuted(x0, |x0|), x0, |x0|, 1, ONE)
  {
    var n, x := |x0|, Permuted(x0, |x0|);
    forall b: nat | b < n ensures BlockDone(x, x0, n, 1, b, ONE) {
      RevBound(n, b);
      var y := BlockInput(x0, n, 1, b);
      assert y[0] == x0[Rev(n, b)];
      PolyAtFirst(y);
      assert x[b..b + 1] == [x[b]];
      assert Dft(y, ONE) == [y[0]];
    }
  }

  lemma PolyAtFirst(y: seq<Cx>)
    requires |y| == 1
    ensures Eval(y, Pow(ONE, 0)) == y[0]
  {
    MulOne(y[0]);
    assert CSum(1, PolyTerm(y, ONE)) == Add(CSum(0, PolyTerm(y, ONE)), PolyTerm(y, ONE)(0));
  }

  lemma LastStage(x: seq<Cx>, x0: seq<Cx>, w: Cx)
    requires |x| == |x0| && StageDone(x, x0, 1, |x0|, w)
    ensures x == Dft(x0, w)
  {
    assert BlockDone(x, x0, 1, |x0|, 0, w);
    assert x[0 * |x0|..0 * |x0| + |x0|] == x;
    assert BlockInput(x0, 1, |x0|, 0) == x0;
  }

  /** Position k of a block at i after its first j butterflies. */
  ghost function Paired(x0: seq<Cx>, i: nat, h: nat, j: nat, w: Cx, k: nat): Cx
    requires j <= h && i + 2 * h <= |x0| && k < |x0|
  {
    if i <= k < i + j then Add(x0[k], Mul(x0[k + h], Pow(w, k - i)))
    else if i + h <= k < i + h + j then Sub(x0[k - h], Mul(x0[k], Pow(w, k - h - i)))
    else x0[k]
  }

  lemma PairedAll(x: seq<Cx>, x0: seq<Cx>, i: nat, h: nat, w: Cx)
    requires i + 2 * h <= |x0| == |x|
    requires forall k: nat :: k < |x0| ==> x[k] == Paired(x0, i, h, h, w, k)
    ensures x[i..i + 2 * h] == Butterfly(x0[i..i + h], x0[i + h..i + 2 * h], w)
    ensures x[..i] == x0[..i] && x[i + 2 * h..] == x0[i + 2 * h..]
  {
    hide Mul, Add, Sub, Pow;
    var E, O := x0[i..i + h], x0[i + h..i + 2 * h];
    forall k: nat | k < 2 * h ensures x[i..i + 2 * h][k] == Butterfly(E, O, w)[k] {
      assert x[i + k] == Paired(x0, i, h, h, w, i + k);
    }
    assert x[i..i + 2 * h] == Butterfly(E, O, w);
    assert x[..i] == x0[..i];
    assert x[i + 2 * h..] == x0[i + 2 * h..];
  }

  /** One block: the butterfly of its two halves, everything else untouched. */
  method ButterflyBlock(x: array<Cx>, i: nat, h: nat, wlen: Cx)
    requires i + 2 * h <= x.Length
    modifies x
    ensures x[i..i + 2 * h] == Butterfly(old(x[i..i + h]), old(x[i + h..i + 2 * h]), wlen)
    ensures x[..i] == old(x[..i]) && x[i + 2 * h..] == old(x[i + 2 * h..])
  {
    hide Mul, Add, Sub, Butterfly;
    ghost var x0 := x[..];
    var w := ONE;
    var j := 0;
    while j < h
      invariant 0 <= j <= h && w == Pow(wlen, j)
      invariant forall k: nat :: k < x.Length ==> x[k] == Paired(x0, i, h, j, wlen, k)
    {
      var u := x[i + j];
      var v := Mul(x[i + j + h], w);
      assert u == x0[i + j] && v == Mul(x0[i + j + h], Pow(wlen, j));
      x[i + j] := Add(u, v);
      x[i + j + h] := Sub(u, v);
      w := Mul(w, wlen);
      j := j + 1;
    }
    PairedAll(x[..], x0, i, h, wlen);
    assert x0[i..i + h] == old(x[i..i + h]) && x0[i + h..i + 2 * h] == old(x[i + h..i + 2 * h]);
  }

  lemma BlockEdges(len: nat, b: nat, c: nat)
    requires b < c
    ensures b * len + len <= c * len && b * len + len == (b + 1) * len
  {
    assert c * len == (b + 1) * len + (c - b - 1) * len;
  }

  /** A finished block stays finished when only later positions change. */
  lemma BlockKept(x: seq<Cx>, y: seq<Cx>, x0: seq<Cx>, s: nat, len: nat, b: nat, w: Cx, edge: nat)
    requires BlockDone(x, x0, s, len, b, w) && b * len + len <= edge <= |x| == |y|
    requires x[..edge] == y[..edge]
    ensures BlockDone(y, x0, s, len, b, w)
  {
    assert x[b * len..b * len + len] == x[..edge][b * len..b * len + len];
    assert y[b * len..b * len + len] == y[..edge][b * len..b * len + len];
  }

  /** The same, when only earlier positions change. */
  lemma BlockAhead(x: seq<Cx>, y: seq<Cx>, x0: seq<Cx>, s: nat, len: nat, b: nat, w: Cx, edge: nat)
    requires BlockDone(x, x0, s, len, b, w) && edge <= b * len && |x| == |y|
    requires edge <= |x| && x[edge..] == y[edge..]
    ensures BlockDone(y, x0, s, len, b, w)
  {
    assert x[b * len..b * len + len] == x[edge..][b * len - edge..b * len + len - edge];
    assert y[b * len..b * len + len] == y[edge..][b * len - edge..b * len + len - edge];
  }

  /** Two finished half-size blocks and the butterfly make a finished block. */
  lemma BlockCombined(x: seq<Cx>, y: seq<Cx>, x0: seq<Cx>, s: nat, h: nat, b: nat, w: Cx)
    requires h > 0 && IsRoot(w, 2 * h) && |x| == |y|
    requires BlockDone(x, x0, 2 * s, h, 2 * b, Mul(w, w))
    requires BlockDone(x, x0, 2 * s, h, 2 * b + 1, Mul(w, w))
    requires var i := b * (2 * h);
      && i + 2 * h <= |x|
      && y[i..i + 2 * h] == Butterfly(x[i..i + h], x[i + h..i + 2 * h], w)
    ensures BlockDone(y, x0, s, 2 * h, b, w)
  {
    hide Mul, IsRoot, Dft, BlockInput, Butterfly, Interleaves;
    assert 2 * b * h == b * (2 * h) && (2 * b + 1) * h == b * (2 * h) + h;
    BlocksInterleave(x0, s, h, b);
    Combine(BlockInput(x0, s, 2 * h, b), BlockInput(x0, 2 * s, h, 2 * b), BlockInput(x0, 2 * s, h, 2 * b + 1), w);
  }

  /** The first b merged blocks are done; the halves of the others are still in place. */
  ghost predicate StagePartial(x: seq<Cx>, x0: seq<Cx>, s: nat, h: nat, b: nat, w: Cx, ww: Cx) {
    && (forall c: nat :: c < b ==> BlockDone(x, x0, s, 2 * h, c, w))
    && (forall c: nat :: 2 * b <= c < 2 * s ==> BlockDone(x, x0, 2 * s, h, c, ww))
  }

  lemma StageAdvance(x: seq<Cx>, y: seq<Cx>, x0: seq<Cx>, s: nat, h: nat, b: nat, w: Cx)
    requires h > 0 && IsRoot(w, 2 * h) && b < s && |x| == |y| == s * (2 * h)
    requires StagePartial(x, x0, s, h, b, w, Mul(w, w))
    requires var i := b * (2 * h);
      && i + 2 * h <= |x|
      && y[i..i + 2 * h] == Butterfly(x[i..i + h], x[i + h..i + 2 * h], w)
      && x[..i] == y[..i] && x[i + 2 * h..] == y[i + 2 * h..]
    ensures StagePartial(y, x0, s, h, b + 1, w, Mul(w, w))
  {
    hide Mul, IsRoot, BlockDone, Butterfly;
    var i := b * (2 * h);
    BlockCombined(x, y, x0, s, h, b, w);
    forall c: nat | c < b ensures BlockDone(y, x0, s, 2 * h, c, w) {
      BlockEdges(2 * h, c, b);
      BlockKept(x, y, x0, s, 2 * h, c, w, i);
    }
    forall c: nat | 2 * (b + 1) <= c < 2 * s ensures BlockDone(y, x0, 2 * s, h, c, Mul(w, w)) {
      BlockEdges(h, 2 * b + 1, c);
      assert (2 * b + 1) * h + h == i + 2 * h;
      BlockAhead(x, y, x0, 2 * s, h, c, Mul(w, w), i + 2 * h);
    }
  }

  /** One stage over all blocks. */
  method Stage(x: array<Cx>, ghost x0: seq<Cx>, ghost s: nat, h: nat, wlen: Cx)
    requires h > 0 && IsRoot(wlen, 2 * h)
    requires StageDone(x[..], x0, 2 * s, h, Mul(wlen, wlen))
    modifies x
    ensures StageDone(x[..], x0, s, 2 * h, wlen)
  {
    hide Mul, IsRoot, BlockDone, Butterfly, StagePartial, StageDone;
    var n, len, i := x.Length, 2 * h, 0;
    ghost var b: nat := 0;
    StageStart(x[..], x0, s, h, wlen);
    while i < n
      invariant b <= s && i == b * len && n == s * len
      invariant StagePartial(x[..], x0, s, h, b, wlen, Mul(wlen, wlen))
      decreases n - i
    {
      BlocksLeft(len, b, s);
      ghost var before := x[..];
      ButterflyBlock(x, i, h, wlen);
      StageAdvance(before, x[..], x0, s, h, b, wlen);
      BlockEdges(len, b, s);
      i, b := i + len, b + 1;
    }
    BlocksLeft(len, b, s);
    StageEnd(x[..], x0, s, h, wlen);
  }

  lemma BlocksLeft(len: nat, b: nat, s: nat)
    requires b <= s && len > 0
    ensures b < s <==> b * len < s * len
    ensures b < s ==> b * len + len <= s * len
  {
    if b < s { BlockEdges(len, b, s); }
  }

  lemma StageStart(x: seq<Cx>, x0: seq<Cx>, s: nat, h: nat, w: Cx)
    requires StageDone(x, x0, 2 * s, h, Mul(w, w))
    ensures |x| == s * (2 * h) && StagePartial(x, x0, s, h, 0, w, Mul(w, w))
  {
    hide Mul, BlockDone;
  }

  lemma StageEnd(x: seq<Cx>, x0: seq<Cx>, s: nat, h: nat, w: Cx)
    requires |x| == s * (2 * h) && StagePartial(x, x0, s, h, s, w, Mul(w, w))
    ensures StageDone(x, x0, s, 2 * h, w)
  {
    hide Mul, BlockDone;
  }

  lemma BlockArithmetic(h: nat, s: nat)
    ensures s == 1 ==> h * s == h
    ensures h * (2 * s) == 2 * h * s
    ensures (2 * h) * s == h * (2 * s) && (2 * h + 1) * s == s + h * (2 * s)
  {}

  /** Twice the length, half as many blocks. */
  lemma HalveBlocks(h: nat, s: nat, n: nat)
    requires h > 0 && Pow2(s) && Pow2(h) && h * s == n && 2 * h <= n
    ensures s == 2 * (s / 2) && Pow2(s / 2) && Pow2(2 * h) && 2 * h * (s / 2) == n
  {
    BlockArithmetic(h, s); BlockArithmetic(h, s / 2);
    assert (2 * h) / 2 == h;
  }

  lemma OneBlock(h: nat, s: nat, n: nat)
    requires Pow2(s) && h * s == n < 2 * h
    ensures s == 1 && h == n
  {
    assert h * s == h + h * (s - 1);
    assert s > 1 ==> h * (s - 1) >= h;
  }

  /** The transform of the source: for every power-of-two length and every input, the
      array ends up holding the plain transform at the last stage's root. */
  method Radix2Fft(m: Lib, x: array<Cx>)
    requires Lawful(m) && Pow2(x.Length)
    modifies x
    ensures x[..] == Dft(old(x[..]), Wlen(m, x.Length))
  {
    hide Lawful, Wlen, Mul, IsRoot, StageDone, Pow2, Permuted;
    Pow2Positive(x.Length);
    var n := x.Length;
    ghost var x0 := x[..];
    Permute(x);
    FirstStage(x0);
    WlenLaws(m, 1); WlenAtOne(m);
    var len := 2;
    ghost var s: nat := n;
    while len <= n
      invariant len == 2 * (len / 2) && len > 0 && Pow2(s) && Pow2(len / 2) && len / 2 * s == n
      invariant StageDone(x[..], x0, s, len / 2, Wlen(m, len / 2))
      decreases n - len
    {
      var h := len / 2;
      HalveBlocks(h, s, n);
      WlenLaws(m, h);
      WlenIsRoot(m, len);
      var wlen := Wlen(m, len);
      Stage(x, x0, s / 2, h, wlen);
      s := s / 2;
      len := len * 2;
    }
    OneBlock(len / 2, s, n);
    LastStage(x[..], x0, Wlen(m, n));
  }

  lemma WlenAtOne(m: Lib)
    requires Lawful(m)
    ensures Wlen(m, 1) == ONE && Pow2(1)
  {
    hide Mul, Wlen;
    WlenLaws(m, 1);
    MinusOneSquared();
  }

  method ConjInPlace(x: array<Cx>)
    modifies x
    ensures x[..] == ConjAll(old(x[..]))
  {
    hide Conj;
    ghost var x0 := x[..];
    var i := 0;
    while i < x.Length
      invariant 0 <= i <= x.Length
      invariant forall k :: 0 <= k < x.Length ==> x[k] == if k < i then Conj(x0[k]) else x0[k]
    {
      x[i] := Conj(x[i]);
      i := i + 1;
    }
  }

  method ConjScaleInPlace(x: array<Cx>, inv: real)
    modifies x
    ensures forall k :: 0 <= k < x.Length ==> x[k] == Scale(inv, Conj(old(x[k])))
  {
    hide Conj, Scale;
    ghost var x0 := x[..];
    var i := 0;
    while i < x.Length
      invariant 0 <= i <= x.Length
      invariant forall k :: 0 <= k < x.Length ==>
        x[k] == if k < i then Scale(inv, Conj(x0[k])) else x0[k]
    {
      x[i] := Scale(inv, Conj(x[i]));
      i := i + 1;
    }
  }

  /** Conjugate, transform, conjugate and scale by 1/n, in place. */
  method Radix2Ifft(m: Lib, x: array<Cx>)
    requires Lawful(m) && Pow2(x.Length)
    modifies x
    ensures x[..] == Idft(old(x[..]), Wlen(m, x.Length))
  {
    hide Lawful, Wlen, Dft, Pow2, Conj, Scale;
    Pow2Positive(x.Length);
    ConjInPlace(x);
    Radix2Fft(m, x);
    ConjScaleInPlace(x, 1.0 / x.Length as real);
  }

  /** The two calls in sequence leave every array as it was. */
  method RoundTrip(m: Lib, x: array<Cx>)
    requires Lawful(m) && Pow2(x.Length)
    modifies x
    ensures x[..] == old(x[..])
  {
    Radix2Fft(m, x);
    Radix2Ifft(m, x);
    WlenIsRoot(m, x.Length);
    InverseOfDft(old(x[..]), Wlen(m, x.Length));
  }
}
