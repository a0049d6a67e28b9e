/** Frames of samples and the streams they make up. */
module Frames {
  const FRAME_SIZE_MS := 10
  const FRAME_SIZE: nat := 160

  /** Silence. */
  ghost function Zeros(n: nat): (r: seq<real>)
    ensures |r| == n && forall k :: 0 <= k < n ==> r[k] == 0.0
  {
    seq(n, _ => 0.0)
  }

  /** The last n elements, or all of them when there are fewer. */
  ghost function TakeLast<T>(s: seq<T>, n: nat): seq<T> {
    if |s| <= n then s else s[|s| - n..]
  }

  ghost function Concat(h: seq<seq<real>>): seq<real> {
    if h == [] then [] else h[0] + Concat(h[1..])
  }

  lemma TakeLastFull<T>(r: seq<T>, s: seq<T>, n: nat)
    requires |s| >= n
    ensures TakeLast(r + s, n) == TakeLast(s, n)
  {
    assert (r + s)[|r| + |s| - n..] == s[|s| - n..];
  }

  lemma Regroup<T>(a: seq<T>, b: seq<T>, c: seq<T>)
    ensures a + b + c == a + (b + c)
  {}

  /** Dropping early elements first makes no difference. */
  lemma TakeLastAppend<T>(s: seq<T>, t: seq<T>, n: nat)
    ensures TakeLast(TakeLast(s, n) + t, n) == TakeLast(s + t, n)
  {
    if |s| > n {
      var early, late := s[..|s| - n], s[|s| - n..];
      assert s == early + late;
      Regroup(early, late, t);
      TakeLastFull(early, late + t, n);
    }
  }

  lemma {:induction false} ConcatSplit(h: seq<seq<real>>, i: nat)
    requires i <= |h|
    ensures Concat(h) == Concat(h[..i]) + Concat(h[i..])
  {
    if i == 0 {
      assert h[..0] == [] && h[0..] == h;
    } else {
      ConcatSplit(h[1..], i - 1);
      assert h[1..][..i - 1] == h[..i][1..] && h[1..][i - 1..] == h[i..];
    }
  }

  lemma {:induction false} ConcatLength(h: seq<seq<real>>)
    requires forall k :: 0 <= k < |h| ==> |h[k]| == FRAME_SIZE
    ensures |Concat(h)| == |h| * FRAME_SIZE
  {
    if h != [] { ConcatLength(h[1..]); }
  }
}
