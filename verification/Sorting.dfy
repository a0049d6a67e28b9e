/** Sorting byte strings: the sorted list of member names depends only on which names
    there are. */
module Sorting {
  import opened Bytes

  /** Lexicographic order. */
  predicate LexLe(a: Bytes, b: Bytes)
    decreases |a|
  {
    a == [] || (b != [] && (a[0] < b[0] || (a[0] == b[0] && LexLe(a[1..], b[1..]))))
  }

  lemma {:induction false} LexTotal(a: Bytes, b: Bytes)
    ensures LexLe(a, b) || LexLe(b, a)
    decreases |a|
  {
    if a != [] && b != [] { LexTotal(a[1..], b[1..]); }
  }

  lemma {:induction false} LexAntisymmetric(a: Bytes, b: Bytes)
    requires LexLe(a, b) && LexLe(b, a)
    ensures a == b
    decreases |a|
  {
    if a != [] {
      LexAntisymmetric(a[1..], b[1..]);
      assert a == [a[0]] + a[1..] && b == [b[0]] + b[1..];
    }
  }

  lemma {:induction false} LexTransitive(a: Bytes, b: Bytes, c: Bytes)
    requires LexLe(a, b) && LexLe(b, c)
    ensures LexLe(a, c)
    decreases |a|
  {
    if a != [] && a[0] == b[0] && b[0] == c[0] { LexTransitive(a[1..], b[1..], c[1..]); }
  }

  /** The strings agree up to place k, and there a ends or has the smaller byte. */
  ghost predicate Decides(a: Bytes, b: Bytes, k: nat) {
    k <= |a| && k <= |b| && a[..k] == b[..k] && (k == |a| || (k < |b| && a[k] < b[k]))
  }

  lemma DecidesLater(a: Bytes, b: Bytes, k: nat)
    requires a != [] && b != [] && a[0] == b[0]
    ensures Decides(a, b, k + 1) <==> Decides(a[1..], b[1..], k)
  {
    if k + 1 <= |a| && k + 1 <= |b| {
      assert a[..k + 1] == [a[0]] + a[1..][..k] && b[..k + 1] == [b[0]] + b[1..][..k];
      if a[..k + 1] == b[..k + 1] { assert a[1..][..k] == a[..k + 1][1..] == b[..k + 1][1..] == b[1..][..k]; }
    }
  }

  lemma SameStart(a: Bytes, b: Bytes, k: nat)
    requires Decides(a, b, k) && k > 0
    ensures a != [] && b != [] && a[0] == b[0]
  {
    assert a[0] == a[..k][0] && b[0] == b[..k][0];
  }

  /** The order is that of the first difference, and a prefix comes first. */
  lemma {:induction false} LexMeans(a: Bytes, b: Bytes)
    ensures LexLe(a, b) <==> exists k: nat :: Decides(a, b, k)
    decreases |a|
  {
    if a == [] || b == [] || a[0] != b[0] {
      assert LexLe(a, b) ==> Decides(a, b, 0);
      forall k: nat | Decides(a, b, k) ensures LexLe(a, b) {
        if k > 0 { SameStart(a, b, k); }
      }
    } else {
      LexMeans(a[1..], b[1..]);
      if LexLe(a, b) {
        var k: nat :| Decides(a[1..], b[1..], k);
        DecidesLater(a, b, k);
        assert Decides(a, b, k + 1);
      }
      forall k: nat | Decides(a, b, k) ensures LexLe(a, b) {
        if k > 0 { DecidesLater(a, b, k - 1); assert Decides(a[1..], b[1..], k - 1); }
      }
    }
  }

  ghost predicate Sorted(s: seq<Bytes>) {
    forall i, j :: 0 <= i < j < |s| ==> LexLe(s[i], s[j])
  }

  function Insert(x: Bytes, s: seq<Bytes>): (r: seq<Bytes>)
    ensures multiset(r) == multiset(s) + multiset{x}
  {
    if s == [] then [x]
    else if LexLe(x, s[0]) then [x] + s
    else
      assert s == [s[0]] + s[1..];
      [s[0]] + Insert(x, s[1..])
  }

  function Sort(s: seq<Bytes>): (r: seq<Bytes>)
    ensures multiset(r) == multiset(s)
  {
    if s == [] then []
    else
      assert s == [s[0]] + s[1..];
      Insert(s[0], Sort(s[1..]))
  }

  lemma {:induction false} InsertSorted(x: Bytes, s: seq<Bytes>)
    requires Sorted(s)
    ensures Sorted(Insert(x, s))
  {
    if s == [] {
    } else if LexLe(x, s[0]) {
      forall j | 0 <= j < |s| ensures LexLe(x, s[j]) {
        if j > 0 { LexTransitive(x, s[0], s[j]); }
      }
    } else {
      var r := Insert(x, s[1..]);
      InsertSorted(x, s[1..]);
      LexTotal(x, s[0]);
      assert s == [s[0]] + s[1..];
      forall j | 0 <= j < |r| ensures LexLe(s[0], r[j]) {
        assert r[j] in multiset(r);
        if r[j] != x { assert r[j] in s[1..]; }
      }
    }
  }

  lemma {:induction false} SortSorted(s: seq<Bytes>)
    ensures Sorted(Sort(s))
  {
    if s != [] {
      SortSorted(s[1..]);
      InsertSorted(s[0], Sort(s[1..]));
    }
  }

  lemma SameHead(s: seq<Bytes>, t: seq<Bytes>)
    requires Sorted(s) && Sorted(t) && s != [] && t != [] && multiset(s) == multiset(t)
    ensures s[0] == t[0]
  {
    hide LexLe, Sorted;
    assert s[0] in multiset(t) && t[0] in multiset(s);
    HeadLeast(s, t[0]); HeadLeast(t, s[0]);
    LexAntisymmetric(s[0], t[0]);
  }

  lemma TailMultiset(s: seq<Bytes>)
    requires s != []
    ensures multiset(s[1..]) == multiset(s) - multiset{s[0]}
  {
    assert s == [s[0]] + s[1..];
  }

  /** A sorted list is determined by its elements. */
  lemma {:induction false} SortedUnique(s: seq<Bytes>, t: seq<Bytes>)
    requires Sorted(s) && Sorted(t) && multiset(s) == multiset(t)
    ensures s == t
    decreases |s|
  {
    hide LexLe;
    assert |s| == |multiset(s)| == |multiset(t)| == |t|;
    if s != [] {
      SameHead(s, t);
      TailMultiset(s); TailMultiset(t);
      SortedUnique(s[1..], t[1..]);
      assert s == [s[0]] + s[1..] && t == [t[0]] + t[1..];
    }
  }

  lemma LexReflexive(a: Bytes)
    ensures LexLe(a, a)
  {
    LexTotal(a, a);
  }

  lemma HeadLeast(s: seq<Bytes>, x: Bytes)
    requires Sorted(s) && s != [] && x in s
    ensures LexLe(s[0], x)
  {
    LexReflexive(x);
  }

  /** Sorting forgets the order of its input. */
  lemma {:induction false} SortCanonical(s: seq<Bytes>, t: seq<Bytes>)
    requires multiset(s) == multiset(t)
    ensures Sort(s) == Sort(t)
  {
    SortSorted(s); SortSorted(t);
    SortedUnique(Sort(s), Sort(t));
  }
}
