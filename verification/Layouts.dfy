/**
 Strided multi-dimensional layouts: multi-indices of a box of lengths, their
 offsets under a stride vector, and their row-major rank.

 Lengths, strides and indices are row-major vectors (last axis fastest), as
 everywhere in the shared layer.
 */
module Layouts {
  import opened Arith

  // ---------------------------------------------------------------- boxes

  /** `x` is a multi-index of the box of lengths `l`. */
  ghost predicate InBox(x: seq<nat>, l: seq<nat>) {
    |x| == |l| && forall k :: 0 <= k < |l| ==> x[k] < l[k]
  }

  /** No axis is empty. */
  ghost predicate AllPositive(l: seq<nat>) {
    forall k :: 0 <= k < |l| ==> l[k] > 0
  }

  /** One axis or more, none of them empty. */
  ghost predicate Positive(length: seq<nat>) {
    length != [] && AllPositive(length)
  }

  /** Number of multi-indices of the box. */
  function Product(l: seq<nat>): nat {
    if l == [] then 1 else l[0] * Product(l[1..])
  }

  lemma {:induction false} ProductSnoc(l: seq<nat>)
    requires l != []
    ensures Product(l) == l[|l| - 1] * Product(l[..|l| - 1])
  {
    if |l| > 1 {
      ProductSnoc(l[1..]);
      assert l[1..][..|l| - 2] == l[..|l| - 1][1..];
      Swapped(l[0], l[|l| - 1], Product(l[1..][..|l| - 2]));
    } else {
      assert l[1..] == [] && l[..0] == [];
    }
  }

  lemma Swapped(a: nat, b: nat, p: nat)
    ensures a * (b * p) == b * (a * p)
  {
  }

  /** Offset of the multi-index `x` under strides `s` (std::inner_product). */
  function Dot(x: seq<nat>, s: seq<nat>): nat
    requires |x| == |s|
  {
    if x == [] then 0 else x[0] * s[0] + Dot(x[1..], s[1..])
  }

  /** The multi-index of all zeros. */
  function Zeros(n: nat): (z: seq<nat>)
    ensures |z| == n && forall k :: 0 <= k < n ==> z[k] == 0
  {
    seq(n, _ => 0)
  }

  /** The vector with entry `k` left out. */
  function Drop<T>(v: seq<T>, k: nat): (r: seq<T>)
    requires k < |v|
    ensures |r| == |v| - 1
  {
    v[..k] + v[k + 1..]
  }

  /** The vector with `e` put in at position `k`. */
  function Insert<T>(v: seq<T>, k: nat, e: T): (r: seq<T>)
    requires k <= |v|
    ensures |r| == |v| + 1
  {
    v[..k] + [e] + v[k..]
  }

  lemma DropThenInsert<T>(v: seq<T>, k: nat)
    requires k < |v|
    ensures Insert(Drop(v, k), k, v[k]) == v
  {
  }

  lemma {:induction false} DotInsert(x: seq<nat>, s: seq<nat>, k: nat, e: nat)
    requires |x| + 1 == |s| && k <= |x|
    ensures Dot(Insert(x, k, e), s) == e * s[k] + Dot(x, Drop(s, k))
  {
    var y := Insert(x, k, e);
    if k == 0 {
      assert y[1..] == x && Drop(s, 0) == s[1..];
    } else {
      assert y[1..] == Insert(x[1..], k - 1, e);
      assert Drop(s, k)[1..] == Drop(s[1..], k - 1);
      DotInsert(x[1..], s[1..], k - 1, e);
    }
  }

  lemma {:induction false} DotZeros(s: seq<nat>)
    ensures Dot(Zeros(|s|), s) == 0
  {
    if s != [] {
      assert Zeros(|s|)[1..] == Zeros(|s[1..]|);
      DotZeros(s[1..]);
    }
  }

  lemma {:induction false} DotPositive(x: seq<nat>, s: seq<nat>, k: nat)
    requires |x| == |s| && k < |x| && x[k] > 0 && s[k] > 0
    ensures Dot(x, s) >= x[k] * s[k] > 0
  {
    DropThenInsert(x, k);
    DotInsert(Drop(x, k), s, k, x[k]);
    MulPositive(x[k], s[k]);
  }

  /** Farthest offset of the box: the sum of (length - 1) * stride. */
  function MaxOffset(l: seq<nat>, s: seq<nat>): nat
    requires |l| == |s|
  {
    if l == [] then 0 else (if l[0] == 0 then 0 else (l[0] - 1) * s[0]) + MaxOffset(l[1..], s[1..])
  }

  lemma {:induction false} DotAtMostMaxOffset(x: seq<nat>, l: seq<nat>, s: seq<nat>)
    requires InBox(x, l) && |l| == |s|
    ensures Dot(x, s) <= MaxOffset(l, s)
  {
    if x != [] {
      assert InBox(x[1..], l[1..]);
      DotAtMostMaxOffset(x[1..], l[1..], s[1..]);
      MulMono(x[0], l[0] - 1, s[0]);
    }
  }

  // ----------------------------------------------------------- collisions

  /** Two distinct multi-indices of the box share an offset. */
  ghost predicate Collides(l: seq<nat>, s: seq<nat>)
    requires |l| == |s|
  {
    exists x, y :: Clash(x, y, l, s)
  }

  ghost predicate Clash(x: seq<nat>, y: seq<nat>, l: seq<nat>, s: seq<nat>)
    requires |l| == |s|
  {
    InBox(x, l) && InBox(y, l) && x != y && Dot(x, s) == Dot(y, s)
  }

  // ------------------------------------------------------- row-major rank

  /** Position of `x` in the row-major enumeration of the box. */
  function Rank(x: seq<nat>, l: seq<nat>): nat
    requires |x| == |l|
  {
    if x == [] then 0 else x[0] * Product(l[1..]) + Rank(x[1..], l[1..])
  }

  lemma {:induction false} RankBound(x: seq<nat>, l: seq<nat>)
    requires InBox(x, l)
    ensures Rank(x, l) < Product(l)
  {
    if x != [] {
      assert InBox(x[1..], l[1..]);
      RankBound(x[1..], l[1..]);
      MulStep(x[0], l[0], Product(l[1..]));
    }
  }

  lemma {:induction false} RankInjective(x: seq<nat>, y: seq<nat>, l: seq<nat>)
    requires InBox(x, l) && InBox(y, l) && Rank(x, l) == Rank(y, l)
    ensures x == y
  {
    if x != [] {
      RankBound(x[1..], l[1..]);
      RankBound(y[1..], l[1..]);
      DigitsUnique(x[0], Rank(x[1..], l[1..]), y[0], Rank(y[1..], l[1..]), Product(l[1..]));
      RankInjective(x[1..], y[1..], l[1..]);
      assert x == [x[0]] + x[1..] && y == [y[0]] + y[1..];
    }
  }

  lemma RankCons(q: nat, tail: seq<nat>, l: seq<nat>)
    requires l != [] && q < l[0] && InBox(tail, l[1..])
    ensures InBox([q] + tail, l)
    ensures Rank([q] + tail, l) == q * Product(l[1..]) + Rank(tail, l[1..])
  {
    assert ([q] + tail)[1..] == tail;
  }

  /** The multi-index of a given rank. */
  function Unrank(r: nat, l: seq<nat>): (x: seq<nat>)
    requires r < Product(l)
    ensures InBox(x, l) && Rank(x, l) == r
  {
    if l == [] then []
    else
      var p := Product(l[1..]);
      QuotRemParts(r, l[0], p);
      var tail := Unrank(Rem(r, p), l[1..]);
      RankCons(Quot(r, p), tail, l);
      [Quot(r, p)] + tail
  }

  lemma {:induction false} RankZeros(l: seq<nat>)
    ensures Rank(Zeros(|l|), l) == 0
  {
    if l != [] {
      assert Zeros(|l|)[1..] == Zeros(|l[1..]|);
      RankZeros(l[1..]);
    }
  }
}
