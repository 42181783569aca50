/**
 The layout checker of shared/array_validator.cpp.  Sizes are 64-bit: products,
 sums and differences wrap, and one offset is narrowed to a 32-bit int, exactly
 where the checker does so.
 */
module ArrayValidator {
  import opened Arith
  import opened Layouts
  import opened Odometer
  import opened Collisions

  /**
   Axes as the dispatcher hands them to the dimension-specific checks: longer
   than 1, with non-zero strides and with every offset an int.
   */
  ghost predicate Axes(l: seq<nat>, s: seq<nat>) {
    LongAxes(l, s) && MaxOffset(l, s) < TWO31
  }

  ghost predicate LongAxes(l: seq<nat>, s: seq<nat>) {
    |l| == |s| && forall k :: 0 <= k < |l| ==> l[k] >= 2 && s[k] >= 1
  }

  lemma {:induction false} MaxOffsetDrop(l: seq<nat>, s: seq<nat>, k: nat)
    requires |l| == |s| && k < |l|
    ensures MaxOffset(l, s)
         == MaxOffset(Drop(l, k), Drop(s, k)) + if l[k] == 0 then 0 else (l[k] - 1) * s[k]
  {
    if k == 0 {
      assert Drop(l, 0) == l[1..] && Drop(s, 0) == s[1..];
    } else {
      assert Drop(l, k)[1..] == Drop(l[1..], k - 1);
      assert Drop(s, k)[1..] == Drop(s[1..], k - 1);
      MaxOffsetDrop(l[1..], s[1..], k - 1);
    }
  }

  lemma AxesDrop(l: seq<nat>, s: seq<nat>, k: nat)
    requires Axes(l, s) && k < |l|
    ensures Axes(Drop(l, k), Drop(s, k)) && (l[k] - 1) * s[k] < TWO31
  {
    hide MaxOffset;
    MaxOffsetDrop(l, s, k);
    MulMono(0, l[k] - 1, s[k]);
  }

  /** The inner product of lengths and strides is at most twice the last offset. */
  lemma {:induction false} InnerBound(l: seq<nat>, s: seq<nat>)
    requires |l| == |s|
    requires forall k :: 0 <= k < |l| ==> l[k] == 0 || l[k] >= 2
    ensures Dot(l, s) <= 2 * MaxOffset(l, s)
  {
    if l != [] {
      InnerBound(l[1..], s[1..]);
      if l[0] >= 2 {
        assert l[0] * s[0] <= (2 * (l[0] - 1)) * s[0] by { MulMono(l[0], 2 * (l[0] - 1), s[0]); }
        assert (2 * (l[0] - 1)) * s[0] == 2 * ((l[0] - 1) * s[0]);
      }
    }
  }

  // ------------------------------------------------------------- two axes

  /** valid_length_stride_2d. */
  function ValidLengthStride2d(l0: nat, l1: nat, s0: nat, s1: nat): (ok: bool)
    requires s0 > 0 && s1 > 0
  {
    if s0 == s1 then false
    else
      var c := Lcm(s0, s1);
      !(Wrap(s0 * Wrap(l0 - 1)) >= c && Wrap(s1 * Wrap(l1 - 1)) >= c)
  }

  lemma ValidLengthStride2dExact(l0: nat, l1: nat, s0: nat, s1: nat)
    requires l0 >= 2 && l1 >= 2 && s0 > 0 && s1 > 0
    requires (l0 - 1) * s0 < TWO31 && (l1 - 1) * s1 < TWO31
    ensures ValidLengthStride2d(l0, l1, s0, s1) <==> !PairCollides(l0, l1, s0, s1)
  {
    PairCollidesIffLcm(l0, l1, s0, s1);
    MulPositive(l0 - 1, s0);
    MulPositive(l1 - 1, s1);
    assert Wrap(l0 - 1) == l0 - 1 && Wrap(l1 - 1) == l1 - 1;
    assert s0 * (l0 - 1) == (l0 - 1) * s0 && s1 * (l1 - 1) == (l1 - 1) * s1;
    if s0 == s1 {
      assert Meets(1, 1, l0, l1, s0, s1);
    }
  }

  // ------------------------------------------------- one axis, other axes

  /** The checker's cut-off, computed modulo 2^64. */
  function Cutoff(l1: seq<nat>, s1: seq<nat>): nat
    requires |l1| == |s1|
  {
    Wrap(Wrap(Product(l1)) - Wrap(Dot(l1, s1)))
  }

  /** A wrapped cut-off cuts nothing off. */
  lemma CutoffWraps(l1: seq<nat>, s1: seq<nat>)
    requires |l1| == |s1| && Product(l1) < Dot(l1, s1) < TWO32
    ensures Cutoff(l1, s1) >= TWO64 - TWO32
  {
  }

  /** Axis `idx` meets the other axes at a place the checker looks at. */
  ghost predicate AxisHit(idx: nat, l: seq<nat>, s: seq<nat>)
    requires |l| == |s| && idx < |l|
  {
    exists k: nat, x :: AxisMeets(k, x, idx, l, s) && k * s[idx] <= Cutoff(Drop(l, idx), Drop(s, idx))
  }

  /** The axis separated from the rest, as the checker's first loop does. */
  method SplitAxis(idx: nat, v: seq<nat>) returns (e: nat, rest: seq<nat>)
    requires idx < |v|
    ensures e == v[idx] && rest == Drop(v, idx)
  {
    e, rest := 0, [];
    for i := 0 to |v|
      invariant i > idx ==> e == v[idx]
      invariant rest == if i <= idx then v[..i] else v[..idx] + v[idx + 1..i]
    {
      if i == idx {
        e := v[i];
      } else {
        rest := rest + [v[i]];
      }
    }
  }

  /** Offsets k * s0 for 1 <= k < n, at or below the cut-off. */
  ghost function Steps(n: nat, s0: nat, cutoff: nat): set<nat> {
    if n <= 1 then {}
    else Steps(n - 1, s0, cutoff) + if (n - 1) * s0 <= cutoff then {(n - 1) * s0} else {}
  }

  lemma {:induction false} StepsHas(n: nat, s0: nat, cutoff: nat, k: nat)
    requires 1 <= k < n && k * s0 <= cutoff
    ensures k * s0 in Steps(n, s0, cutoff)
  {
    if k < n - 1 {
      StepsHas(n - 1, s0, cutoff, k);
    }
  }

  lemma {:induction false} StepsOnly(n: nat, s0: nat, cutoff: nat, v: nat) returns (k: nat)
    requires v in Steps(n, s0, cutoff)
    ensures 1 <= k < n && v == k * s0 && v <= cutoff
  {
    if v == (n - 1) * s0 && v <= cutoff {
      k := n - 1;
    } else {
      k := StepsOnly(n - 1, s0, cutoff, v);
    }
  }

  lemma {:induction false} StepsStop(i: nat, n: nat, s0: nat, cutoff: nat)
    requires 1 <= i <= n && i * s0 > cutoff
    ensures Steps(n, s0, cutoff) == Steps(i, s0, cutoff)
  {
    if i < n {
      MulMono(i, n - 1, s0);
      StepsStop(i, n - 1, s0, cutoff);
    }
  }

  /** The set of offsets along the axis, up to the cut-off. */
  method AxisOffsets(l0: nat, s0: nat, cutoff: nat) returns (a0: set<nat>)
    requires l0 >= 2 && (l0 - 1) * s0 < TWO31
    ensures a0 == Steps(l0, s0, cutoff)
  {
    a0 := {};
    var i := 1;
    while i < l0
      invariant 1 <= i <= l0 && a0 == Steps(i, s0, cutoff)
    {
      MulMono(i, l0 - 1, s0);
      var val := Wrap(i * s0);
      if val <= cutoff {
        a0 := a0 + {val};
      } else {
        StepsStop(i, l0, s0, cutoff);
        break;
      }
      i := i + 1;
    }
  }

  /** No index of the box up to rank `r` has its offset in `a0`. */
  ghost predicate ClearBelow(r: nat, l1: seq<nat>, s1: seq<nat>, a0: set<nat>)
    requires |l1| == |s1|
  {
    forall x :: InBox(x, l1) && Rank(x, l1) < r ==> Dot(x, s1) !in a0
  }

  lemma ClearStep(x: seq<nat>, l1: seq<nat>, s1: seq<nat>, a0: set<nat>)
    requires |l1| == |s1| && InBox(x, l1) && Dot(x, s1) !in a0
    requires ClearBelow(Rank(x, l1), l1, s1, a0)
    ensures ClearBelow(Rank(x, l1) + 1, l1, s1, a0)
  {
    forall y | InBox(y, l1) && Rank(y, l1) < Rank(x, l1) + 1 ensures Dot(y, s1) !in a0 {
      if Rank(y, l1) == Rank(x, l1) {
        RankInjective(y, x, l1);
      }
    }
  }

  /** Every positive step along the axis is a positive multiple of its stride. */
  lemma StepsAreMultiples(n: nat, s0: nat, cutoff: nat, v: nat)
    requires s0 > 0 && v in Steps(n, s0, cutoff)
    ensures v > 0 && v % s0 == 0
  {
    var k := StepsOnly(n, s0, cutoff, v);
    MulPositive(k, s0);
    DivModOf(k, 0, s0);
  }

  /** The scan over the other axes decides whether axis `idx` is hit. */
  lemma ScanDecides(idx: nat, l: seq<nat>, s: seq<nat>, a0: set<nat>)
    requires Axes(l, s) && idx < |l|
    requires a0 == Steps(l[idx], s[idx], Cutoff(Drop(l, idx), Drop(s, idx)))
    ensures AxisHit(idx, l, s) <==> !ClearBelow(Product(Drop(l, idx)), Drop(l, idx), Drop(s, idx), a0)
  {
    var l1, s1, c := Drop(l, idx), Drop(s, idx), Cutoff(Drop(l, idx), Drop(s, idx));
    if k: nat, x :| AxisMeets(k, x, idx, l, s) && k * s[idx] <= c {
      StepsHas(l[idx], s[idx], c, k);
      RankBound(x, l1);
    }
    if x :| InBox(x, l1) && Rank(x, l1) < Product(l1) && Dot(x, s1) in a0 {
      var k := StepsOnly(l[idx], s[idx], c, Dot(x, s1));
      assert AxisMeets(k, x, idx, l, s);
    }
  }

  /** valid_length_stride_1d_multi: rejects exactly on a hit of axis `idx`. */
  method ValidLengthStride1dMulti(idx: nat, l: seq<nat>, s: seq<nat>) returns (ok: bool)
    requires Axes(l, s) && idx < |l|
    ensures ok <==> !AxisHit(idx, l, s)
  {
    var l0, l1 := SplitAxis(idx, l);
    var s0, s1 := SplitAxis(idx, s);
    AxesDrop(l, s, idx);
    var maxOffset := Wrap(Wrap(Product(l1)) - Wrap(Dot(l1, s1)));
    var a0 := AxisOffsets(l0, s0, maxOffset);
    ScanDecides(idx, l, s, a0);

    var index := new nat[|l1|](_ => 0);
    assert index[..] == Zeros(|l1|) && Pin(l1) == l1;
    RankZeros(l1);
    var more := true;
    while more
      invariant InBox(index[..], l1)
      invariant ClearBelow(if more then Rank(index[..], l1) else Product(l1), l1, s1, a0)
      decreases more, Product(l1) - Rank(index[..], l1)
    {
      ghost var here := index[..];
      RankBound(here, l1);
      DotAtMostMaxOffset(here, l1, s1);
      var i := Narrow(Wrap(Dot(index[..], s1)));
      if i > 0 && i % s0 == 0 && i in a0 {
        return false;
      }
      assert Dot(here, s1) !in a0 by {
        if Dot(here, s1) in a0 {
          StepsAreMultiples(l0, s0, maxOffset, Dot(here, s1));
        }
      }
      ClearStep(here, l1, s1, a0);
      more := IncrementVector(index, l1);
    }
    return true;
  }

  // ----------------------------------------------------- face against face

  /** Two faces meet at an offset past the cut-off. */
  ghost predicate FaceHit(l0: seq<nat>, s0: seq<nat>, l1: seq<nat>, s1: seq<nat>)
    requires |l0| == |s0| && |l1| == |s1|
  {
    exists x, y :: InBox(x, Pin(l0)) && InBox(y, Pin(l1)) && Dot(x, s0) == Dot(y, s1)
                && Dot(x, s0) > Cutoff(l1, s1)
  }

  /** Offsets past the cut-off of the indices of rank below `r`. */
  ghost function OffsetsPast(r: nat, l: seq<nat>, s: seq<nat>, cutoff: nat): set<nat>
    requires |l| == |s| && r <= Product(l)
  {
    if r == 0 then {}
    else
      var v := Dot(Unrank(r - 1, l), s);
      OffsetsPast(r - 1, l, s, cutoff) + if v > cutoff then {v} else {}
  }

  lemma {:induction false} OffsetsPastHas(r: nat, l: seq<nat>, s: seq<nat>, cutoff: nat, x: seq<nat>)
    requires |l| == |s| && r <= Product(l) && InBox(x, l) && Rank(x, l) < r && Dot(x, s) > cutoff
    ensures Dot(x, s) in OffsetsPast(r, l, s, cutoff)
  {
    if Rank(x, l) == r - 1 {
      RankInjective(x, Unrank(r - 1, l), l);
    } else {
      OffsetsPastHas(r - 1, l, s, cutoff, x);
    }
  }

  lemma {:induction false} OffsetsPastOnly(r: nat, l: seq<nat>, s: seq<nat>, cutoff: nat, v: nat)
    returns (x: seq<nat>)
    requires |l| == |s| && r <= Product(l) && v in OffsetsPast(r, l, s, cutoff)
    ensures InBox(x, l) && Dot(x, s) == v > cutoff
  {
    x := Unrank(r - 1, l);
    if Dot(x, s) != v || v <= cutoff {
      x := OffsetsPastOnly(r - 1, l, s, cutoff, v);
    }
  }

  lemma {:induction false} PinKeepsMaxOffset(l: seq<nat>, s: seq<nat>)
    requires |l| == |s|
    ensures MaxOffset(Pin(l), s) == MaxOffset(l, s)
  {
    if l != [] {
      assert Pin(l)[1..] == Pin(l[1..]);
      PinKeepsMaxOffset(l[1..], s[1..]);
    }
  }

  lemma OffsetsPastStep(x: seq<nat>, l: seq<nat>, s: seq<nat>, cutoff: nat)
    requires |l| == |s| && InBox(x, l)
    ensures Rank(x, l) < Product(l)
    ensures OffsetsPast(Rank(x, l) + 1, l, s, cutoff)
         == OffsetsPast(Rank(x, l), l, s, cutoff) + if Dot(x, s) > cutoff then {Dot(x, s)} else {}
  {
    hide Dot, Product, Rank;
    RankBound(x, l);
    RankInjective(x, Unrank(Rank(x, l), l), l);
  }

  lemma FaceOffset(x: seq<nat>, l: seq<nat>, s: seq<nat>)
    requires |l| == |s| && InBox(x, l) && MaxOffset(l, s) < TWO64
    ensures Wrap(Dot(x, s)) == Dot(x, s)
  {
    DotAtMostMaxOffset(x, l, s);
  }

  /** The scan of a face has collected the offsets of all indices before `x`, or all of them. */
  ghost predicate Collected(a0: set<nat>, more: bool, x: seq<nat>, l: seq<nat>, s: seq<nat>, cutoff: nat)
    requires |l| == |s|
  {
    && InBox(x, l) && Rank(x, l) < Product(l)
    && a0 == OffsetsPast(if more then Rank(x, l) else Product(l), l, s, cutoff)
  }

  lemma CollectNone(l: seq<nat>, s: seq<nat>, cutoff: nat)
    requires |l| == |s| && AllPositive(l)
    ensures Collected({}, true, Zeros(|l|), l, s, cutoff)
  {
    RankZeros(l);
    RankBound(Zeros(|l|), l);
  }

  lemma CollectOne(a0: set<nat>, x: seq<nat>, more: bool, y: seq<nat>, l: seq<nat>, s: seq<nat>, cutoff: nat)
    requires |l| == |s| && Collected(a0, true, x, l, s, cutoff) && InBox(y, l)
    requires more <==> Rank(x, l) + 1 < Product(l)
    requires more ==> Rank(y, l) == Rank(x, l) + 1
    ensures Collected(a0 + if Dot(x, s) > cutoff then {Dot(x, s)} else {}, more, y, l, s, cutoff)
  {
    hide OffsetsPast, Dot, Product, Rank;
    OffsetsPastStep(x, l, s, cutoff);
    RankBound(y, l);
  }

  /** First scan: the offsets of one face past the cut-off. */
  method FaceOffsets(l0: seq<nat>, s0: seq<nat>, cutoff: nat) returns (a0: set<nat>)
    requires |l0| == |s0| && MaxOffset(l0, s0) < TWO64
    ensures a0 == OffsetsPast(Product(Pin(l0)), Pin(l0), s0, cutoff)
  {
    ghost var l := Pin(l0);
    PinKeepsMaxOffset(l0, s0);
    CollectNone(l, s0, cutoff);
    hide OffsetsPast, Product, Rank, Wrap, Dot, MaxOffset;
    a0 := {};
    var index0 := new nat[|l0|](_ => 0);
    assert index0[..] == Zeros(|l0|);
    var more := true;
    while more
      invariant Collected(a0, more, index0[..], l, s0, cutoff)
      decreases more, Product(l) - Rank(index0[..], l)
    {
      ghost var here, before := index0[..], a0;
      FaceOffset(here, l, s0);
      var i := Wrap(Dot(index0[..], s0));
      if i > cutoff {
        a0 := a0 + {i};
      }
      more := IncrementVector(index0, l0);
      CollectOne(before, here, more, index0[..], l, s0, cutoff);
    }
  }

  /** Second scan: does the other face have an offset in `a0`? */
  method FaceScan(l1: seq<nat>, s1: seq<nat>, a0: set<nat>) returns (ok: bool)
    requires |l1| == |s1| && MaxOffset(l1, s1) < TWO64 && 0 !in a0
    ensures ok <==> ClearBelow(Product(Pin(l1)), Pin(l1), s1, a0)
  {
    ghost var l := Pin(l1);
    PinKeepsMaxOffset(l1, s1);
    var index1 := new nat[|l1|](_ => 0);
    assert index1[..] == Zeros(|l1|);
    RankZeros(l);
    var more := true;
    while more
      invariant InBox(index1[..], l)
      invariant ClearBelow(if more then Rank(index1[..], l) else Product(l), l, s1, a0)
      decreases more, Product(l) - Rank(index1[..], l)
    {
      ghost var here := index1[..];
      RankBound(here, l);
      DotAtMostMaxOffset(here, l, s1);
      var i := Wrap(Dot(index1[..], s1));
      if i > 0 && i in a0 {
        return false;
      }
      ClearStep(here, l, s1, a0);
      more := IncrementVector(index1, l1);
    }
    return true;
  }

  lemma FaceScanDecides(l0: seq<nat>, s0: seq<nat>, l1: seq<nat>, s1: seq<nat>, a0: set<nat>)
    requires |l0| == |s0| && |l1| == |s1|
    requires a0 == OffsetsPast(Product(Pin(l0)), Pin(l0), s0, Cutoff(l1, s1))
    ensures FaceHit(l0, s0, l1, s1) <==> !ClearBelow(Product(Pin(l1)), Pin(l1), s1, a0)
    ensures 0 !in a0
  {
    var n := Product(Pin(l0));
    var c := Cutoff(l1, s1);
    if x, y :| InBox(x, Pin(l0)) && InBox(y, Pin(l1)) && Dot(x, s0) == Dot(y, s1) && Dot(x, s0) > c {
      RankBound(x, Pin(l0));
      RankBound(y, Pin(l1));
      OffsetsPastHas(n, Pin(l0), s0, c, x);
    }
    if y :| InBox(y, Pin(l1)) && Rank(y, Pin(l1)) < Product(Pin(l1)) && Dot(y, s1) in a0 {
      var x := OffsetsPastOnly(n, Pin(l0), s0, c, Dot(y, s1));
    }
    if 0 in a0 {
      var x := OffsetsPastOnly(n, Pin(l0), s0, c, 0);
    }
  }

  /** valid_length_stride_multi_multi: rejects exactly when two faces hit. */
  method ValidLengthStrideMultiMulti(l0: seq<nat>, s0: seq<nat>, l1: seq<nat>, s1: seq<nat>)
    returns (ok: bool)
    requires |l0| == |s0| && |l1| == |s1|
    requires MaxOffset(l0, s0) < TWO64 && MaxOffset(l1, s1) < TWO64
    ensures ok <==> !FaceHit(l0, s0, l1, s1)
  {
    var maxOffset := Wrap(Wrap(Product(l1)) - Wrap(Dot(l1, s1)));
    var a0 := FaceOffsets(l0, s0, maxOffset);
    FaceScanDecides(l0, s0, l1, s1, a0);
    ok := FaceScan(l1, s1, a0);
  }

  /** A zero in the second face wraps the cut-off, so the faces never hit. */
  lemma FacesNeverHit(l0: seq<nat>, s0: seq<nat>, l1: seq<nat>, s1: seq<nat>)
    requires |l0| == |s0| && |l1| == |s1|
    requires Product(l1) == 0 && 0 < Dot(l1, s1) < TWO32
    requires MaxOffset(l0, s0) < TWO31
    ensures !FaceHit(l0, s0, l1, s1)
  {
    CutoffWraps(l1, s1);
    PinKeepsMaxOffset(l0, s0);
    if x, y :| InBox(x, Pin(l0)) && InBox(y, Pin(l1)) && Dot(x, s0) == Dot(y, s1)
             && Dot(x, s0) > Cutoff(l1, s1) {
      DotAtMostMaxOffset(x, Pin(l0), s0);
      assert false;
    }
  }

  /**
   The two faces a 0/1 mask selects.  The vectors are declared with a size and
   then pushed to, so each face starts with that many zeros.
   */
  method SplitByMask(v: seq<nat>, n0: nat, n1: nat, l: seq<nat>, s: seq<nat>)
    returns (l0: seq<nat>, s0: seq<nat>, l1: seq<nat>, s1: seq<nat>)
    requires Axes(l, s) && |v| == |l| && n1 > 0
    requires 1 in v
    ensures |l0| == |s0| && |l1| == |s1|
    ensures MaxOffset(l0, s0) < TWO31 && MaxOffset(l1, s1) < TWO31
    ensures !FaceHit(l0, s0, l1, s1)
  {
    l0, s0 := Zeros(n0), Zeros(n0);
    l1, s1 := Zeros(n1), Zeros(n1);
    MaxOffsetOfZeros(n0);
    MaxOffsetOfZeros(n1);
    for i := 0 to |l|
      invariant |l0| == |s0| && |l1| == |s1| >= n1 && l1[0] == 0
      invariant MaxOffset(l0, s0) + MaxOffset(l1, s1) == MaxOffset(l[..i], s[..i])
      invariant forall k :: 0 <= k < |l1| ==> l1[k] == 0 || (l1[k] >= 2 && s1[k] >= 1)
      invariant (exists k :: 0 <= k < i && v[k] != 0) ==> exists k :: 0 <= k < |l1| && l1[k] >= 2
    {
      MaxOffsetSnoc(l[..i], s[..i], l[i], s[i]);
      assert l[..i + 1] == l[..i] + [l[i]] && s[..i + 1] == s[..i] + [s[i]];
      if v[i] == 0 {
        MaxOffsetSnoc(l0, s0, l[i], s[i]);
        l0, s0 := l0 + [l[i]], s0 + [s[i]];
      } else {
        MaxOffsetSnoc(l1, s1, l[i], s[i]);
        l1, s1 := l1 + [l[i]], s1 + [s[i]];
        assert l1[|l1| - 1] >= 2;
      }
    }
    assert l[..|l|] == l && s[..|l|] == s;
    InnerBound(l1, s1);
    ghost var k :| 0 <= k < |l1| && l1[k] >= 2;
    DotPositive(l1, s1, k);
    assert Product(l1) == 0;
    FacesNeverHit(l0, s0, l1, s1);
  }

  lemma {:induction false} MaxOffsetOfZeros(n: nat)
    ensures MaxOffset(Zeros(n), Zeros(n)) == 0
  {
    if n > 0 {
      assert Zeros(n)[1..] == Zeros(n - 1);
      MaxOffsetOfZeros(n - 1);
    }
  }

  lemma MaxOffsetSnoc(l: seq<nat>, s: seq<nat>, a: nat, b: nat)
    requires |l| == |s|
    ensures MaxOffset(l + [a], s + [b]) == MaxOffset(l, s) + if a == 0 then 0 else (a - 1) * b
  {
    assert Drop(l + [a], |l|) == l && Drop(s + [b], |s|) == s;
    MaxOffsetDrop(l + [a], s + [b], |l|);
  }

  /** The distinct arrangements of `zeros` zeros and `ones` ones, in the order next_permutation visits them. */
  function Arrangements(zeros: nat, ones: nat): (r: seq<seq<nat>>)
    ensures forall p :: p in r ==> |p| == zeros + ones && (ones > 0 ==> 1 in p)
  {
    if ones == 0 then [Zeros(zeros)]
    else
      Prefixed(0, if zeros == 0 then [] else Arrangements(zeros - 1, ones)) + Prefixed(1, Arrangements(zeros, ones - 1))
  }

  function Prefixed(d: nat, ps: seq<seq<nat>>): (r: seq<seq<nat>>)
    ensures forall p :: p in r ==> |p| > 0 && p[0] == d && p[1..] in ps && p == [d] + p[1..]
  {
    if ps == [] then [] else
      assert ([d] + ps[0])[1..] == ps[0];
      [[d] + ps[0]] + Prefixed(d, ps[1..])
  }

  // -------------------------------------------------- what the checker sees

  /** Some two axes collide. */
  ghost predicate SomePair(l: seq<nat>, s: seq<nat>)
    requires |l| == |s|
  {
    exists a, b :: 0 <= a < b < |l| && PairCollides(l[a], l[b], s[a], s[b])
  }

  /** Some axis hits the other axes. */
  ghost predicate SomeAxis(l: seq<nat>, s: seq<nat>)
    requires |l| == |s|
  {
    exists idx :: 0 <= idx < |l| && AxisHit(idx, l, s)
  }

  /** The collisions the checker rejects on, by number of long axes. */
  ghost predicate Visible(l: seq<nat>, s: seq<nat>)
    requires |l| == |s|
    decreases |l|
  {
    if |l| <= 1 then false
    else if |l| == 2 then SomePair(l, s)
    else if |l| <= 4 then SomePair(l, s) || SomeAxis(l, s)
    else (exists idx :: 0 <= idx < |l| && Visible(Drop(l, idx), Drop(s, idx))) || SomeAxis(l, s)
  }

  /** Two-axis faces from `a` on are free of collisions. */
  ghost predicate PairsClear(l: seq<nat>, s: seq<nat>, a: nat, b: nat)
    requires |l| == |s|
  {
    forall i, j :: 0 <= i < j < |l| && (i < a || (i == a && j < b)) ==> !PairCollides(l[i], l[j], s[i], s[j])
  }

  method ValidPairs(l: seq<nat>, s: seq<nat>) returns (ok: bool)
    requires Axes(l, s) && |l| > 0
    ensures ok <==> !SomePair(l, s)
  {
    for idx0 := 0 to |l| - 1
      invariant PairsClear(l, s, idx0, 0)
    {
      for idx1 := idx0 + 1 to |l|
        invariant PairsClear(l, s, idx0, idx1)
      {
        AxesDrop(l, s, idx0);
        AxesDrop(l, s, idx1);
        ValidLengthStride2dExact(l[idx0], l[idx1], s[idx0], s[idx1]);
        if !ValidLengthStride2d(l[idx0], l[idx1], s[idx0], s[idx1]) {
          return false;
        }
      }
    }
    return true;
  }

  method ValidAxes(l: seq<nat>, s: seq<nat>) returns (ok: bool)
    requires Axes(l, s)
    ensures ok <==> !SomeAxis(l, s)
  {
    var invalid := false;
    for idx := 0 to |l|
      invariant invalid <==> exists i :: 0 <= i < idx && AxisHit(i, l, s)
    {
      var here := ValidLengthStride1dMulti(idx, l, s);
      if !here {
        invalid := true;
      }
    }
    return !invalid;
  }

  /** valid_length_stride_3d. */
  method ValidLengthStride3d(l: seq<nat>, s: seq<nat>) returns (ok: bool)
    requires Axes(l, s) && |l| == 3
    ensures ok <==> !Visible(l, s)
  {
    var pairs := ValidPairs(l, s);
    if !pairs {
      return false;
    }
    ok := ValidAxes(l, s);
  }

  /** valid_length_stride_4d. */
  method ValidLengthStride4d(l: seq<nat>, s: seq<nat>) returns (ok: bool)
    requires Axes(l, s) && |l| == 4
    ensures ok <==> !Visible(l, s)
  {
    var pairs := ValidPairs(l, s);
    if !pairs {
      return false;
    }
    var axes := ValidAxes(l, s);
    if !axes {
      return false;
    }
    var perms := Arrangements(2, 2);
    var invalid := false;
    for iperm := 0 to |perms|
      invariant !invalid
    {
      var l0, s0, l1, s1 := SplitByMask(perms[iperm], 2, 2, l, s);
      var here := ValidLengthStrideMultiMulti(l0, s0, l1, s1);
      if !here {
        invalid := true;
      }
    }
    return !invalid;
  }

  /**
   The last loops of valid_length_stride_generald: for each split of the axes into
   two faces, one comparison per arrangement.  The mask read is always the sorted
   one, and no comparison ever finds a hit.
   */
  method ValidFaces(l: seq<nat>, s: seq<nat>) returns (ok: bool)
    requires Axes(l, s) && |l| >= 5
    ensures ok
  {
    var dim0 := 2;
    while dim0 <= |l| / 2
      invariant dim0 >= 2
    {
      var dim1 := |l| - dim0;
      var v := Zeros(dim1) + seq(dim0, _ => 1);
      assert v[|l| - 1] == 1;
      var perms := Arrangements(dim1, dim0);
      var invalid := false;
      for iperm := 0 to |perms|
        invariant !invalid
      {
        var l0, s0, l1, s1 := SplitByMask(v, dim0, dim1, l, s);
        var here := ValidLengthStrideMultiMulti(l0, s0, l1, s1);
        if !here {
          invalid := true;
        }
      }
      if invalid {
        return false;
      }
      dim0 := dim0 + 1;
    }
    return true;
  }

  /** The first loop of valid_length_stride_generald: the whole checker on each face one axis smaller. */
  method ValidSubLayouts(l: seq<nat>, s: seq<nat>) returns (ok: bool)
    requires Axes(l, s) && |l| >= 5
    ensures ok <==> forall i :: 0 <= i < |l| ==> !Visible(Drop(l, i), Drop(s, i))
    decreases |l|, 0
  {
    hide Visible, Drop;
    for idx := 0 to |l|
      invariant forall i :: 0 <= i < idx ==> !Visible(Drop(l, i), Drop(s, i))
    {
      var _, l0 := SplitAxis(idx, l);
      var _, s0 := SplitAxis(idx, s);
      AxesDrop(l, s, idx);
      AxesAreKept(l0, s0);
      var face := ArrayValid(l0, s0);
      if !face {
        return false;
      }
    }
    return true;
  }

  /** valid_length_stride_generald. */
  method ValidLengthStrideGeneral(l: seq<nat>, s: seq<nat>) returns (ok: bool)
    requires Axes(l, s) && |l| >= 5
    ensures ok <==> !Visible(l, s)
    decreases |l|, 1
  {
    var faces := ValidSubLayouts(l, s);
    if !faces {
      return false;
    }
    var axes := ValidAxes(l, s);
    if !axes {
      return false;
    }
    ok := ValidFaces(l, s);
  }

  // ------------------------------------------------------------ dispatcher

  /** The extent of every axis is a size_t. */
  ghost predicate NoWrap(length: seq<nat>, stride: seq<nat>)
    requires |length| == |stride|
  {
    forall k :: 0 <= k < |length| ==> Times(length[k], stride[k]) < TWO64
  }

  /** Arguments whose offsets are ints. */
  ghost predicate Fits(length: seq<nat>, stride: seq<nat>) {
    |length| == |stride| ==> MaxOffset(length, stride) < TWO31 && NoWrap(length, stride)
  }

  /** Of any two axes, one leaves room for all of the other. */
  ghost predicate Roomy(l: seq<nat>, s: seq<nat>)
    requires |l| == |s|
  {
    forall i, j :: 0 <= i < j < |l| ==> Times(l[i], s[i]) <= s[j] || Times(l[j], s[j]) <= s[i]
  }

  /**
   Arguments the 64-bit checker decides without wrapping or narrowing: int offsets,
   or any offsets on which it stops early (at most one long axis, or the fast path).
   */
  ghost predicate InDomain(length: seq<nat>, stride: seq<nat>) {
    |length| == |stride| ==>
      && NoWrap(length, stride)
      && (|| MaxOffset(length, stride) < TWO31
          || |Keep(length, length)| <= 1
          || (LongAxes(length, stride) && Roomy(length, stride)))
  }

  /** The checker's verdict, in terms of collisions only. */
  ghost predicate Accepts(length: seq<nat>, stride: seq<nat>) {
    && |length| == |stride|
    && (forall k :: 0 <= k < |length| && length[k] > 1 ==> stride[k] > 0)
    && |Keep(length, length)| == |Keep(length, stride)|
    && !Visible(Keep(length, length), Keep(length, stride))
  }

  lemma {:induction false} KeepOfLong(l: seq<nat>, v: seq<nat>)
    requires |l| == |v| && forall k :: 0 <= k < |l| ==> l[k] > 1
    ensures Keep(l, v) == v
  {
    if l != [] {
      KeepOfLong(l[1..], v[1..]);
      assert [v[0]] + v[1..] == v;
    }
  }

  lemma KeepOfLongLength(l: seq<nat>)
    ensures (forall k :: 0 <= k < |l| ==> l[k] > 1) ==> |Keep(l, l)| == |l|
  {
    if forall k :: 0 <= k < |l| ==> l[k] > 1 {
      KeepOfLong(l, l);
    }
  }

  lemma AxesAreKept(l: seq<nat>, s: seq<nat>)
    requires Axes(l, s)
    ensures Fits(l, s) && InDomain(l, s) && (Accepts(l, s) <==> !Visible(l, s))
  {
    KeepOfLong(l, l);
    KeepOfLong(l, s);
    forall k | 0 <= k < |l| ensures Times(l[k], s[k]) < TWO64 {
      AxesDrop(l, s, k);
      DoubleBound(l[k], s[k]);
      TimesIsProduct(l[k], s[k]);
    }
  }

  lemma {:induction false} KeepEntries(l: seq<nat>, s: seq<nat>, k: nat)
    requires |l| == |s| && k < |Keep(l, l)|
    requires forall i :: 0 <= i < |l| && l[i] > 1 ==> s[i] > 0
    ensures |Keep(l, s)| == |Keep(l, l)| && Keep(l, l)[k] >= 2 && Keep(l, s)[k] >= 1
  {
    KeepSizes(l, s);
    KeepSizes(l[1..], s[1..]);
    if l[0] > 1 {
      if k > 0 {
        KeepEntries(l[1..], s[1..], k - 1);
      }
    } else {
      KeepEntries(l[1..], s[1..], k);
    }
  }

  lemma {:induction false} KeepMaxOffset(l: seq<nat>, s: seq<nat>)
    requires |l| == |s|
    ensures |Keep(l, l)| == |Keep(l, s)| && MaxOffset(Keep(l, l), Keep(l, s)) == MaxOffset(l, s)
  {
    KeepSizes(l, s);
    if l != [] {
      var l', s' := Keep(l[1..], l[1..]), Keep(l[1..], s[1..]);
      KeepMaxOffset(l[1..], s[1..]);
      if l[0] > 1 {
        assert ([l[0]] + l')[1..] == l' && ([s[0]] + s')[1..] == s';
      } else {
        assert Keep(l, l) == l' && Keep(l, s) == s';
      }
    }
  }

  lemma KeepIsAxes(l: seq<nat>, s: seq<nat>)
    requires |l| == |s|
    requires forall k :: 0 <= k < |l| && l[k] > 1 ==> s[k] > 0
    ensures |Keep(l, l)| == |Keep(l, s)| && LongAxes(Keep(l, l), Keep(l, s))
    ensures MaxOffset(l, s) < TWO31 ==> Axes(Keep(l, l), Keep(l, s))
  {
    KeepMaxOffset(l, s);
    forall k | 0 <= k < |Keep(l, l)| ensures Keep(l, l)[k] >= 2 && Keep(l, s)[k] >= 1 {
      KeepEntries(l, s, k);
    }
  }

  lemma {:induction false} KeepSnoc(l: seq<nat>, v: seq<nat>, i: nat)
    requires |l| == |v| && i < |l|
    ensures Keep(l[..i + 1], v[..i + 1]) == Keep(l[..i], v[..i]) + if l[i] > 1 then [v[i]] else []
  {
    if i == 0 {
      assert l[..1][1..] == [] && v[..1][1..] == [];
    } else {
      assert l[..i + 1][1..] == l[1..][..i] && v[..i + 1][1..] == v[1..][..i];
      assert l[..i][1..] == l[1..][..i - 1] && v[..i][1..] == v[1..][..i - 1];
      KeepSnoc(l[1..], v[1..], i - 1);
    }
  }

  /** `a` put before the first axis whose stride is not smaller. */
  function InsertByStride(a: Axis, r: seq<Axis>): seq<Axis> {
    if r == [] || a.1 <= r[0].1 then [a] + r else [r[0]] + InsertByStride(a, r[1..])
  }

  lemma {:induction false} InsertKeepsAxes(a: Axis, r: seq<Axis>)
    ensures multiset(InsertByStride(a, r)) == multiset(r) + multiset{a}
  {
    if r != [] && a.1 > r[0].1 {
      InsertKeepsAxes(a, r[1..]);
      assert r == [r[0]] + r[1..];
    }
  }

  lemma {:induction false} InsertKeepsOrder(a: Axis, r: seq<Axis>)
    requires SortedByStride(r)
    ensures SortedByStride(InsertByStride(a, r))
  {
    if r != [] && a.1 > r[0].1 {
      InsertKeepsOrder(a, r[1..]);
      InsertKeepsAxes(a, r[1..]);
      var t := InsertByStride(a, r[1..]);
      forall j | 0 <= j < |t| ensures r[0].1 <= t[j].1 {
        assert t[j] in multiset(t);
        assert t[j] == a || t[j] in r[1..];
      }
    }
  }

  /** std::sort with sort_by_stride: any order of equal strides is allowed. */
  method SortByStride(ls: seq<Axis>) returns (r: seq<Axis>)
    ensures SortedByStride(r) && multiset(r) == multiset(ls)
  {
    r := [];
    for i := 0 to |ls|
      invariant SortedByStride(r) && multiset(r) == multiset(ls[..i])
    {
      InsertKeepsAxes(ls[i], r);
      InsertKeepsOrder(ls[i], r);
      r := InsertByStride(ls[i], r);
      assert ls[..i + 1] == ls[..i] + [ls[i]];
    }
    assert ls[..|ls|] == ls;
  }

  /** A visible collision is a collision. */
  lemma {:induction false} VisibleCollides(l: seq<nat>, s: seq<nat>)
    requires LongAxes(l, s) && Visible(l, s)
    ensures Collides(l, s)
    decreases |l|
  {
    if |l| <= 4 && SomePair(l, s) {
      var a, b :| 0 <= a < b < |l| && PairCollides(l[a], l[b], s[a], s[b]);
      var i, j :| Meets(i, j, l[a], l[b], s[a], s[b]);
      var x := PairIsAxis(l, s, a, b, i, j);
      AxisMeetsIsClash(i, x, a, l, s);
    } else if SomeAxis(l, s) {
      var idx :| 0 <= idx < |l| && AxisHit(idx, l, s);
      var k: nat, x :| AxisMeets(k, x, idx, l, s) && k * s[idx] <= Cutoff(Drop(l, idx), Drop(s, idx));
      AxisMeetsIsClash(k, x, idx, l, s);
    } else {
      var idx :| 0 <= idx < |l| && Visible(Drop(l, idx), Drop(s, idx));
      VisibleCollides(Drop(l, idx), Drop(s, idx));
      FaceCollision(l, s, idx);
    }
  }

  /** Nested strides leave no collision, whatever the order of equal strides. */
  lemma NestedIsCollisionFree(ls: seq<Axis>, rs: seq<Axis>)
    requires multiset(ls) == multiset(rs) && SortedByStride(rs) && Nested(rs)
    requires forall k :: 0 <= k < |ls| && ls[k].0 > 1 ==> ls[k].1 > 0
    ensures !Collides(Pin(Firsts(ls)), Seconds(ls))
  {
    if Collides(Pin(Firsts(ls)), Seconds(ls)) {
      ReorderKeepsCollisions(ls, rs);
      forall k | 0 <= k < |rs| && rs[k].0 > 1 ensures rs[k].1 > 0 {
        assert rs[k] in multiset(rs);
      }
      var x, y :| Clash(x, y, Pin(Firsts(rs)), Seconds(rs));
      NestedHasNoClash(rs, x, y);
    }
  }

  /** Two entries of a reordered list are two entries of the list. */
  lemma TwoEntries<T>(v: seq<T>, w: seq<T>, a: nat, b: nat) returns (i: nat, j: nat)
    requires multiset(v) == multiset(w) && a < b < |w|
    ensures i < |v| && j < |v| && i != j && v[i] == w[a] && v[j] == w[b]
  {
    assert w[a] in multiset(v);
    i :| 0 <= i < |v| && v[i] == w[a];
    DropMultiset(v, i);
    DropMultiset(w, a);
    assert Drop(w, a)[b - 1] == w[b];
    assert w[b] in multiset(Drop(v, i));
    var k :| 0 <= k < |v| - 1 && Drop(v, i)[k] == w[b];
    j := if k < i then k else k + 1;
  }

  /** Long axes that leave room for one another are nested however they are sorted. */
  lemma RoomyIsNested(l: seq<nat>, s: seq<nat>, rs: seq<Axis>)
    requires LongAxes(l, s) && Roomy(l, s) && multiset(Zip(l, s)) == multiset(rs) && SortedByStride(rs)
    ensures Nested(rs)
  {
    forall k | 0 < k < |rs| ensures rs[k].1 >= rs[k - 1].0 * rs[k - 1].1 {
      RoomyAt(l, s, rs, k);
    }
  }

  lemma RoomyAt(l: seq<nat>, s: seq<nat>, rs: seq<Axis>, k: nat)
    requires LongAxes(l, s) && Roomy(l, s) && multiset(Zip(l, s)) == multiset(rs)
    requires SortedByStride(rs) && 0 < k < |rs|
    ensures rs[k].1 >= rs[k - 1].0 * rs[k - 1].1
  {
    var i, j := TwoEntries(Zip(l, s), rs, k - 1, k);
    TimesIsProduct(l[i], s[i]);
    TimesIsProduct(l[j], s[j]);
    assert s[i] <= s[j];
    MulStep(1, l[j], s[j]);
  }

  /** The test of the fast path on sorted axes whose products do not overflow. */
  method AreNested(sorted: seq<Axis>) returns (ok: bool)
    requires |sorted| > 1 && forall k :: 0 <= k < |sorted| ==> Times(sorted[k].0, sorted[k].1) < TWO64
    ensures ok <==> Nested(sorted)
  {
    for idx := 1 to |sorted|
      invariant forall k :: 0 < k < idx ==> sorted[k].1 >= sorted[k - 1].0 * sorted[k - 1].1
    {
      TimesIsProduct(sorted[idx - 1].0, sorted[idx - 1].1);
      if sorted[idx].1 < Wrap(sorted[idx - 1].0 * sorted[idx - 1].1) {
        return false;
      }
    }
    return true;
  }

  /** The fast path of array_valid: strides that leave room once sorted. */
  method HappyPath(length: seq<nat>, stride: seq<nat>) returns (happy: bool)
    requires |length| == |stride| > 1 && NoWrap(length, stride)
    requires forall k :: 0 <= k < |length| && length[k] > 1 ==> stride[k] > 0
    ensures happy ==> !Collides(Pin(length), stride)
    ensures LongAxes(length, stride) && Roomy(length, stride) ==> happy
  {
    var ls := [];
    for idx := 0 to |length|
      invariant |ls| == idx && forall k :: 0 <= k < idx ==> ls[k] == (length[k], stride[k])
    {
      ls := ls + [(length[idx], stride[idx])];
    }
    assert ls == Zip(length, stride);
    var sorted := SortByStride(ls);
    assert |sorted| == |multiset(sorted)| == |ls|;
    hide Collides, NoWrap, LongAxes, Roomy, SortedByStride, Nested, Pin, Times, Zip;
    forall k | 0 <= k < |sorted| ensures Times(sorted[k].0, sorted[k].1) < TWO64 {
      NoOverflow(length, stride, sorted, k);
    }
    happy := AreNested(sorted);
    if happy {
      NestedIsCollisionFree(ls, sorted);
    } else if LongAxes(length, stride) && Roomy(length, stride) {
      RoomyIsNested(length, stride, sorted);
    }
  }

  /** The product compared on the fast path does not overflow. */
  lemma NoOverflow(length: seq<nat>, stride: seq<nat>, rs: seq<Axis>, k: nat)
    requires |length| == |stride| && NoWrap(length, stride)
    requires multiset(rs) == multiset(Zip(length, stride)) && k < |rs|
    ensures Times(rs[k].0, rs[k].1) < TWO64
  {
    assert rs[k] in multiset(Zip(length, stride));
    var i :| 0 <= i < |length| && Zip(length, stride)[i] == rs[k];
  }

  lemma DoubleBound(a: nat, b: nat)
    requires a >= 2
    ensures a * b <= 2 * ((a - 1) * b)
  {
    MulMono(a, 2 * (a - 1), b);
  }

  function Zip(length: seq<nat>, stride: seq<nat>): (ls: seq<Axis>)
    requires |length| == |stride|
    ensures |ls| == |length| && Firsts(ls) == length && Seconds(ls) == stride
  {
    seq(|length|, k requires 0 <= k < |length| => (length[k], stride[k]))
  }

  /** The axes longer than 1; not found when one of them has stride zero. */
  method LongAxesOf(length: seq<nat>, stride: seq<nat>) returns (found: bool, l: seq<nat>, s: seq<nat>)
    requires |length| == |stride|
    ensures found <==> forall k :: 0 <= k < |length| && length[k] > 1 ==> stride[k] > 0
    ensures found ==> l == Keep(length, length) && s == Keep(length, stride)
  {
    l, s := [], [];
    for i := 0 to |length|
      invariant forall k :: 0 <= k < i && length[k] > 1 ==> stride[k] > 0
      invariant l == Keep(length[..i], length[..i]) && s == Keep(length[..i], stride[..i])
    {
      KeepSnoc(length, length, i);
      KeepSnoc(length, stride, i);
      if length[i] > 1 {
        if stride[i] == 0 {
          return false, [], [];
        }
        l, s := l + [length[i]], s + [stride[i]];
      }
    }
    assert length[..|length|] == length && stride[..|length|] == stride;
    found := true;
  }

  /** The switch of array_valid on the number of long axes. */
  method ByDimension(l: seq<nat>, s: seq<nat>) returns (ok: bool)
    requires LongAxes(l, s) && (|l| > 1 ==> Axes(l, s))
    ensures ok <==> !Visible(l, s)
    decreases |l|, 2
  {
    if |l| == 0 {
      return true;
    } else if |l| == 1 {
      return s[0] != 0;
    } else if |l| == 2 {
      AxesDrop(l, s, 0);
      AxesDrop(l, s, 1);
      ValidLengthStride2dExact(l[0], l[1], s[0], s[1]);
      return ValidLengthStride2d(l[0], l[1], s[0], s[1]);
    } else if |l| == 3 {
      ok := ValidLengthStride3d(l, s);
    } else if |l| == 4 {
      ok := ValidLengthStride4d(l, s);
    } else {
      ok := ValidLengthStrideGeneral(l, s);
    }
  }

  /** array_valid. */
  method ArrayValid(length: seq<nat>, stride: seq<nat>) returns (ok: bool)
    requires InDomain(length, stride)
    ensures ok <==> Accepts(length, stride)
    decreases |length|, 3
  {
    if |length| != |stride| {
      return false;
    }
    var found, l, s := LongAxesOf(length, stride);
    if !found {
      return false;
    }
    KeepIsAxes(length, stride);
    ShortAxesIrrelevant(length, stride);
    if |length| > 1 {
      var happy := HappyPath(length, stride);
      if happy {
        if Visible(l, s) {
          VisibleCollides(l, s);
        }
        return true;
      }
    }
    KeepOfLongLength(length);
    KeepSizes(length, length);
    ok := ByDimension(l, s);
  }
}
