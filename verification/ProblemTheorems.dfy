/**
 What validate and inverse_from_forward promise: default layouts are contiguous and
 accepted, defaults are stable, in-place real rows overlay complex rows, and an
 inverse problem is valid exactly when its forward problem is.
 */
module ProblemTheorems {
  import opened Arith
  import opened Layouts
  import opened Collisions
  import opened ArrayValidator
  import opened ValidatorTheorems
  import opened Partitions
  import opened Ptrdiff
  import opened Problems

  // ------------------------------------------------------- default layouts

  /** The lengths with the padding of in-place real data. */
  function PaddedLength(length: seq<nat>, pad: bool): (r: seq<nat>)
    ensures |r| == |length|
  {
    seq(|length|, k requires 0 <= k < |length| => Extent(length, k, pad))
  }

  /** Extending the strides of a suffix of the row-major strides gives all of them. */
  lemma {:induction false} ExtendIsRowStrides(length: seq<nat>, k: nat, pad: bool)
    requires k < |length|
    ensures Extend(length, RowStrides(PaddedLength(length, pad))[k..], pad) == RowStrides(PaddedLength(length, pad))
    decreases k
  {
    var q := PaddedLength(length, pad);
    var r := RowStrides(q);
    if k > 0 {
      RowStridesSuffix(q, k);
      RowStridesSuffix(q, k - 1);
      assert q[k..][0] == q[k] && q[k..][1..] == q[k + 1..];
      TimesIsProduct(r[k], q[k]);
      assert r[k - 1] == Times(r[k], Extent(length, k, pad)) by {
        assert r[k - 1] == q[k] * Product(q[k + 1..]);
        MulCommutes(q[k], r[k]);
      }
      assert r[k - 1..] == [r[k - 1]] + r[k..];
      ExtendIsRowStrides(length, k - 1, pad);
    } else {
      assert r[0..] == r;
    }
  }

  lemma MulCommutes(a: nat, b: nat)
    ensures a * b == b * a
  {
  }

  /** The strides filled in when none are given are the contiguous ones of the padded box. */
  lemma DefaultStridesAreContiguous(length: seq<nat>, pad: bool)
    requires length != []
    ensures Strides(length, [], pad) == RowStrides(PaddedLength(length, pad))
  {
    var q := PaddedLength(length, pad);
    var last := |length| - 1;
    RowStridesSuffix(q, last);
    assert q[last + 1..] == [];
    assert RowStrides(q)[last..] == [1];
    ExtendIsRowStrides(length, last, pad);
  }

  /** Row-major strides of positive lengths leave room: a slower axis spans a faster one. */
  lemma {:induction false} RowStridesLeaveRoom(q: seq<nat>, i: nat, j: nat)
    requires Positive(q) && i < j < |q|
    ensures Times(q[j], RowStrides(q)[j]) <= RowStrides(q)[i] && RowStrides(q)[j] > 0
    decreases j - i
  {
    RowStridesSuffix(q, j);
    RowStridesSuffix(q, j - 1);
    assert q[j..][0] == q[j] && q[j..][1..] == q[j + 1..];
    TimesIsProduct(q[j], RowStrides(q)[j]);
    PositiveProduct(q[j + 1..]);
    if i < j - 1 {
      RowStridesLeaveRoom(q, i, j - 1);
      TimesIsProduct(q[j - 1], RowStrides(q)[j - 1]);
      MulPositive(q[j - 1], RowStrides(q)[j - 1]);
    }
  }

  /** Every axis of a contiguous box spans at most the whole. */
  lemma SpanAtMostProduct(q: seq<nat>, k: nat)
    requires Positive(q) && k < |q|
    ensures Times(q[k], RowStrides(q)[k]) <= Product(q)
    ensures k == 0 ==> Times(q[0], RowStrides(q)[0]) == Product(q)
  {
    RowStridesSuffix(q, 0);
    TimesIsProduct(q[0], RowStrides(q)[0]);
    if k > 0 {
      RowStridesLeaveRoom(q, 0, k);
      MulPositive(q[0], RowStrides(q)[0]);
    }
  }

  lemma {:induction false} FoldMaxBounds(length: seq<nat>, stride: seq<nat>, k: nat, d: nat, m: nat)
    requires |length| == |stride| && k <= |length|
    requires d <= m && forall i :: 0 <= i < k ==> Times(length[i], stride[i]) <= m
    ensures FoldMax(length, stride, k, d) <= m
    ensures k > 0 ==> FoldMax(length, stride, k, d) >= Times(length[0], stride[0])
  {
    if k > 0 {
      FoldMaxBounds(length, stride, k - 1, d, m);
    }
  }

  lemma PaddedIsPositive(length: seq<nat>, pad: bool)
    requires Positive(length)
    ensures Positive(PaddedLength(length, pad)) && Positive(Halved(length))
    ensures forall k :: 0 <= k < |length| ==> PaddedLength(length, pad)[k] >= length[k]
  {
  }

  /** The largest extent is that of the slowest axis: the whole box. */
  lemma LargestExtent(stored: seq<nat>, length: seq<nat>, pad: bool)
    requires Positive(stored) && |length| == |stored| && !(pad && |length| == 1)
    requires forall k :: 0 <= k < |length| - 1 ==> length[k] == stored[k]
    ensures var q, last := PaddedLength(stored, pad), |length| - 1;
            FoldMax(length, RowStrides(q), last, Times(stored[last], RowStrides(q)[last])) == Product(q)
  {
    var q, last := PaddedLength(stored, pad), |length| - 1;
    var s := RowStrides(q);
    PaddedIsPositive(stored, pad);
    forall i | 0 <= i <= last ensures Times(stored[i], s[i]) <= Product(q) {
      SpanAtMostProduct(q, i);
      TimesMono(stored[i], q[i], s[i]);
    }
    SpanAtMostProduct(q, 0);
    FoldMaxBounds(length, s, last, Times(stored[last], s[last]), Product(q));
  }

  /** The distance filled in between batches is the size of one contiguous padded batch. */
  lemma DefaultDistanceIsProduct(length: seq<nat>, pad: bool, half: bool)
    requires Positive(length) && !(pad && half)
    ensures var q := PaddedLength(if half then Halved(length) else length, pad);
            Distance(length, RowStrides(q), pad, half) == Product(q)
  {
    var stored := if half then Halved(length) else length;
    PaddedIsPositive(length, false);
    if pad && |length| == 1 {
      SpanAtMostProduct(PaddedLength(stored, true), 0);
    } else {
      LargestExtent(stored, length, pad);
    }
  }

  /** Contiguous strides and distance separate all batches and indices. */
  lemma ContiguousIsCollisionFree(length: seq<nat>, pad: bool, nbatch: nat)
    requires Positive(length)
    ensures var q := PaddedLength(length, pad);
            !Collides(Batched(length, nbatch), Batched(RowStrides(q), Product(q)))
  {
    var q := PaddedLength(length, pad);
    var l, s := Batched(length, nbatch), Batched(RowStrides(q), Product(q));
    forall x, y | InBox(x, l) && InBox(y, l) && Dot(x, s) == Dot(y, s) ensures x == y {
      assert forall k :: 0 <= k < |length| ==> l[k] == length[k];
      var n := |length|;
      BatchedOffset(x, length, pad);
      BatchedOffset(y, length, pad);
      DigitsUnique(x[n], Rank(x[..n], q), y[n], Rank(y[..n], q), Product(q));
      RankInjective(x[..n], y[..n], q);
      assert x == x[..n] + [x[n]] && y == y[..n] + [y[n]];
    }
  }

  lemma BatchedOffset(x: seq<nat>, length: seq<nat>, pad: bool)
    requires Positive(length) && |x| == |length| + 1
    requires forall k :: 0 <= k < |length| ==> x[k] < length[k]
    ensures var q := PaddedLength(length, pad);
      && InBox(x[..|length|], q) && Rank(x[..|length|], q) < Product(q)
      && Dot(x, Batched(RowStrides(q), Product(q))) == x[|length|] * Product(q) + Rank(x[..|length|], q)
  {
    var q := PaddedLength(length, pad);
    PaddedIsPositive(length, pad);
    assert InBox(x[..|length|], q);
    RankBound(x[..|length|], q);
    DotSnoc(x, Batched(RowStrides(q), Product(q)));
    assert Batched(RowStrides(q), Product(q))[..|length|] == RowStrides(q);
    RowStridesGiveRank(x[..|length|], q);
  }

  /** Layouts filled in by default are accepted by the layout checker. */
  lemma ContiguousIsAccepted(length: seq<nat>, pad: bool, nbatch: nat)
    requires Positive(length) && nbatch > 0
    ensures var q := PaddedLength(length, pad);
            LayoutOk(length, RowStrides(q), nbatch, Product(q))
  {
    var q := PaddedLength(length, pad);
    ContiguousIsCollisionFree(length, pad, nbatch);
    if !Accepts(Batched(length, nbatch), Batched(RowStrides(q), Product(q))) {
      RejectionIsJustified(Batched(length, nbatch), Batched(RowStrides(q), Product(q)));
    }
  }

  lemma KeepEntry(l: seq<nat>, v: seq<nat>, k: nat) returns (i: nat)
    requires |l| == |v| && k < |Keep(l, l)|
    ensures k <= i < |l| && |Keep(l, v)| == |Keep(l, l)| && Keep(l, l)[k] == l[i] && Keep(l, v)[k] == v[i]
  {
    i := KeepTwo(l, v, k, k);
  }

  /** Entries `a <= b` of the long axes stem from axes `i <= j`; here, the later of them. */
  lemma {:induction false} KeepTwo(l: seq<nat>, v: seq<nat>, a: nat, b: nat) returns (j: nat)
    requires |l| == |v| && a <= b < |Keep(l, l)|
    ensures b <= j < |l| && |Keep(l, v)| == |Keep(l, l)| && Keep(l, l)[b] == l[j] && Keep(l, v)[b] == v[j]
    ensures |Keep(l[..j], l[..j])| == b
  {
    KeepSizes(l, v);
    KeepSizes(l[1..], v[1..]);
    if l[0] > 1 && b == 0 {
      j := 0;
      assert l[..0] == [];
    } else {
      var d := if l[0] > 1 then 1 else 0;
      var j' := KeepTwo(l[1..], v[1..], 0, b - d);
      j := j' + 1;
      assert l[..j][1..] == l[1..][..j'];
    }
  }

  lemma {:induction false} KeepPrefixGrows(l: seq<nat>, i: nat, j: nat)
    requires i <= j <= |l|
    ensures |Keep(l[..i], l[..i])| <= |Keep(l[..j], l[..j])|
    decreases j
  {
    if i < j {
      KeepPrefixGrows(l, i, j - 1);
      assert l[..j - 1 + 1] == l[..j];
      KeepSnoc(l, l, j - 1);
    }
  }

  /** Dropping short axes keeps the others apart. */
  lemma LongAxesStayRoomy(l: seq<nat>, s: seq<nat>)
    requires |l| == |s| && Roomy(l, s)
    ensures |Keep(l, l)| == |Keep(l, s)| && Roomy(Keep(l, l), Keep(l, s))
  {
    KeepSizes(l, s);
    forall a, b | 0 <= a < b < |Keep(l, l)|
      ensures Times(Keep(l, l)[a], Keep(l, s)[a]) <= Keep(l, s)[b] || Times(Keep(l, l)[b], Keep(l, s)[b]) <= Keep(l, s)[a]
    {
      var i := KeepTwo(l, s, a, a);
      var j := KeepTwo(l, s, b, b);
      if j <= i {
        KeepPrefixGrows(l, j, i);
      }
      assert i < j;
    }
  }

  /** Contiguous batches are in the domain of the 64-bit checker whenever their size is a size_t. */
  lemma ContiguousInDomain(length: seq<nat>, pad: bool, nbatch: nat)
    requires Positive(length) && nbatch > 0
    requires Times(nbatch, Product(PaddedLength(length, pad))) < TWO64
    ensures var q := PaddedLength(length, pad);
            var l, s := Batched(length, nbatch), Batched(RowStrides(q), Product(q));
            |Keep(l, l)| == |Keep(l, s)| && InDomain(Keep(l, l), Keep(l, s))
  {
    var q := PaddedLength(length, pad);
    var l, s, n := Batched(length, nbatch), Batched(RowStrides(q), Product(q)), |length|;
    PaddedIsPositive(length, pad);
    forall i | 0 <= i < n ensures Times(l[i], s[i]) <= Product(q) && s[i] > 0 {
      SpanAtMostProduct(q, i);
      TimesMono(length[i], q[i], s[i]);
      RowStridesSuffix(q, i);
      PositiveProduct(q[i + 1..]);
    }
    forall i, j | 0 <= i < j <= n ensures Times(l[i], s[i]) <= s[j] || Times(l[j], s[j]) <= s[i] {
      if j < n {
        RowStridesLeaveRoom(q, i, j);
        TimesMono(length[j], q[j], s[j]);
      }
    }
    PositiveProduct(q);
    LongAxesStayRoomy(l, s);
    KeepIsAxes(l, s);
    TimesMono(1, nbatch, Product(q));
    TimesIsProduct(1, Product(q));
    forall k | 0 <= k < |Keep(l, l)| ensures Times(Keep(l, l)[k], Keep(l, s)[k]) < TWO64 {
      var i := KeepEntry(l, s, k);
    }
  }

  /** A description that gives neither strides nor distances. */
  predicate Unfilled(p: Params) {
    p.istride == [] && p.ostride == [] && p.idist == 0 && p.odist == 0
  }

  /** What validate fills in, for every dimension, transform type and placement. */
  lemma DefaultsAreContiguous(p: Params)
    requires Positive(p.length) && Unfilled(p) && HasOffsets(WithTypes(p))
    ensures var v := Validated(p);
            var qi, qo := PaddedLength(ILength(p), InputPadded(p)), PaddedLength(OLength(p), OutputPadded(p));
            && v.istride == RowStrides(qi) && v.idist == Product(qi)
            && v.ostride == RowStrides(qo) && v.odist == Product(qo)
  {
    DefaultStridesAreContiguous(ILength(p), InputPadded(p));
    DefaultStridesAreContiguous(OLength(p), OutputPadded(p));
    DefaultDistanceIsProduct(p.length, InputPadded(p), p.transformType == RealInverse);
    DefaultDistanceIsProduct(p.length, OutputPadded(p), p.transformType == RealForward);
  }

  /** Main result on defaults: both layouts are accepted, and free of collisions across batches. */
  lemma DefaultsAreAccepted(p: Params)
    requires Positive(p.length) && p.nbatch > 0 && Unfilled(p) && HasOffsets(WithTypes(p))
    ensures var v := Validated(p);
      && LayoutOk(ILength(v), v.istride, v.nbatch, v.idist) && LayoutOk(OLength(v), v.ostride, v.nbatch, v.odist)
      && !Collides(Batched(ILength(v), v.nbatch), Batched(v.istride, v.idist))
      && !Collides(Batched(OLength(v), v.nbatch), Batched(v.ostride, v.odist))
  {
    DefaultsAreContiguous(p);
    PaddedIsPositive(p.length, false);
    ContiguousIsAccepted(ILength(p), InputPadded(p), p.nbatch);
    ContiguousIsAccepted(OLength(p), OutputPadded(p), p.nbatch);
    ContiguousIsCollisionFree(ILength(p), InputPadded(p), p.nbatch);
    ContiguousIsCollisionFree(OLength(p), OutputPadded(p), p.nbatch);
  }

  /** The 64-bit checker decides both layouts filled in, whenever the batches' sizes are size_t. */
  lemma DefaultsAreCheckable(p: Params)
    requires Positive(p.length) && p.nbatch > 0 && Unfilled(p) && HasOffsets(WithTypes(p))
    requires Times(p.nbatch, Product(PaddedLength(ILength(p), InputPadded(p)))) < TWO64
    requires Times(p.nbatch, Product(PaddedLength(OLength(p), OutputPadded(p)))) < TWO64
    ensures var v := Validated(p);
      && Checkable(ILength(v), v.istride, v.nbatch, v.idist) && Checkable(OLength(v), v.ostride, v.nbatch, v.odist)
  {
    DefaultsAreContiguous(p);
    PaddedIsPositive(p.length, false);
    hide RowStrides, PaddedLength, Keep, InDomain;
    ContiguousInDomain(ILength(p), InputPadded(p), p.nbatch);
    ContiguousInDomain(OLength(p), OutputPadded(p), p.nbatch);
  }

  lemma LastStrideIsOne(q: seq<nat>)
    requires q != []
    ensures UnitLast(RowStrides(q))
  {
    RowStridesSuffix(q, |q| - 1);
  }

  /** What is left for the caller to get right: types, and in place offsets and the output check. */
  predicate FlagsOk(p: Params) {
    && TypesOk(p)
    && (p.placement == InPlace ==> !MixesPlanar(p) && OffsetsOk(p) && !p.checkOutputStrides)
  }

  /** Main result on filled-in problems: they are valid exactly when types, offsets and flags are. */
  lemma DefaultsAreValidWhen(p: Params)
    requires Positive(p.length) && p.nbatch > 0 && Unfilled(p) && HasOffsets(WithTypes(p))
    ensures IsValid(Validated(p)) <==> FlagsOk(WithTypes(p))
  {
    DefaultsAreAccepted(p);
    DefaultsAreContiguous(p);
    LastStrideIsOne(PaddedLength(ILength(p), InputPadded(p)));
    LastStrideIsOne(PaddedLength(OLength(p), OutputPadded(p)));
    hide LayoutOk, RowStrides, Product, PaddedLength;
    SameFlags(Validated(p), WithTypes(p));
  }

  lemma SameFlags(v: Params, w: Params)
    requires v.itype == w.itype && v.otype == w.otype && v.transformType == w.transformType && v.placement == w.placement
    requires v.ioffset == w.ioffset && v.ooffset == w.ooffset
    ensures (TypesOk(v) <==> TypesOk(w)) && (OffsetsOk(v) <==> OffsetsOk(w)) && (MixesPlanar(v) <==> MixesPlanar(w))
  {
    assert forall i: nat :: SameOffset(v, i) <==> SameOffset(w, i);
  }

  /** Validating twice is validating once, whatever was given in advance. */
  lemma ValidateIsIdempotent(p: Params)
    requires Partial(p) && HasOffsets(WithTypes(p))
    ensures Partial(Validated(p)) && HasOffsets(WithTypes(Validated(p)))
    ensures Validated(Validated(p)) == Validated(p)
  {
  }

  // ------------------------------------------------- in-place real overlays

  lemma {:induction false} DoubledLast(q: seq<nat>, h: seq<nat>)
    requires |q| == |h| > 0 && q[|q| - 1] == 2 * h[|h| - 1]
    requires forall k :: 0 <= k < |q| - 1 ==> q[k] == h[k]
    ensures Product(q) == 2 * Product(h)
  {
    if |q| > 1 {
      DoubledLast(q[1..], h[1..]);
      assert q[0] * (2 * Product(h[1..])) == 2 * (h[0] * Product(h[1..]));
    } else {
      assert q[1..] == [] && h[1..] == [];
    }
  }

  lemma DoubledStrides(q: seq<nat>, h: seq<nat>, k: nat)
    requires |q| == |h| > 0 && q[|q| - 1] == 2 * h[|h| - 1] && k < |q|
    requires forall i :: 0 <= i < |q| - 1 ==> q[i] == h[i]
    ensures RowStrides(q)[k] == if k == |q| - 1 then 1 else 2 * RowStrides(h)[k]
    ensures k == |q| - 1 ==> RowStrides(h)[k] == 1
  {
    RowStridesSuffix(q, k);
    RowStridesSuffix(h, k);
    if k < |q| - 1 {
      DoubledLast(q[k + 1..], h[k + 1..]);
    }
  }

  /** Outer strides and batch distance of in-place real data are twice the complex ones. */
  lemma RealRowsOverlayComplexRows(p: Params)
    requires Positive(p.length) && Unfilled(p) && HasOffsets(WithTypes(p))
    requires p.transformType == RealForward && p.placement == InPlace
    ensures var v := Validated(p);
      && v.idist == 2 * v.odist && UnitLast(v.istride) && UnitLast(v.ostride)
      && forall k :: 0 <= k < |p.length| - 1 ==> v.istride[k] == 2 * v.ostride[k]
  {
    DefaultsAreContiguous(p);
    hide Validated, RowStrides, Product;
    assert PaddedLength(Halved(p.length), false) == Halved(p.length);
    PaddedRowsAreDoubled(p.length);
  }

  /** A padded real row is as long as two of the rows of complex numbers. */
  lemma PaddedRowsAreDoubled(length: seq<nat>)
    requires Positive(length)
    ensures var q, h := PaddedLength(length, true), Halved(length);
      && |q| == |h| == |length| && Product(q) == 2 * Product(h)
      && UnitLast(RowStrides(q)) && UnitLast(RowStrides(h))
      && forall k :: 0 <= k < |q| - 1 ==> RowStrides(q)[k] == 2 * RowStrides(h)[k]
  {
    hide RowStrides, Product;
    var q, h := PaddedLength(length, true), Halved(length);
    DoubledLast(q, h);
    DoubledStrides(q, h, |q| - 1);
    forall k | 0 <= k < |q| - 1 ensures RowStrides(q)[k] == 2 * RowStrides(h)[k] {
      DoubledStrides(q, h, k);
    }
  }

  /** Real rows reach at most twice as far as the complex rows they overlay. */
  lemma {:induction false} RealReach(length: seq<nat>)
    requires Positive(length)
    ensures MaxOffset(length, RowStrides(PaddedLength(length, true))) + 1
         <= 2 * (MaxOffset(Halved(length), RowStrides(Halved(length))) + 1)
  {
    var q, h := PaddedLength(length, true), Halved(length);
    var s, t := RowStrides(q), RowStrides(h);
    if |length| == 1 {
      assert s == [1] && t == [1];
      assert MaxOffset(length[1..], s[1..]) == 0 && MaxOffset(h[1..], t[1..]) == 0;
    } else {
      RealReach(length[1..]);
      RealReachStep(length);
    }
  }

  lemma RealReachStep(length: seq<nat>)
    requires |length| > 1 && Positive(length)
    requires MaxOffset(length[1..], RowStrides(PaddedLength(length[1..], true))) + 1
         <= 2 * (MaxOffset(Halved(length[1..]), RowStrides(Halved(length[1..]))) + 1)
    ensures MaxOffset(length, RowStrides(PaddedLength(length, true))) + 1
         <= 2 * (MaxOffset(Halved(length), RowStrides(Halved(length))) + 1)
  {
    var q, h := PaddedLength(length, true), Halved(length);
    var s, t := RowStrides(q), RowStrides(h);
    hide MaxOffset, Product, RowStrides, PaddedLength, Halved;
    PaddedTail(length);
    StridesTail(q);
    StridesTail(h);
    MaxOffsetCons(length, s);
    MaxOffsetCons(h, t);
    TimesIsProduct(length[0] - 1, s[0]);
    TimesIsProduct(length[0] - 1, t[0]);
    TwiceTerm(length[0] - 1, s[0], t[0]);
  }

  lemma PaddedTail(length: seq<nat>)
    requires |length| > 1 && Positive(length)
    ensures var q, h := PaddedLength(length, true), Halved(length);
      && q[1..] == PaddedLength(length[1..], true) && h[1..] == Halved(length[1..])
      && h[0] == length[0] && Product(q[1..]) == 2 * Product(h[1..])
  {
    var q, h := PaddedLength(length, true), Halved(length);
    DoubledLast(q[1..], h[1..]);
  }

  lemma StridesTail(q: seq<nat>)
    requires q != []
    ensures RowStrides(q)[0] == Product(q[1..]) && RowStrides(q)[1..] == RowStrides(q[1..])
  {
  }

  lemma MaxOffsetCons(l: seq<nat>, s: seq<nat>)
    requires |l| == |s| > 0 && l[0] > 0
    ensures MaxOffset(l, s) == Times(l[0] - 1, s[0]) + MaxOffset(l[1..], s[1..])
  {
    TimesIsProduct(l[0] - 1, s[0]);
  }

  lemma TwiceTerm(n: nat, a: nat, b: nat)
    requires a == 2 * b
    ensures n * a == 2 * (n * b)
  {
  }

  lemma RealBatchReach(length: seq<nat>, nbatch: nat)
    requires Positive(length) && nbatch > 0
    ensures var q, h := PaddedLength(length, true), Halved(length);
            Reach(length, RowStrides(q), nbatch, Product(q)) <= 2 * Reach(h, RowStrides(h), nbatch, Product(h))
  {
    var q, h := PaddedLength(length, true), Halved(length);
    DoubledLast(q, h);
    RealReach(length);
    TimesIsProduct(nbatch - 1, Product(q));
    TimesIsProduct(nbatch - 1, Product(h));
    TwiceTerm(nbatch - 1, Product(q), Product(h));
  }

  /** The buffer sized from the interleaved output holds every real input element. */
  lemma OutputBufferHoldsRealInput(p: Params)
    requires Positive(p.length) && p.nbatch > 0 && Unfilled(p) && HasOffsets(WithTypes(p))
    requires p.transformType == RealForward && p.placement == InPlace
    requires WithTypes(p).itype == RealArray && WithTypes(p).otype == HermitianInterleaved
    ensures var v := Validated(p);
      && |v.isize| == |v.osize| == 1
      && (p.ioffset[0] <= 2 * p.ooffset[0] ==> v.isize[0] <= 2 * v.osize[0])
  {
    DefaultsAreContiguous(p);
    assert PaddedLength(Halved(p.length), false) == Halved(p.length);
    RealBatchReach(p.length, p.nbatch);
  }

  // ---------------------------------------------------------------- inverse

  /** The inverse problem is valid exactly when the forward one is. */
  lemma InverseKeepsVerdict(f: Params, q: Params)
    requires IsForward(f.transformType) && f.scaleFactor != 0.0
    ensures IsValid(Inverted(q, f)) <==> IsValid(f)
  {
    var g := Inverted(q, f);
    assert ILength(g) == OLength(f) && OLength(g) == ILength(f);
    assert forall i: nat :: SameOffset(g, i) <==> SameOffset(f, i);
    assert SameStride(g) <==> SameStride(f) by {
      if SameStride(f) {
        forall i | 0 <= i < |g.istride| && i < |g.ostride| ensures g.istride[i] == g.ostride[i] {
          assert f.istride[i] == f.ostride[i];
        }
      }
      if SameStride(g) {
        forall i | 0 <= i < |f.istride| && i < |f.ostride| ensures f.istride[i] == f.ostride[i] {
          assert g.istride[i] == g.ostride[i];
        }
      }
    }
  }

  /** After validation the inverse's input is sized as the forward's output, and conversely. */
  lemma InverseSwapsSizes(f: Params, q: Params)
    requires IsForward(f.transformType) && f.scaleFactor != 0.0
    requires Partial(f) && HasOffsets(WithTypes(f))
    ensures var v := Validated(f);
            var g := Inverted(q, v);
      && Partial(g) && HasOffsets(WithTypes(g))
      && Validated(g).isize == v.osize && Validated(g).osize == v.isize
      && Validated(g).istride == v.ostride && Validated(g).idist == v.odist
  {
    var v := Validated(f);
    var g := Inverted(q, v);
    assert ILength(g) == OLength(v) && OLength(g) == ILength(v);
  }
}
