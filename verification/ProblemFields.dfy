/**
 What the fields that validate() and inverse_from_forward() of shared/fft_params.h
 fill in mean: types, strides, distances, buffer sizes, and the inverse's fields.
 */
module ProblemFields {
  import opened Arith
  import opened Layouts
  import opened Partitions
  import opened Ptrdiff
  import opened Problems
  import opened ProblemTheorems
  import opened Validity

  // ------------------------------------------------------------------ types

  /** Types given are kept; the others are those of the transform. */
  lemma TypesFilledIn(p: Params)
    requires Partial(p) && HasOffsets(WithTypes(p))
    ensures var v := Validated(p);
      && (p.itype != Unset ==> v.itype == p.itype) && (p.otype != Unset ==> v.otype == p.otype)
      && (p.itype == Unset ==> match p.transformType
            case ComplexForward => v.itype == ComplexInterleaved
            case ComplexInverse => v.itype == ComplexInterleaved
            case RealForward => v.itype == RealArray
            case RealInverse => v.itype == HermitianInterleaved)
      && (p.otype == Unset ==> match p.transformType
            case ComplexForward => v.otype == ComplexInterleaved
            case ComplexInverse => v.otype == ComplexInterleaved
            case RealForward => v.otype == HermitianInterleaved
            case RealInverse => v.otype == RealArray)
  {
  }

  /** Nothing but types, strides, distances and sizes is touched. */
  lemma OnlyLayoutIsFilledIn(p: Params)
    requires Partial(p) && HasOffsets(WithTypes(p))
    ensures var v := Validated(p);
            p == v.(itype := p.itype, otype := p.otype, istride := p.istride, ostride := p.ostride,
                    idist := p.idist, odist := p.odist, isize := p.isize, osize := p.osize)
  {
  }

  // ---------------------------------------------------------- stored lengths

  /** Entry `k` of a Hermitian line of `n` is stored among the first `h`, or is the conjugate of one that is. */
  predicate Represented(k: nat, n: nat, h: nat) {
    k < h || 0 <= n - k < h
  }

  ghost predicate Represents(h: nat, n: nat) {
    h > 0 && forall k: nat :: k < n ==> Represented(k, n, h)
  }

  /** The side of a real transform that holds complex numbers stores as few of a line as determine it. */
  lemma StoredLinesAreLeast(p: Params)
    requires Positive(p.length)
    ensures p.transformType != RealInverse ==> ILength(p) == p.length
    ensures p.transformType != RealForward ==> OLength(p) == p.length
    ensures IsReal(p.transformType) ==>
      var last, s := |p.length| - 1, if p.transformType == RealForward then OLength(p) else ILength(p);
      && s[..last] == p.length[..last]
      && Represents(s[last], p.length[last]) && forall h: nat :: Represents(h, p.length[last]) ==> s[last] <= h
  {
    var n := p.length[|p.length| - 1];
    forall h: nat | Represents(h, n) ensures n / 2 + 1 <= h {
      if n > 1 {
        assert Represented((n + 1) / 2, n, h) && Represented(n / 2, n, h);
      }
    }
  }

  // ---------------------------------------------------------------- strides

  /** `s` ends in the strides given, or in 1, and each slower stride spans the axis after it, of length `l`. */
  ghost predicate ExtendsGiven(s: seq<nat>, given: seq<nat>, l: seq<nat>) {
    var tail := if given == [] then [1] else given;
    && |tail| <= |s| == |l| && s[|s| - |tail|..] == tail
    && forall k :: 0 <= k < |s| - |tail| ==> s[k] == s[k + 1] * l[k + 1]
  }

  /** The same for a list of strides to extend, its products by repeated addition. */
  ghost predicate Extends(s: seq<nat>, tail: seq<nat>, l: seq<nat>) {
    && 0 < |tail| <= |s| == |l| && s[|s| - |tail|..] == tail
    && forall k :: 0 <= k < |s| - |tail| ==> s[k] == Times(s[k + 1], l[k + 1])
  }

  lemma OneStrideMore(r: seq<nat>, s: seq<nat>, e: nat, l: seq<nat>)
    requires 0 < |s| < |l| && l[|l| - |s|] == e && Extends(r, [Times(s[0], e)] + s, l)
    ensures Extends(r, s, l)
  {
    hide Times;
    var i, t := |l| - |s|, [Times(s[0], e)] + s;
    assert r[i - 1..][1..] == r[i..] && t[1..] == s;
    assert r[i - 1] == t[0] && r[i] == s[0];
  }

  lemma {:induction false} ExtendExtends(length: seq<nat>, s: seq<nat>, pad: bool)
    requires 0 < |s| <= |length|
    ensures Extends(Extend(length, s, pad), s, PaddedLength(length, pad))
    decreases |length| - |s|
  {
    if |s| < |length| {
      hide Extends, Times;
      var e := Extent(length, |length| - |s|, pad);
      ExtendExtends(length, [Times(s[0], e)] + s, pad);
      OneStrideMore(Extend(length, s, pad), s, e, PaddedLength(length, pad));
    } else {
      assert s[0..] == s;
    }
  }

  lemma StridesExtend(length: seq<nat>, given: seq<nat>, pad: bool)
    requires length != [] && |given| <= |length|
    ensures ExtendsGiven(Strides(length, given, pad), given, PaddedLength(length, pad))
  {
    var tail, s, l := if given == [] then [1] else given, Strides(length, given, pad), PaddedLength(length, pad);
    ExtendExtends(length, tail, pad);
    hide Strides, PaddedLength;
    forall k | 0 <= k < |s| - |tail| ensures s[k] == s[k + 1] * l[k + 1] {
      TimesIsProduct(s[k + 1], l[k + 1]);
    }
  }

  /** The stored lengths, with room for shared rows: only the last entry differs from the length given. */
  lemma RoomOfRows(p: Params)
    requires p.length != []
    ensures var last, shared := |p.length| - 1, p.placement == InPlace;
            var n := p.length[last];
      && PaddedLength(ILength(p), InputPadded(p)) == p.length[last :=
           if p.transformType == RealInverse then n / 2 + 1
           else if p.transformType == RealForward && shared then 2 * (n / 2 + 1) else n]
      && PaddedLength(OLength(p), OutputPadded(p)) == p.length[last :=
           if p.transformType == RealForward then n / 2 + 1
           else if p.transformType == RealInverse && shared then 2 * (n / 2 + 1) else n]
  {
  }

  /** Strides given are kept; slower ones leave exactly the room the next axis needs. */
  lemma StridesFilledIn(p: Params)
    requires Partial(p) && HasOffsets(WithTypes(p))
    ensures var v, last, shared := Validated(p), |p.length| - 1, p.placement == InPlace;
            var n := p.length[last];
      && ExtendsGiven(v.istride, p.istride, p.length[last :=
           if p.transformType == RealInverse then n / 2 + 1
           else if p.transformType == RealForward && shared then 2 * (n / 2 + 1) else n])
      && ExtendsGiven(v.ostride, p.ostride, p.length[last :=
           if p.transformType == RealForward then n / 2 + 1
           else if p.transformType == RealInverse && shared then 2 * (n / 2 + 1) else n])
  {
    RoomOfRows(p);
    hide ExtendsGiven, PaddedLength, Strides;
    StridesExtend(ILength(p), p.istride, InputPadded(p));
    StridesExtend(OLength(p), p.ostride, OutputPadded(p));
  }

  // -------------------------------------------------------------- distances

  /** `d` is the largest extent of an axis, its length times its stride. */
  ghost predicate IsLargestExtent(d: nat, l: seq<nat>, s: seq<nat>)
    requires |l| == |s|
  {
    && (forall k :: 0 <= k < |l| ==> l[k] * s[k] <= d)
    && exists k :: 0 <= k < |l| && d == l[k] * s[k]
  }

  lemma {:induction false} FoldMaxIsLargest(length: seq<nat>, stride: seq<nat>, k: nat, d: nat) returns (i: int)
    requires |length| == |stride| && k <= |length|
    ensures FoldMax(length, stride, k, d) >= d
    ensures forall j :: 0 <= j < k ==> length[j] * stride[j] <= FoldMax(length, stride, k, d)
    ensures -1 <= i < k && FoldMax(length, stride, k, d) == if i < 0 then d else length[i] * stride[i]
  {
    if k == 0 {
      return -1;
    }
    i := FoldMaxIsLargest(length, stride, k - 1, d);
    TimesIsProduct(length[k - 1], stride[k - 1]);
    if FoldMax(length, stride, k - 1, d) < length[k - 1] * stride[k - 1] {
      i := k - 1;
    }
  }

  lemma DistanceIsLargest(length: seq<nat>, stride: seq<nat>, pad: bool, half: bool)
    requires |length| == |stride| > 0 && !(pad && half)
    ensures var last := |length| - 1;
            IsLargestExtent(Distance(length, stride, pad, half), length[last :=
              if half then length[last] / 2 + 1 else if pad && last == 0 then 2 * (length[0] / 2 + 1) else length[last]], stride)
  {
    var last := |length| - 1;
    var e := if half then length[last] / 2 + 1 else if pad && last == 0 then 2 * (length[0] / 2 + 1) else length[last];
    var l := length[last := e];
    TimesIsProduct(e, stride[last]);
    var i := FoldMaxIsLargest(length, stride, last, Times(e, stride[last]));
    assert Distance(length, stride, pad, half) == FoldMax(length, stride, last, Times(e, stride[last]));
    assert forall k :: 0 <= k < last ==> l[k] == length[k];
    var k := if i < 0 then last else i;
    assert FoldMax(length, stride, last, Times(e, stride[last])) == l[k] * stride[k];
  }

  /** Distances given are kept; the others are the largest extent of an axis. */
  lemma DistancesFilledIn(p: Params)
    requires Partial(p) && HasOffsets(WithTypes(p))
    ensures var v, last, line := Validated(p), |p.length| - 1, p.placement == InPlace && |p.length| == 1;
            var n := p.length[last];
      && (p.idist != 0 ==> v.idist == p.idist) && (p.odist != 0 ==> v.odist == p.odist)
      && (p.idist == 0 ==> IsLargestExtent(v.idist, p.length[last :=
            if p.transformType == RealInverse then n / 2 + 1
            else if p.transformType == RealForward && line then 2 * (n / 2 + 1) else n], v.istride))
      && (p.odist == 0 ==> IsLargestExtent(v.odist, p.length[last :=
            if p.transformType == RealForward then n / 2 + 1
            else if p.transformType == RealInverse && line then 2 * (n / 2 + 1) else n], v.ostride))
  {
    var v := Validated(p);
    hide Distance, IsLargestExtent, Strides, Reach;
    DistanceIsLargest(p.length, v.istride, InputPadded(p), p.transformType == RealInverse);
    DistanceIsLargest(p.length, v.ostride, OutputPadded(p), p.transformType == RealForward);
  }

  // ------------------------------------------------------------------ sizes

  /** Buffers of a type: planar data have two. */
  function Buffers(t: ArrayType): nat {
    if t == ComplexPlanar || t == HermitianPlanar then 2 else 1
  }

  /** Main result on sizes: one per buffer, the least that holds every cell behind its offset. */
  lemma SizesAreExact(p: Params, n: nat)
    requires Partial(p) && HasOffsets(WithTypes(p)) && AllPositive(p.length) && p.nbatch > 0
    ensures var v := Validated(p);
      && |v.isize| == Buffers(v.itype) <= |v.ioffset| && |v.osize| == Buffers(v.otype) <= |v.ooffset|
      && Positive(v.length) && |v.istride| == |v.ostride| == |v.length|
      && (forall i :: 0 <= i < |v.isize| ==> (Inside(InputShape(v, i), n) <==> v.isize[i] <= n))
      && (forall i :: 0 <= i < |v.osize| ==> (Inside(OutputShape(v, i), n) <==> v.osize[i] <= n))
  {
    var v := Validated(p);
    forall i | 0 <= i < |v.isize| ensures Inside(InputShape(v, i), n) <==> v.isize[i] <= n {
      ReachIsExact(InputShape(v, i), n);
    }
    forall i | 0 <= i < |v.osize| ensures Inside(OutputShape(v, i), n) <==> v.osize[i] <= n {
      ReachIsExact(OutputShape(v, i), n);
    }
  }

  // ---------------------------------------------------------------- inverse

  /** The inverse scales back, and its sides are those of the forward transform, swapped. */
  lemma InverseUndoes(q: Params, f: Params)
    requires IsForward(f.transformType) && f.scaleFactor != 0.0
    ensures var g := Inverted(q, f);
      && g.scaleFactor * f.scaleFactor == 1.0
      && g.transformType == (if f.transformType == ComplexForward then ComplexInverse else RealInverse)
      && g.length == f.length && ILength(g) == OLength(f) && OLength(g) == ILength(f)
      && g.istride == f.ostride && g.ostride == f.istride && g.idist == f.odist && g.odist == f.idist
      && g.itype == f.otype && g.otype == f.itype && g.ioffset == f.ooffset && g.ooffset == f.ioffset
      && g.precision == f.precision && g.placement == f.placement && g.nbatch == f.nbatch
      && g.runCallbacks == f.runCallbacks && g.checkOutputStrides == f.checkOutputStrides
      && g.isize == q.isize && g.osize == q.osize && g.ifields == q.ifields && g.ofields == q.ofields
      && g.multiGpu == q.multiGpu
  {
  }
}
