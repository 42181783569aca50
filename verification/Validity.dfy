/**
 What valid() of shared/fft_params.h buys: a description is valid exactly when its
 offsets are there, its types fit and neither layout puts two cells in one place,
 and an in-place transform reads and writes where it should.
 */
module Validity {
  import opened Arith
  import opened Layouts
  import opened Odometer
  import opened Collisions
  import opened ArrayValidator
  import opened ValidatorTheorems
  import opened Partitions
  import opened Problems

  // ------------------------------------------------- the layout of all batches

  /** A collision the checker does not notice, among four or more long axes. */
  ghost predicate Unnoticed(l: seq<nat>, s: seq<nat>)
    requires |l| == |s|
  {
    && |Keep(l, l)| == |Keep(l, s)| >= 4
    && !Stuck(l, s) && Missed(Keep(l, l), Keep(l, s))
  }

  lemma {:induction false} SortedAxes(ls: seq<Axis>) returns (rs: seq<Axis>)
    ensures SortedByStride(rs) && multiset(rs) == multiset(ls)
  {
    if ls == [] {
      rs := [];
    } else {
      rs := SortedAxes(ls[1..]);
      InsertKeepsAxes(ls[0], rs);
      InsertKeepsOrder(ls[0], rs);
      rs := InsertByStride(ls[0], rs);
      assert ls == [ls[0]] + ls[1..];
    }
  }

  /** Long axes that leave room for one another never collide, whatever their offsets. */
  lemma RoomyIsCollisionFree(l: seq<nat>, s: seq<nat>)
    requires LongAxes(l, s) && Roomy(l, s)
    ensures !Collides(l, s)
  {
    var ls := Zip(l, s);
    var rs := SortedAxes(ls);
    RoomyIsNested(l, s, rs);
    NestedIsCollisionFree(ls, rs);
    PinIsIdentity(l);
  }

  lemma OneAxisIsCollisionFree(l: seq<nat>, s: seq<nat>)
    requires |l| == |s| <= 1 && forall k :: 0 <= k < |s| ==> s[k] > 0
    ensures !Collides(l, s)
  {
    if x, y :| Clash(x, y, l, s) {
      var k :| 0 <= k < |x| && x[k] != y[k];
      assert x[1..] == y[1..] == [];
      MulCancel(x[0], y[0], s[0]);
      assert false;
    }
  }

  /** The verdict on any layout the checker decides. */
  lemma AcceptsWhen(l: seq<nat>, s: seq<nat>)
    requires |l| == |s| && AllPositive(l)
    requires |Keep(l, l)| == |Keep(l, s)| && InDomain(Keep(l, l), Keep(l, s))
    ensures Accepts(l, s) <==> !Collides(l, s) || Unnoticed(l, s)
  {
    var kl, ks := Keep(l, l), Keep(l, s);
    if Stuck(l, s) {
      var k :| 0 <= k < |l| && l[k] > 1 && s[k] == 0;
      ZeroStrideCollides(l, s, k);
    } else {
      KeepIsAxes(l, s);
      KeepMaxOffset(l, s);
      KeepOfLongLength(kl);
      hide Accepts, Collides, Unnoticed, Missed, Keep, Visible, MaxOffset;
      if MaxOffset(kl, ks) < TWO31 {
        IntOffsetsWhen(l, s);
      } else {
        FastPathWhen(l, s);
      }
    }
  }

  lemma IntOffsetsWhen(l: seq<nat>, s: seq<nat>)
    requires |l| == |s| && AllPositive(l) && MaxOffset(l, s) < TWO31 && !Stuck(l, s)
    ensures Accepts(l, s) <==> !Collides(l, s) || Unnoticed(l, s)
  {
    hide Collides, Missed, Visible, MaxOffset, Stuck;
    if |Keep(l, l)| <= 3 {
      ExactUpToThreeLongAxes(l, s);
    } else {
      ExactIffSeenOrClear(l, s);
      if !Accepts(l, s) {
        RejectionIsJustified(l, s);
      }
    }
  }

  /** Larger offsets are decided early, and then nothing collides. */
  lemma FastPathWhen(l: seq<nat>, s: seq<nat>)
    requires |l| == |s| && AllPositive(l) && |Keep(l, l)| == |Keep(l, s)| && LongAxes(Keep(l, l), Keep(l, s))
    requires |Keep(l, l)| <= 1 || Roomy(Keep(l, l), Keep(l, s))
    ensures Accepts(l, s) && !Collides(l, s)
  {
    if |Keep(l, l)| <= 1 {
      OneAxisIsCollisionFree(Keep(l, l), Keep(l, s));
    } else {
      RoomyIsCollisionFree(Keep(l, l), Keep(l, s));
    }
    ShortAxesIrrelevant(l, s);
    PinIsIdentity(l);
    if !Accepts(l, s) {
      RejectionIsJustified(l, s);
    }
  }

  // ------------------------------------------------------ distinct places

  lemma BatchedPlace(v: Shape, b: nat, x: seq<nat>)
    requires |v.length| == |v.stride| && |x| == |v.length|
    ensures Place(v, b, x) == Dot(x + [b], Batched(v.stride, v.dist)) + v.offset
    ensures InBox(x + [b], Batched(v.length, v.nbatch)) <==> Cell(v, b, x)
  {
    var l, y := Batched(v.length, v.nbatch), x + [b];
    DotSnoc(y, Batched(v.stride, v.dist));
    assert y[..|x|] == x && Batched(v.stride, v.dist)[..|x|] == v.stride;
    TimesIsProduct(b, v.dist);
    if InBox(y, l) {
      assert y[|x|] < l[|x|];
      forall k | 0 <= k < |x| ensures x[k] < v.length[k] {
        assert y[k] < l[k];
      }
    }
  }

  /** Freedom from collisions, said of cells and places. */
  lemma DistinctWhen(v: Shape)
    requires |v.length| == |v.stride|
    ensures Distinct(v) <==> !Collides(Batched(v.length, v.nbatch), Batched(v.stride, v.dist))
  {
    var l, s, n := Batched(v.length, v.nbatch), Batched(v.stride, v.dist), |v.length|;
    if x, y :| Clash(x, y, l, s) {
      assert x == x[..n] + [x[n]] && y == y[..n] + [y[n]];
      BatchedPlace(v, x[n], x[..n]);
      BatchedPlace(v, y[n], y[..n]);
      assert Place(v, x[n], x[..n]) == Place(v, y[n], y[..n]);
    }
    if !Collides(l, s) {
      forall b: nat, x, c: nat, y | Cell(v, b, x) && Cell(v, c, y) && Place(v, b, x) == Place(v, c, y)
        ensures b == c && x == y
      {
        BatchedPlace(v, b, x);
        BatchedPlace(v, c, y);
        assert !Clash(x + [b], y + [c], l, s);
        assert (x + [b])[..n] == x && (y + [c])[..n] == y && (x + [b])[n] == b && (y + [c])[n] == c;
      }
    }
  }

  // --------------------------------------------------------------- validity

  /** The array of an input or output buffer. */
  function InputShape(p: Params, i: nat): Shape
    requires i < |p.ioffset|
  {
    Shape(ILength(p), p.istride, p.nbatch, p.idist, p.ioffset[i])
  }

  function OutputShape(p: Params, i: nat): Shape
    requires i < |p.ooffset|
  {
    Shape(OLength(p), p.ostride, p.nbatch, p.odist, p.ooffset[i])
  }

  /** One stride per axis, and no two cells in one place, but for collisions that go unnoticed. */
  ghost predicate LayoutFits(v: Shape) {
    && |v.length| == |v.stride|
    && (Distinct(v) || Unnoticed(Batched(v.length, v.nbatch), Batched(v.stride, v.dist)))
  }

  /** At most three axes longer than 1, batches included. */
  ghost predicate FewAxes(v: Shape) {
    |Keep(Batched(v.length, v.nbatch), Batched(v.length, v.nbatch))| <= 3
  }

  lemma LayoutOkWhen(v: Shape)
    requires AllPositive(v.length) && v.nbatch > 0 && Checkable(v.length, v.stride, v.nbatch, v.dist)
    ensures LayoutOk(v.length, v.stride, v.nbatch, v.dist) <==> LayoutFits(v)
  {
    if |v.length| == |v.stride| {
      DistinctWhen(v);
      hide Distinct, Collides, Unnoticed, InDomain, Keep;
      AcceptsWhen(Batched(v.length, v.nbatch), Batched(v.stride, v.dist));
      hide Accepts;
    } else {
      hide Keep, Visible;
    }
  }

  /** Up to three long axes, nothing goes unnoticed. */
  lemma FewAxesFit(v: Shape)
    requires FewAxes(v)
    ensures LayoutFits(v) <==> |v.length| == |v.stride| && Distinct(v)
  {
    hide Distinct, Missed, Stuck;
  }

  /** Positive lengths, a batch, and layouts that the checker decides without wrapping or narrowing. */
  ghost predicate Decided(p: Params) {
    && AllPositive(p.length) && p.nbatch > 0
    && Checkable(ILength(p), p.istride, p.nbatch, p.idist)
    && Checkable(OLength(p), p.ostride, p.nbatch, p.odist)
  }

  /** The pairs of array types an out-of-place transform may have. */
  const TYPE_PAIRS: set<(ArrayType, ArrayType)> := {
    (ComplexInterleaved, ComplexInterleaved), (ComplexInterleaved, ComplexPlanar),
    (ComplexPlanar, ComplexInterleaved), (ComplexPlanar, ComplexPlanar),
    (RealArray, HermitianInterleaved), (RealArray, HermitianPlanar),
    (HermitianInterleaved, RealArray), (HermitianPlanar, RealArray)}

  /** The pairs an in-place transform may have. */
  const INPLACE_PAIRS: set<(ArrayType, ArrayType)> := {
    (ComplexInterleaved, ComplexInterleaved), (ComplexPlanar, ComplexPlanar),
    (RealArray, HermitianInterleaved), (RealArray, HermitianPlanar),
    (HermitianInterleaved, RealArray), (HermitianPlanar, RealArray)}

  /** One offset per buffer: planar data have two. */
  predicate OffsetsGiven(p: Params) {
    && |p.ioffset| >= (if p.itype == ComplexPlanar || p.itype == HermitianPlanar then 2 else 1)
    && |p.ooffset| >= (if p.otype == ComplexPlanar || p.otype == HermitianPlanar then 2 else 1)
  }

  lemma TypesAndOffsets(p: Params)
    ensures (p.itype, p.otype) in TYPE_PAIRS ==> (OffsetsGiven(p) <==> HasOffsets(p))
    ensures p.placement == NotInPlace || IsReal(p.transformType) ==> (TypesOk(p) <==> (p.itype, p.otype) in TYPE_PAIRS)
    ensures TypesOk(p) ==> (p.itype, p.otype) in TYPE_PAIRS
    ensures TypesOk(p) && p.placement == InPlace && !IsReal(p.transformType) ==> p.itype == p.otype
    ensures (p.itype, p.otype) in TYPE_PAIRS && !MixesPlanar(p) <==> (p.itype, p.otype) in INPLACE_PAIRS
    ensures (p.itype, p.otype) in TYPE_PAIRS && p.itype == p.otype ==> TypesOk(p)
  {
  }

  lemma LayoutsOkWhen(p: Params)
    requires Decided(p) && p.ioffset != [] && p.ooffset != []
    ensures LayoutOk(ILength(p), p.istride, p.nbatch, p.idist) <==> LayoutFits(InputShape(p, 0))
    ensures LayoutOk(OLength(p), p.ostride, p.nbatch, p.odist) <==> LayoutFits(OutputShape(p, 0))
  {
    hide LayoutOk, LayoutFits, Checkable;
    LayoutOkWhen(InputShape(p, 0));
    LayoutOkWhen(OutputShape(p, 0));
  }

  /** Main result out of place: offsets, types, and two layouts that keep their cells apart. */
  lemma ValidOutOfPlaceWhen(p: Params)
    requires Decided(p) && p.placement == NotInPlace
    ensures IsValid(p) <==>
      && OffsetsGiven(p) && (p.itype, p.otype) in TYPE_PAIRS
      && LayoutFits(InputShape(p, 0)) && LayoutFits(OutputShape(p, 0))
  {
    TypesAndOffsets(p);
    hide TypesOk, LayoutOk, LayoutFits, HasOffsets;
    if OffsetsGiven(p) {
      LayoutsOkWhen(p);
    }
  }

  lemma ValidOutOfPlaceOfFewAxes(p: Params)
    requires Decided(p) && p.placement == NotInPlace && p.ioffset != [] && p.ooffset != []
    requires FewAxes(InputShape(p, 0)) && FewAxes(OutputShape(p, 0))
    ensures IsValid(p) <==>
      && OffsetsGiven(p) && (p.itype, p.otype) in TYPE_PAIRS
      && |p.istride| == |p.length| == |p.ostride| && Distinct(InputShape(p, 0)) && Distinct(OutputShape(p, 0))
  {
    ValidOutOfPlaceWhen(p);
    hide LayoutFits, Distinct, FewAxes;
    FewAxesFit(InputShape(p, 0));
    FewAxesFit(OutputShape(p, 0));
  }

  // ---------------------------------------------------------------- in place

  /** The offsets of input and output are the same, buffer by buffer. */
  predicate OffsetsAgree(p: Params)
    requires OffsetsGiven(p)
  {
    p.ioffset[0] == p.ooffset[0] && (p.itype == p.otype == ComplexPlanar ==> p.ioffset[1] == p.ooffset[1])
  }

  /** Main result in place, complex: one layout for both sides. */
  lemma ValidInPlaceComplexWhen(p: Params)
    requires Decided(p) && p.placement == InPlace && !IsReal(p.transformType)
    ensures IsValid(p) <==>
      && OffsetsGiven(p) && OffsetsAgree(p) && !p.checkOutputStrides
      && (p.itype == p.otype == ComplexInterleaved || p.itype == p.otype == ComplexPlanar)
      && p.istride == p.ostride && (p.nbatch > 1 ==> p.idist == p.odist)
      && LayoutFits(InputShape(p, 0)) && LayoutFits(OutputShape(p, 0))
  {
    TypesAndOffsets(p);
    LayoutSizes(p);
    SameStridesWhen(p);
    hide LayoutOk, LayoutFits, TypesOk, HasOffsets, SameStride, OffsetsOk;
    if (p.itype, p.otype) in TYPE_PAIRS && p.itype == p.otype && OffsetsGiven(p) {
      LayoutsOkWhen(p);
      SameOffsetsWhen(p);
    }
  }

  lemma LayoutSizes(p: Params)
    ensures LayoutOk(ILength(p), p.istride, p.nbatch, p.idist) ==> |p.istride| == |p.length|
    ensures LayoutOk(OLength(p), p.ostride, p.nbatch, p.odist) ==> |p.ostride| == |p.length|
  {
  }

  lemma SameStridesWhen(p: Params)
    ensures p.istride == p.ostride ==> SameStride(p)
    ensures |p.istride| == |p.ostride| && SameStride(p) ==> p.istride == p.ostride
  {
  }

  lemma SameOffsetsWhen(p: Params)
    requires !IsReal(p.transformType) && OffsetsGiven(p) && p.itype == p.otype
    requires p.itype == ComplexInterleaved || p.itype == ComplexPlanar
    ensures OffsetsOk(p) <==> OffsetsAgree(p)
  {
    assert OffsetsOk(p) ==> SameOffset(p, 0);
    assert OffsetsOk(p) && p.itype == ComplexPlanar ==> SameOffset(p, 1);
  }

  /** A cell has the same place in two layouts of one box. */
  ghost predicate SamePlaces(v: Shape, w: Shape)
    requires |v.length| == |v.stride| && w.length == v.length && |w.length| == |w.stride| && w.nbatch == v.nbatch
  {
    forall b: nat, x :: Cell(v, b, x) ==> Place(v, b, x) == Place(w, b, x)
  }

  /** The multi-index one step along axis `k`. */
  function Step(n: nat, k: nat): (x: seq<nat>)
    requires k < n
    ensures |x| == n && forall i :: 0 <= i < n ==> x[i] == if i == k then 1 else 0
  {
    seq(n, i => if i == k then 1 else 0)
  }

  lemma StepPlace(v: Shape, k: nat)
    requires |v.length| == |v.stride| && k < |v.length|
    ensures Place(v, 0, Step(|v.length|, k)) == v.stride[k] + v.offset
  {
    var z := Zeros(|v.length| - 1);
    assert Step(|v.length|, k) == Insert(z, k, 1);
    DotInsert(z, v.stride, k, 1);
    DotZeros(Drop(v.stride, k));
  }

  lemma ZeroPlace(v: Shape, b: nat)
    requires |v.length| == |v.stride|
    ensures Place(v, b, Zeros(|v.length|)) == Times(b, v.dist) + v.offset
  {
    DotZeros(v.stride);
  }

  /** Layouts give all cells the same places exactly when strides of long axes, distances and offsets agree. */
  lemma SamePlacesWhen(v: Shape, w: Shape)
    requires |v.length| == |v.stride| && w.length == v.length && |w.length| == |w.stride|
    requires w.nbatch == v.nbatch > 0 && AllPositive(v.length)
    ensures SamePlaces(v, w) <==>
      && v.offset == w.offset && (v.nbatch > 1 ==> v.dist == w.dist)
      && forall k :: 0 <= k < |v.length| && v.length[k] > 1 ==> v.stride[k] == w.stride[k]
  {
    var n := |v.length|;
    if SamePlaces(v, w) {
      assert Cell(v, 0, Zeros(n)) && (v.nbatch > 1 ==> Cell(v, 1, Zeros(n)));
      ZeroPlace(v, 0);
      ZeroPlace(w, 0);
      if v.nbatch > 1 {
        ZeroPlace(v, 1);
        ZeroPlace(w, 1);
        assert Times(1, v.dist) == v.dist && Times(1, w.dist) == w.dist;
      }
      forall k | 0 <= k < n && v.length[k] > 1 ensures v.stride[k] == w.stride[k] {
        assert Cell(v, 0, Step(n, k));
        StepPlace(v, k);
        StepPlace(w, k);
      }
    }
    if v.offset == w.offset && (v.nbatch > 1 ==> v.dist == w.dist)
       && forall k :: 0 <= k < n && v.length[k] > 1 ==> v.stride[k] == w.stride[k] {
      forall b: nat, x | Cell(v, b, x) ensures Place(v, b, x) == Place(w, b, x) {
        SameDot(x, v.length, v.stride, w.stride);
      }
    }
  }

  lemma {:induction false} SameDot(x: seq<nat>, l: seq<nat>, s: seq<nat>, t: seq<nat>)
    requires |l| == |s| == |t| && InBox(x, l) && forall k :: 0 <= k < |l| && l[k] > 1 ==> s[k] == t[k]
    ensures Dot(x, s) == Dot(x, t)
  {
    if x != [] {
      assert x[0] < l[0] && InBox(x[1..], l[1..]);
      SameDot(x[1..], l[1..], s[1..], t[1..]);
    }
  }

  /** A valid in-place complex transform has every cell of every batch where it was. */
  lemma InPlaceComplexCellsStay(p: Params)
    requires IsValid(p) && p.placement == InPlace && !IsReal(p.transformType) && AllPositive(p.length) && p.nbatch > 0
    ensures |p.istride| == |p.ostride| == |p.length| && OffsetsGiven(p)
    ensures SamePlaces(InputShape(p, 0), OutputShape(p, 0))
    ensures p.itype == ComplexPlanar ==> SamePlaces(InputShape(p, 1), OutputShape(p, 1))
  {
    TypesAndOffsets(p);
    LayoutSizes(p);
    SameStridesWhen(p);
    SameOffsetsWhen(p);
    hide SamePlaces, LayoutOk, SameStride, OffsetsOk;
    SamePlacesWhen(InputShape(p, 0), OutputShape(p, 0));
    if p.itype == ComplexPlanar {
      SamePlacesWhen(InputShape(p, 1), OutputShape(p, 1));
    }
  }

  // ---------------------------------------------------------- in place, real

  /** The first buffers start at the same address: a complex element is as wide as two real ones. */
  predicate StartsAgree(p: Params)
    requires OffsetsGiven(p)
  {
    if p.transformType == RealForward then p.ioffset[0] == 2 * p.ooffset[0] else 2 * p.ioffset[0] == p.ooffset[0]
  }

  /** Main result in place, real: unit strides along the last axis, and a common start. */
  lemma ValidInPlaceRealWhen(p: Params)
    requires Decided(p) && p.placement == InPlace && IsReal(p.transformType) && p.length != []
    ensures IsValid(p) <==>
      && OffsetsGiven(p) && StartsAgree(p) && !p.checkOutputStrides
      && (p.itype, p.otype) in INPLACE_PAIRS
      && LayoutFits(InputShape(p, 0)) && LayoutFits(OutputShape(p, 0))
      && p.istride[|p.length| - 1] == p.ostride[|p.length| - 1] == 1
  {
    TypesAndOffsets(p);
    LayoutSizes(p);
    hide LayoutOk, TypesOk, HasOffsets, MixesPlanar, Distinct, Unnoticed;
    if OffsetsGiven(p) {
      LayoutsOkWhen(p);
    }
  }

  /** The multi-index of entry `m` of the first row. */
  function InRow(n: nat, m: nat): (x: seq<nat>)
    requires n > 0
    ensures |x| == n
  {
    Zeros(n - 1) + [m]
  }

  lemma RowPlace(v: Shape, m: nat)
    requires |v.length| == |v.stride| > 0 && v.stride[|v.stride| - 1] == 1
    ensures Place(v, 0, InRow(|v.length|, m)) == v.offset + m
  {
    var n := |v.length|;
    DotSnoc(InRow(n, m), v.stride);
    assert InRow(n, m)[..n - 1] == Zeros(n - 1);
    DotZeros(v.stride[..n - 1]);
  }

  /**
   A valid in-place real transform: both data start at one address, and elements 2j
   and 2j + 1 of the first real row are where the j-th complex element of it is.
   */
  lemma InPlaceRealRowsOverlay(p: Params, j: nat)
    requires IsValid(p) && p.placement == InPlace && IsReal(p.transformType)
    ensures |p.istride| == |p.ostride| == |p.length| > 0 && OffsetsGiven(p)
    ensures var n, r, c := |p.length|, RealShape(p), ComplexShape(p);
      && Place(r, 0, Zeros(n)) == 2 * Place(c, 0, Zeros(n))
      && Place(r, 0, InRow(n, 2 * j)) == 2 * Place(c, 0, InRow(n, j))
      && Place(r, 0, InRow(n, 2 * j + 1)) == 2 * Place(c, 0, InRow(n, j)) + 1
  {
    TypesAndOffsets(p);
    LayoutSizes(p);
    hide LayoutOk, TypesOk;
    ZeroPlace(RealShape(p), 0);
    ZeroPlace(ComplexShape(p), 0);
    RowPlace(RealShape(p), 2 * j);
    RowPlace(RealShape(p), 2 * j + 1);
    RowPlace(ComplexShape(p), j);
  }

  function RealShape(p: Params): Shape
    requires OffsetsGiven(p)
  {
    if p.transformType == RealForward then InputShape(p, 0) else OutputShape(p, 0)
  }

  function ComplexShape(p: Params): Shape
    requires OffsetsGiven(p)
  {
    if p.transformType == RealForward then OutputShape(p, 0) else InputShape(p, 0)
  }
}
