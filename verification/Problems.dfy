/**
 Problem descriptions of shared/fft_params.h as values: what the defaults are and
 when a description is valid.
 */
module Problems {
  import opened Arith
  import opened Collisions
  import opened ArrayValidator
  import opened Ptrdiff

  datatype Precision = Half | Single | Double
  datatype TransformType = ComplexForward | ComplexInverse | RealForward | RealInverse
  datatype Placement = InPlace | NotInPlace
  datatype ArrayType =
    ComplexInterleaved | ComplexPlanar | RealArray | HermitianInterleaved | HermitianPlanar | Unset

  /** A box of a field, with its strides in memory and its owner. */
  datatype Brick = Brick(lower: seq<nat>, upper: seq<nat>, stride: seq<nat>, rank: int, device: int)
  datatype Field = Field(bricks: seq<Brick>)

  datatype Params = Params(
    length: seq<nat>, istride: seq<nat>, ostride: seq<nat>, nbatch: nat,
    precision: Precision, transformType: TransformType, placement: Placement,
    idist: nat, odist: nat, itype: ArrayType, otype: ArrayType,
    ioffset: seq<nat>, ooffset: seq<nat>, isize: seq<nat>, osize: seq<nat>,
    runCallbacks: bool, checkOutputStrides: bool, scaleFactor: real,
    ifields: seq<Field>, ofields: seq<Field>, multiGpu: nat)

  predicate IsReal(t: TransformType) {
    t == RealForward || t == RealInverse
  }

  /** `length` with its last entry replaced by the number of stored complex values. */
  function Halved(length: seq<nat>): (r: seq<nat>)
    ensures |r| == |length|
  {
    if length == [] then [] else length[|length| - 1 := length[|length| - 1] / 2 + 1]
  }

  function ILength(p: Params): (r: seq<nat>)
    ensures |r| == |p.length|
  {
    if p.transformType == RealInverse then Halved(p.length) else p.length
  }

  function OLength(p: Params): (r: seq<nat>)
    ensures |r| == |p.length|
  {
    if p.transformType == RealForward then Halved(p.length) else p.length
  }

  function NBuffer(t: ArrayType): nat {
    match t
    case RealArray | ComplexInterleaved | HermitianInterleaved => 1
    case ComplexPlanar | HermitianPlanar => 2
    case Unset => 0
  }

  function DefaultIType(t: TransformType): ArrayType {
    match t
    case ComplexForward | ComplexInverse => ComplexInterleaved
    case RealForward => RealArray
    case RealInverse => HermitianInterleaved
  }

  function DefaultOType(t: TransformType): ArrayType {
    match t
    case ComplexForward | ComplexInverse => ComplexInterleaved
    case RealForward => HermitianInterleaved
    case RealInverse => RealArray
  }

  /** set_iotypes. */
  function WithTypes(p: Params): Params {
    p.(itype := if p.itype == Unset then DefaultIType(p.transformType) else p.itype,
       otype := if p.otype == Unset then DefaultOType(p.transformType) else p.otype)
  }

  // ---------------------------------------------------------------- strides

  /** Room an axis takes in memory: the last one is padded for in-place real data. */
  function Extent(length: seq<nat>, k: nat, pad: bool): nat
    requires k < |length|
  {
    if pad && k == |length| - 1 then 2 * (length[k] / 2 + 1) else length[k]
  }

  /** Strides of the slower axes, computed leftwards from those given for the faster ones. */
  function Extend(length: seq<nat>, s: seq<nat>, pad: bool): (r: seq<nat>)
    requires 0 < |s| <= |length|
    ensures |r| == |length|
    decreases |length| - |s|
  {
    if |s| == |length| then s
    else Extend(length, [Times(s[0], Extent(length, |length| - |s|, pad))] + s, pad)
  }

  /** compute_stride. */
  function Strides(length: seq<nat>, given: seq<nat>, pad: bool): (r: seq<nat>)
    requires length != [] && |given| <= |length|
    ensures |r| == |length|
  {
    Extend(length, if given == [] then [1] else given, pad)
  }

  predicate InputPadded(p: Params) {
    p.placement == InPlace && p.transformType == RealForward
  }

  predicate OutputPadded(p: Params) {
    p.placement == InPlace && p.transformType == RealInverse
  }

  // -------------------------------------------------------------- distances

  /** Largest of `d` and length[i] * stride[i] for i below `k`. */
  function FoldMax(length: seq<nat>, stride: seq<nat>, k: nat, d: nat): nat
    requires |length| == |stride| && k <= |length|
  {
    if k == 0 then d
    else
      var m := FoldMax(length, stride, k - 1, d);
      var e := Times(length[k - 1], stride[k - 1]);
      if m < e then e else m
  }

  /** compute_idist and compute_odist: `pad` for in-place real data, `half` for the complex side. */
  function Distance(length: seq<nat>, stride: seq<nat>, pad: bool, half: bool): nat
    requires |length| == |stride| && length != []
  {
    var last := |length| - 1;
    if pad && |length| == 1 then Times(2 * (length[0] / 2 + 1), stride[0])
    else FoldMax(length, stride, last, Times(if half then length[last] / 2 + 1 else length[last], stride[last]))
  }

  // ------------------------------------------------------------- validation

  /** Strides given in advance cover at most the dimensions there are. */
  predicate Partial(p: Params) {
    p.length != [] && |p.istride| <= |p.length| && |p.ostride| <= |p.length|
  }

  function WithStrides(p: Params): Params
    requires Partial(p)
  {
    p.(istride := Strides(ILength(p), p.istride, InputPadded(p)),
       ostride := Strides(OLength(p), p.ostride, OutputPadded(p)))
  }

  function WithDistances(p: Params): Params
    requires p.length != [] && |p.istride| == |p.length| == |p.ostride|
  {
    p.(idist := if p.idist != 0 then p.idist
                else Distance(p.length, p.istride, InputPadded(p), p.transformType == RealInverse),
       odist := if p.odist != 0 then p.odist
                else Distance(p.length, p.ostride, OutputPadded(p), p.transformType == RealForward))
  }

  function Sizes(reach: nat, offset: seq<nat>, n: nat): (r: seq<nat>)
    requires n <= |offset|
    ensures |r| == n
  {
    seq(n, i requires 0 <= i < n => reach + offset[i])
  }

  predicate HasOffsets(p: Params) {
    |p.ioffset| >= NBuffer(p.itype) && |p.ooffset| >= NBuffer(p.otype)
  }

  function WithSizes(p: Params): Params
    requires |p.istride| == |p.length| == |p.ostride| && HasOffsets(p)
  {
    p.(isize := Sizes(Reach(ILength(p), p.istride, p.nbatch, p.idist), p.ioffset, NBuffer(p.itype)),
       osize := Sizes(Reach(OLength(p), p.ostride, p.nbatch, p.odist), p.ooffset, NBuffer(p.otype)))
  }

  /** validate, up to its final check of the fields. */
  function Validated(p: Params): Params
    requires Partial(p) && HasOffsets(WithTypes(p))
  {
    WithSizes(WithDistances(WithStrides(WithTypes(p))))
  }

  // --------------------------------------------------------------- validity

  /** check_iotypes; false stands for both of its failures, a throw and a mismatch. */
  predicate TypesOk(p: Params) {
    && p.itype != Unset && p.otype != Unset
    && (!IsReal(p.transformType) && p.placement == InPlace ==> p.itype == p.otype)
    && match p.itype
       case ComplexInterleaved | ComplexPlanar => p.otype == ComplexInterleaved || p.otype == ComplexPlanar
       case HermitianInterleaved | HermitianPlanar => p.otype == RealArray
       case RealArray => p.otype == HermitianInterleaved || p.otype == HermitianPlanar
       case Unset => false
  }

  /** The strides agree as far as both are given. */
  predicate SameStride(p: Params) {
    forall i :: 0 <= i < |p.istride| && i < |p.ostride| ==> p.istride[i] == p.ostride[i]
  }

  predicate UnitLast(s: seq<nat>) {
    s != [] && s[|s| - 1] == 1
  }

  predicate SameOffset(p: Params, i: nat) {
    i < |p.ioffset| && i < |p.ooffset| && p.ioffset[i] == p.ooffset[i]
  }

  /** The offsets an in-place transform needs. */
  predicate OffsetsOk(p: Params) {
    match p.transformType
    case ComplexForward | ComplexInverse =>
      forall i :: 0 <= i < NBuffer(p.itype) ==> SameOffset(p, i)
    case RealForward => p.ioffset != [] && p.ooffset != [] && p.ioffset[0] == 2 * p.ooffset[0]
    case RealInverse => p.ioffset != [] && p.ooffset != [] && 2 * p.ioffset[0] == p.ooffset[0]
  }

  predicate MixesPlanar(p: Params) {
    || (p.itype == ComplexInterleaved && p.otype == ComplexPlanar)
    || (p.itype == ComplexPlanar && p.otype == ComplexInterleaved)
  }

  predicate InPlaceOk(p: Params) {
    && (!IsReal(p.transformType) ==> SameStride(p) && (p.nbatch > 1 ==> p.idist == p.odist))
    && (IsReal(p.transformType) ==> UnitLast(p.istride) && UnitLast(p.ostride))
    && !MixesPlanar(p)
    && OffsetsOk(p)
  }

  /** The batch dimension appended to a layout. */
  function Batched(v: seq<nat>, e: nat): (r: seq<nat>)
    ensures |r| == |v| + 1
  {
    v + [e]
  }

  ghost predicate LayoutOk(length: seq<nat>, stride: seq<nat>, nbatch: nat, dist: nat) {
    Accepts(Batched(length, nbatch), Batched(stride, dist))
  }

  /** valid(); an exception counts as invalid. */
  ghost predicate IsValid(p: Params) {
    && HasOffsets(p)
    && (p.placement == InPlace ==> InPlaceOk(p) && !p.checkOutputStrides)
    && TypesOk(p)
    && LayoutOk(ILength(p), p.istride, p.nbatch, p.idist)
    && LayoutOk(OLength(p), p.ostride, p.nbatch, p.odist)
  }

  /** A default-constructed description. */
  function Fresh(): Params {
    Params([], [], [], 1, Single, ComplexForward, InPlace, 0, 0, Unset, Unset,
           [0, 0], [0, 0], [], [], false, false, 1.0, [], [], 0)
  }

  /** The buffers of the filled-in description are sized by a size_t. */
  ghost predicate Sizable(p: Params)
    requires Partial(p)
  {
    var v := WithDistances(WithStrides(p));
    Reaches(ILength(v), v.istride, v.nbatch, v.idist) && Reaches(OLength(v), v.ostride, v.nbatch, v.odist)
  }

  /** The layout checker decides the long axes of the batched layout without wrapping. */
  ghost predicate Checkable(length: seq<nat>, stride: seq<nat>, nbatch: nat, dist: nat) {
    |length| == |stride| ==>
      var l, s := Batched(length, nbatch), Batched(stride, dist);
      |Keep(l, l)| == |Keep(l, s)| && InDomain(Keep(l, l), Keep(l, s))
  }

  // ---------------------------------------------------------------- inverse

  predicate IsForward(t: TransformType) {
    t == ComplexForward || t == RealForward
  }

  /** inverse_from_forward, applied to `q`; the sizes and fields of `q` stay. */
  function Inverted(q: Params, f: Params): Params
    requires IsForward(f.transformType) && f.scaleFactor != 0.0
  {
    q.(transformType := if f.transformType == ComplexForward then ComplexInverse else RealInverse,
       length := f.length, istride := f.ostride, ostride := f.istride, nbatch := f.nbatch,
       precision := f.precision, placement := f.placement, idist := f.odist, odist := f.idist,
       itype := f.otype, otype := f.itype, ioffset := f.ooffset, ooffset := f.ioffset,
       runCallbacks := f.runCallbacks, checkOutputStrides := f.checkOutputStrides,
       scaleFactor := 1.0 / f.scaleFactor)
  }
}
