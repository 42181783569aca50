/** The fft_params class of shared/fft_params.h: its fields, filled in and checked in place. */
module FftParams {
  import opened Arith
  import opened Distribution
  import opened ArrayValidator
  import opened Ptrdiff
  import opened Options
  import opened Problems
  import opened Strings
  import opened Tokens
  import opened TokenStreams

  class FftParams {
    var length: seq<nat>
    var istride: seq<nat>
    var ostride: seq<nat>
    var nbatch: nat
    var precision: Precision
    var transformType: TransformType
    var placement: Placement
    var idist: nat
    var odist: nat
    var itype: ArrayType
    var otype: ArrayType
    var ioffset: seq<nat>
    var ooffset: seq<nat>
    var isize: seq<nat>
    var osize: seq<nat>
    var runCallbacks: bool
    var checkOutputStrides: bool
    var scaleFactor: real
    var ifields: seq<Field>
    var ofields: seq<Field>
    var multiGpu: nat
    var mpLib: MpLib

    /** The fields that describe the transform, as one value. */
    function View(): Params
      reads this
    {
      Params(length, istride, ostride, nbatch, precision, transformType, placement, idist, odist, itype, otype,
             ioffset, ooffset, isize, osize, runCallbacks, checkOutputStrides, scaleFactor, ifields, ofields, multiGpu)
    }

    /** The description a default-constructed object holds. */
    constructor ()
      ensures View() == Fresh()
    {
      length, istride, ostride, nbatch := [], [], [], 1;
      precision, transformType, placement := Single, ComplexForward, InPlace;
      idist, odist, itype, otype := 0, 0, Unset, Unset;
      ioffset, ooffset, isize, osize := [0, 0], [0, 0], [], [];
      runCallbacks, checkOutputStrides, scaleFactor := false, false, 1.0;
      ifields, ofields, multiGpu, mpLib := [], [], 0, NoMpLib;
    }

    /** set_iotypes. */
    method SetIoTypes()
      modifies this
      ensures View() == WithTypes(old(View()))
    {
      if itype == Unset {
        itype := DefaultIType(transformType);
      }
      if otype == Unset {
        otype := DefaultOType(transformType);
      }
    }

    /** compute_stride; the dimension is that of the length given. */
    method ComputeStride(len: seq<nat>, stride0: seq<nat>, rcPadding: bool) returns (r: seq<nat>)
      requires len != [] && |stride0| <= |len|
      ensures r == Strides(len, stride0, rcPadding)
    {
      var dim := |len|;
      var stride := new nat[dim](_ => 0);
      var dimOffset := 0;
      if |stride0| == 0 {
        stride[dim - 1] := 1;
        dimOffset := 1;
        assert stride[dim - 1..] == [1];
      } else {
        for i := 0 to |stride0|
          invariant stride[dim - |stride0|..dim - |stride0| + i] == stride0[..i]
        {
          stride[dim - |stride0| + i] := stride0[i];
        }
        assert stride[dim - |stride0|..] == stride0[..|stride0|] == stride0;
      }
      FillOuterStrides(len, stride, dimOffset + |stride0|, rcPadding);
      assert stride[0..] == stride[..];
      r := stride[..];
    }

    /** The strides of the slower axes, from the last one given to the slowest. */
    method FillOuterStrides(len: seq<nat>, stride: array<nat>, given: nat, rcPadding: bool)
      requires stride.Length == |len| && 0 < given <= |len|
      modifies stride
      ensures stride[..] == Extend(len, old(stride[|len| - given..]), rcPadding)
    {
      var dim := |len|;
      var i := dim - given;
      while i > 0
        invariant 0 <= i <= dim - given
        invariant Extend(len, old(stride[dim - given..]), rcPadding) == Extend(len, stride[i..], rcPadding)
      {
        i := i - 1;
        var next := len[i + 1];
        if rcPadding && i == dim - 2 {
          next := 2 * (next / 2 + 1);
        }
        ghost var tail := stride[i + 1..];
        assert next == Extent(len, i + 1, rcPadding) && tail[0] == stride[i + 1];
        stride[i] := Times(stride[i + 1], next);
        assert stride[i + 1..] == tail;
        assert stride[i..] == [Times(tail[0], Extent(len, i + 1, rcPadding))] + tail;
      }
      assert stride[0..] == stride[..];
    }

    /** compute_istride and compute_ostride. */
    method ComputeStrides()
      requires Partial(View())
      modifies this`istride, this`ostride
      ensures View() == WithStrides(old(View()))
    {
      istride := ComputeStride(ILength(View()), istride, placement == InPlace && transformType == RealForward);
      ostride := ComputeStride(OLength(View()), ostride, placement == InPlace && transformType == RealInverse);
    }

    /** The loop shared by compute_idist and compute_odist. */
    method ComputeDist(stride: seq<nat>, pad: bool, half: bool) returns (dist: nat)
      requires length != [] && |stride| == |length|
      ensures dist == Distance(length, stride, pad, half)
    {
      if |length| == 1 && pad {
        return Times(2 * (length[0] / 2 + 1), stride[0]);
      }
      if |length| == 1 && half {
        return Times(length[0] / 2 + 1, stride[0]);
      }
      var last := |length| - 1;
      var d := Times(if half then length[last] / 2 + 1 else length[last], stride[last]);
      dist := d;
      for i := 0 to last
        invariant dist == FoldMax(length, stride, i, d)
      {
        var e := Times(length[i], stride[i]);
        dist := if dist < e then e else dist;
      }
    }

    /** set_idist and set_odist. */
    method SetDistances()
      requires length != [] && |istride| == |length| == |ostride|
      modifies this`idist, this`odist
      ensures View() == WithDistances(old(View()))
    {
      if idist == 0 {
        idist := ComputeDist(istride, transformType == RealForward && placement == InPlace, transformType == RealInverse);
      }
      if odist == 0 {
        odist := ComputeDist(ostride, transformType == RealInverse && placement == InPlace, transformType == RealForward);
      }
    }

    /** One size per buffer: the reach of the layout plus the buffer's offset. */
    method ComputeSize(len: seq<nat>, stride: seq<nat>, dist: nat, offset: seq<nat>, n: nat) returns (size: seq<nat>)
      requires |len| == |stride| && n <= |offset|
      requires Reaches(len, stride, nbatch, dist)
      ensures size == Sizes(Reach(len, stride, nbatch, dist), offset, n)
    {
      var val := ComputePtrdiff(len, stride, nbatch, dist);
      size := [];
      for i := 0 to n
        invariant size == Sizes(val, offset, n)[..i]
      {
        size := size + [val + offset[i]];
      }
    }

    /** compute_isize and compute_osize. */
    method ComputeSizes()
      requires |istride| == |length| == |ostride| && HasOffsets(View())
      requires Reaches(ILength(View()), istride, nbatch, idist) && Reaches(OLength(View()), ostride, nbatch, odist)
      modifies this`isize, this`osize
      ensures View() == WithSizes(old(View()))
    {
      isize := ComputeSize(ILength(View()), istride, idist, ioffset, NBuffer(itype));
      osize := ComputeSize(OLength(View()), ostride, odist, ooffset, NBuffer(otype));
    }

    /** validate; `false` when the final check of the fields throws. */
    method Validate() returns (ok: bool)
      requires Partial(View()) && HasOffsets(WithTypes(View())) && Sizable(View())
      modifies this
      ensures View() == Validated(old(View()))
      ensures ok <==> ifields == [] && ofields == [] && multiGpu <= 1
    {
      SetIoTypes();
      ComputeStrides();
      SetDistances();
      ComputeSizes();
      ok := |ifields| == 0 && |ofields| == 0 && !(multiGpu > 1);
    }

    /** valid_length_stride_batch_dist. */
    method ValidLengthStrideBatchDist(l0: seq<nat>, s0: seq<nat>, n: nat, dist: nat) returns (ok: bool)
      requires Checkable(l0, s0, n, dist)
      ensures ok <==> LayoutOk(l0, s0, n, dist)
    {
      if |l0| != |s0| {
        return false;
      }
      var l, s := Batched(l0, n), Batched(s0, dist);
      var found, kl, ks := LongAxesOf(l, s);
      if !found {
        return false;
      }
      KeepIsAxes(l, s);
      KeepOfLong(kl, kl);
      KeepOfLong(kl, ks);
      ok := ArrayValid(kl, ks);
    }

    /** check_iotypes; `false` also when it throws. */
    method CheckIoTypes() returns (ok: bool)
      ensures ok <==> TypesOk(View())
    {
      if itype == Unset || otype == Unset {
        return false;
      }
      if transformType != RealForward && transformType != RealInverse && placement == InPlace && itype != otype {
        return false;
      }
      match itype {
        case ComplexInterleaved | ComplexPlanar => return otype == ComplexInterleaved || otype == ComplexPlanar;
        case HermitianInterleaved | HermitianPlanar => return otype == RealArray;
        case RealArray => return otype == HermitianInterleaved || otype == HermitianPlanar;
        case Unset => return false;
      }
    }

    /** The checks valid() makes on in-place transforms only. */
    method CheckInPlace() returns (ok: bool)
      ensures ok <==> InPlaceOk(View())
    {
      var strideSize := if |istride| < |ostride| then |istride| else |ostride|;
      var sameStride := true;
      for i := 0 to strideSize
        invariant sameStride <==> forall k :: 0 <= k < i ==> istride[k] == ostride[k]
      {
        if istride[i] != ostride[i] {
          sameStride := false;
        }
      }
      var isComplex := transformType == ComplexForward || transformType == ComplexInverse;
      if isComplex && !sameStride {
        return false;
      }
      if isComplex && idist != odist && nbatch > 1 {
        return false;
      }
      if !isComplex && !(UnitLast(istride) && UnitLast(ostride)) {
        return false;
      }
      if (itype == ComplexInterleaved && otype == ComplexPlanar) || (itype == ComplexPlanar && otype == ComplexInterleaved) {
        return false;
      }
      ok := CheckOffsets();
    }

    method CheckOffsets() returns (ok: bool)
      ensures ok <==> OffsetsOk(View())
    {
      match transformType {
        case ComplexForward | ComplexInverse =>
          for i := 0 to NBuffer(itype)
            invariant forall k :: 0 <= k < i ==> SameOffset(View(), k)
          {
            if !SameOffset(View(), i) {
              return false;
            }
          }
          return true;
        case RealForward =>
          return |ioffset| > 0 && |ooffset| > 0 && ioffset[0] == 2 * ooffset[0];
        case RealInverse =>
          return |ioffset| > 0 && |ooffset| > 0 && 2 * ioffset[0] == ooffset[0];
      }
    }

    /** valid; an exception counts as invalid. */
    method Valid() returns (ok: bool)
      requires Checkable(ILength(View()), istride, nbatch, idist)
      requires Checkable(OLength(View()), ostride, nbatch, odist)
      ensures ok <==> IsValid(View())
    {
      if |ioffset| < NBuffer(itype) || |ooffset| < NBuffer(otype) {
        return false;
      }
      if placement == InPlace {
        var inPlace := CheckInPlace();
        if !inPlace {
          return false;
        }
      }
      var types := CheckIoTypes();
      if !types {
        return false;
      }
      if placement == InPlace && checkOutputStrides {
        return false;
      }
      var input := ValidLengthStrideBatchDist(ILength(View()), istride, nbatch, idist);
      if !input {
        return false;
      }
      if !(ILength(View()) == OLength(View()) && istride == ostride && idist == odist) {
        var output := ValidLengthStrideBatchDist(OLength(View()), ostride, nbatch, odist);
        if !output {
          return false;
        }
      }
      return true;
    }

    /** inverse_from_forward; `false` when the given transform is not a forward one. */
    method InverseFromForward(forward: FftParams) returns (ok: bool)
      requires forward != this && forward.scaleFactor != 0.0
      modifies this
      ensures ok <==> IsForward(forward.transformType)
      ensures ok ==> View() == Inverted(old(View()), forward.View())
      ensures !ok ==> View() == old(View())
    {
      var f := forward.View();
      ok := f.transformType == ComplexForward || f.transformType == RealForward;
      if ok {
        SwapFrom(f);
      }
    }

    method SwapFrom(f: Params)
      requires IsForward(f.transformType) && f.scaleFactor != 0.0
      modifies this
      ensures View() == Inverted(old(View()), f)
    {
      SwapLayouts(f);
      SwapTypes(f);
    }

    method SwapLayouts(f: Params)
      modifies `length, `istride, `ostride, `nbatch, `idist, `odist, `ioffset, `ooffset
      ensures length == f.length && istride == f.ostride && ostride == f.istride
      ensures nbatch == f.nbatch && idist == f.odist && odist == f.idist
      ensures ioffset == f.ooffset && ooffset == f.ioffset
    {
      length := f.length;
      istride := f.ostride;
      ostride := f.istride;
      nbatch := f.nbatch;
      idist := f.odist;
      odist := f.idist;
      ioffset := f.ooffset;
      ooffset := f.ioffset;
    }

    method SwapTypes(f: Params)
      requires IsForward(f.transformType) && f.scaleFactor != 0.0
      modifies `transformType, `precision, `placement, `itype, `otype, `runCallbacks, `checkOutputStrides, `scaleFactor
      ensures transformType == if f.transformType == ComplexForward then ComplexInverse else RealInverse
      ensures precision == f.precision && placement == f.placement
      ensures itype == f.otype && otype == f.itype
      ensures runCallbacks == f.runCallbacks && checkOutputStrides == f.checkOutputStrides
      ensures scaleFactor == 1.0 / f.scaleFactor
    {
      transformType := if f.transformType == ComplexForward then ComplexInverse else RealInverse;
      precision := f.precision;
      placement := f.placement;
      itype := f.otype;
      otype := f.itype;
      runCallbacks := f.runCallbacks;
      checkOutputStrides := f.checkOutputStrides;
      scaleFactor := 1.0 / f.scaleFactor;
    }

    /** distribute_input; `false` when the grid has the wrong number of dimensions, which throws. */
    method DistributeInput(localDeviceCount: int, grid: seq<nat>) returns (ok: bool)
      modifies `ifields
      ensures ok <==> |grid| == |length| + 1
      ensures !ok || Unsplit(grid) ==> ifields == old(ifields)
      ensures ok && !Unsplit(grid) ==>
        ifields == old(ifields) + [Field(Distributed(grid, [nbatch] + length, mpLib, localDeviceCount))]
    {
      ok, ifields := DistributeField(mpLib, localDeviceCount, grid, ifields, [nbatch] + length);
    }

    /** distribute_output. */
    method DistributeOutput(localDeviceCount: int, grid: seq<nat>) returns (ok: bool)
      modifies `ofields
      ensures ok <==> |grid| == |length| + 1
      ensures !ok || Unsplit(grid) ==> ofields == old(ofields)
      ensures ok && !Unsplit(grid) ==>
        ofields == old(ofields) + [Field(Distributed(grid, [nbatch] + OLength(View()), mpLib, localDeviceCount))]
    {
      ok, ofields := DistributeField(mpLib, localDeviceCount, grid, ofields, [nbatch] + OLength(View()));
    }

    // ---------------------------------------------------------------- tokens

    method HeaderToken() returns (ret: string)
      ensures ret == Join(HeaderWords(View()))
    {
      hide Join, Tagged, HeaderWords;
      match transformType {
        case ComplexForward => ret := "complex" + "_" + "forward";
        case ComplexInverse => ret := "complex" + "_" + "inverse";
        case RealForward => ret := "real" + "_" + "forward";
        case RealInverse => ret := "real" + "_" + "inverse";
      }
      ghost var first := ret;
      JoinTwo(TransformWords(transformType));
      ret := AppendVector(ret, "len", length);
      ret := ret + "_" + PrecisionWord(precision);
      ret := ret + "_" + PlacementWord(placement);
      ghost var w := ["len"] + Numbers(length);
      AppendWord(first, w, PrecisionWord(precision));
      AppendWord(first, w + [PrecisionWord(precision)], PlacementWord(placement));
      w := w + [PrecisionWord(precision)] + [PlacementWord(placement)];
      ret := AppendSize(ret, "batch", nbatch);
      AppendWords(first, w, ["batch"] + [Decimal(nbatch)]);
      w := w + (["batch"] + [Decimal(nbatch)]);
      JoinConcat(TransformWords(transformType), w);
      HeaderParts(View());
    }

    method AppendSections(r0: string) returns (r: string)
      ensures r == r0 + Tagged(SectionsWords(Sections(View())))
    {
      hide Tagged, SectionsWords;
      ghost var p := View();
      if |ifields| != 0 {
        r := AppendInFields(r0, ifields);
      } else {
        r := AppendTyped(r0, "istride", istride, itype);
        SingleSection(InStride(istride, itype));
      }
      ghost var r1 := r;
      if |ofields| != 0 {
        r := AppendOutFields(r, ofields);
      } else {
        r := AppendTyped(r, "ostride", ostride, otype);
        SingleSection(OutStride(ostride, otype));
      }
      r := AppendScalars(r);
      SectionsWordsConcat(OutSections(p), Scalars(p));
      SectionsWordsConcat(InSections(p), OutSections(p) + Scalars(p));
      AppendWords(r1, SectionsWords(OutSections(p)), SectionsWords(Scalars(p)));
      AppendWords(r0, SectionsWords(InSections(p)), SectionsWords(OutSections(p) + Scalars(p)));
    }

    method AppendScalars(r0: string) returns (r: string)
      ensures r == r0 + Tagged(SectionsWords(Scalars(View())))
    {
      hide Tagged, SectionWords;
      ghost var ss: seq<Section> := [];
      AppendNothing(r0);
      r := r0;
      if |ifields| == 0 {
        AppendSection(r0, ss, InDist(idist));
        r := AppendSizeSection(r, "idist", idist, InDist(idist));
        ss := ss + [InDist(idist)];
      }
      if |ofields| == 0 {
        AppendSection(r0, ss, OutDist(odist));
        r := AppendSizeSection(r, "odist", odist, OutDist(odist));
        ss := ss + [OutDist(odist)];
      }
      if |ifields| == 0 {
        AppendSection(r0, ss, InOffset(ioffset));
        r := AppendVectorSection(r, "ioffset", ioffset, InOffset(ioffset));
        ss := ss + [InOffset(ioffset)];
      }
      if |ofields| == 0 {
        AppendSection(r0, ss, OutOffset(ooffset));
        r := AppendVectorSection(r, "ooffset", ooffset, OutOffset(ooffset));
        ss := ss + [OutOffset(ooffset)];
      }
      assert ss == Scalars(View());
    }

    method AppendFlags(r0: string) returns (r: string)
      ensures r == r0 + Tagged(FlagWords(View()))
    {
      hide Tagged;
      ghost var w: seq<string> := [];
      AppendNothing(r0);
      r := r0;
      if runCallbacks {
        AppendWord(r0, w, "CB");
        r := r + "_" + "CB";
        w := w + ["CB"];
      }
      if scaleFactor != 1.0 {
        AppendWord(r0, w, "scale");
        r := r + "_" + "scale";
        w := w + ["scale"];
      }
      if multiGpu > 1 {
        r := AppendSize(r, "multigpu", multiGpu);
        AppendWords(r0, w, ["multigpu"] + [Decimal(multiGpu)]);
        w := w + (["multigpu"] + [Decimal(multiGpu)]);
      }
      assert w == FlagWords(View());
    }

    /** token. */
    method PrintToken() returns (ret: string)
      ensures ret == Token(View())
    {
      ghost var p := View();
      ret := HeaderToken();
      ret := AppendSections(ret);
      ret := AppendFlags(ret);
      JoinConcat(HeaderWords(p), SectionsWords(Sections(p)) + FlagWords(p));
      AppendWords(Join(HeaderWords(p)), SectionsWords(Sections(p)), FlagWords(p));
    }

    /** The part of a token before its sections. */
    method ParseHeader(vals: seq<string>) returns (ok: bool, pos: nat)
      modifies `transformType, `length, `precision, `placement, `nbatch
      ensures ok <==> TakeHeader(vals, old(View())).Got?
      ensures ok ==> pos <= |vals| && TakeHeader(vals, old(View())) == Got(View(), vals[pos..])
    {
      hide TakeHeader;
      ghost var q := View();
      var t, len, prec, place, n;
      ok, t, len, prec, place, n, pos := HeaderParser(vals, precision, q);
      if ok {
        SetHeader(t, len, prec, place, n);
      }
    }

    method SetHeader(t: TransformType, len: seq<nat>, prec: Precision, place: Placement, n: nat)
      modifies `transformType, `length, `precision, `placement, `nbatch
      ensures transformType == t && length == len && precision == prec && placement == place && nbatch == n
    {
      transformType, length, precision, placement, nbatch := t, len, prec, place, n;
    }

    /** Stores what a section says. */
    method Apply(s: Section)
      modifies `istride, `ostride, `itype, `otype, `idist, `odist, `ioffset, `ooffset, `ifields, `ofields
      ensures View() == Effect(s, old(View()))
    {
      if s.InStride? || s.InDist? || s.InOffset? || s.InField? {
        ApplyInput(s);
      } else {
        ApplyOutput(s);
      }
    }

    method ApplyInput(s: Section)
      requires s.InStride? || s.InDist? || s.InOffset? || s.InField?
      modifies `istride, `itype, `idist, `ioffset, `ifields
      ensures View() == Effect(s, old(View()))
    {
      match s {
        case InStride(v, t) => istride, itype := v, t;
        case InDist(n) => idist := n;
        case InOffset(v) => ioffset := v;
        case InField(f) => ifields := ifields + [f];
      }
    }

    method ApplyOutput(s: Section)
      requires s.OutStride? || s.OutDist? || s.OutOffset? || s.OutField?
      modifies `ostride, `otype, `odist, `ooffset, `ofields
      ensures View() == Effect(s, old(View()))
    {
      match s {
        case OutStride(v, t) => ostride, otype := v, t;
        case OutDist(n) => odist := n;
        case OutOffset(v) => ooffset := v;
        case OutField(f) => ofields := ofields + [f];
      }
    }

    method ParseCallback(vals: seq<string>, start: nat) returns (pos: nat)
      requires start <= |vals|
      modifies `runCallbacks
      ensures pos <= |vals| && TakeCallback(vals[start..], old(View())) == Got(View(), vals[pos..])
    {
      pos := start;
      if pos < |vals| && vals[pos] == "CB" {
        runCallbacks := true;
        pos := pos + 1;
      }
    }

    method ParseScale(vals: seq<string>, start: nat) returns (pos: nat)
      requires start <= |vals|
      modifies `scaleFactor
      ensures pos <= |vals| && TakeScale(vals[start..], old(View())) == Got(View(), vals[pos..])
    {
      pos := start;
      if pos < |vals| && vals[pos] == "scale" {
        scaleFactor := 0.1239;
        pos := pos + 1;
      }
    }

    method ParseMultiGpu(vals: seq<string>, start: nat) returns (ok: bool)
      requires start <= |vals|
      modifies `multiGpu
      ensures ok <==> TakeMultiGpu(vals[start..], old(View())).Some?
      ensures ok ==> TakeMultiGpu(vals[start..], old(View())) == Some(View())
    {
      ok := true;
      if start < |vals| && vals[start] == "multiGPU" {
        var n, pos;
        ok, n, pos := SizeParser(vals, "multiGPU", start);
        if ok {
          multiGpu := n;
        }
      }
    }

    /** The loop over sections, which never looks at the last word. */
    method ParseSections(vals: seq<string>, start: nat) returns (ok: bool, pos: nat)
      requires start <= |vals|
      modifies `istride, `ostride, `itype, `otype, `idist, `odist, `ioffset, `ooffset, `ifields, `ofields
      ensures ok <==> TakeSections(vals[start..], old(View())).Got?
      ensures ok ==> pos <= |vals| && TakeSections(vals[start..], old(View())) == Got(View(), vals[pos..])
    {
      hide TakeSection, Effect;
      ok, pos := true, start;
      ghost var first := View();
      while pos < |vals| - 1 && StartsSection(vals[pos])
        invariant ok && pos <= |vals|
        invariant TakeSections(vals[start..], first) == TakeSections(vals[pos..], View())
        decreases |vals| - pos
      {
        var s;
        ok, s, pos := SectionParser(vals, pos);
        if !ok { return; }
        Apply(s);
      }
    }

    /** from_token; `false` when it throws or runs off the words. */
    method ParseToken(token: string) returns (ok: bool)
      modifies this
      ensures ok <==> FromToken(token, old(View())).Some?
      ensures ok ==> FromToken(token, old(View())) == Some(View())
    {
      hide TakeHeader, TakeSections, TakeCallback, TakeScale, TakeMultiGpu, Split;
      var vals := SplitToken(token);
      var pos;
      ok, pos := ParseHeader(vals);
      if !ok { return; }
      ok, pos := ParseSections(vals, pos);
      if !ok { return; }
      pos := ParseCallback(vals, pos);
      pos := ParseScale(vals, pos);
      ok := ParseMultiGpu(vals, pos);
    }
  }
}
