/**
 copy_buffers_1to1, 2to1 and 1to2 of shared/fft_params.h: strided copies between
 layouts, piece by piece and batch by batch.
 */
module Copies {
  import opened Arith
  import opened Layouts
  import opened Partitions
  import opened Spectra

  /** compute_index, without the caller's offset. */
  function Index(v: Shape, b: nat, x: seq<nat>): nat
    requires |x| == |v.stride|
  {
    Dot(x, v.stride) + Times(b, v.dist)
  }

  /** Distinct cells of the layout are at distinct places, within a buffer of `size`. */
  ghost predicate CollisionFree(v: Shape, size: nat)
    requires WellShaped(v)
  {
    Inside(v, size) && Distinct(v)
  }

  /** Cell (c, y) comes before rank `r` of batch `b`. */
  ghost predicate Before(v: Shape, c: nat, y: seq<nat>, b: nat, r: nat) {
    Cell(v, c, y) && (c < b || (c == b && Rank(y, v.length) < r))
  }

  /** The logical contents: what the cell (b, x) of a buffer holds. */
  ghost function Held<T>(buf: seq<T>, v: Shape): (nat, seq<nat>) --> T
    requires WellShaped(v) && Inside(v, |buf|)
  {
    (b: nat, x: seq<nat>) requires Cell(v, b, x) => buf[Place(v, b, x)]
  }

  /** No cell before (b, r) is at place `p`. */
  ghost predicate Unreached(v: Shape, p: nat, b: nat, r: nat)
    requires WellShaped(v)
  {
    forall c: nat, y :: Before(v, c, y, b, r) ==> Place(v, c, y) != p
  }

  /** The cells before (b, r) hold what `load` gives for them; all else is as at the start. */
  ghost predicate Filled<T(!new)>(start: seq<T>, buf: seq<T>, src: Shape, dst: Shape, load: nat --> T, b: nat, r: nat)
    requires WellShaped(src) && WellShaped(dst) && dst.length == src.length
    requires Loads(src, dst, load) && CollisionFree(dst, |start|)
  {
    && |buf| == |start|
    && (forall c: nat, y :: Before(dst, c, y, b, r) ==> buf[Place(dst, c, y)] == load(Index(src, c, y)))
    && (forall p :: 0 <= p < |start| && Unreached(dst, p, b, r) ==> buf[p] == start[p])
  }

  /** `load` can be asked for every cell. */
  ghost predicate Loads<T>(src: Shape, dst: Shape, load: nat --> T)
    requires WellShaped(src) && dst.length == src.length
  {
    forall b: nat, x :: Cell(dst, b, x) ==> load.requires(Index(src, b, x))
  }

  lemma FillOne<T(!new)>(start: seq<T>, buf: seq<T>, src: Shape, dst: Shape, load: nat --> T, b: nat, x: seq<nat>)
    requires WellShaped(src) && WellShaped(dst) && dst.length == src.length
    requires Loads(src, dst, load) && CollisionFree(dst, |start|) && Cell(dst, b, x)
    requires Filled(start, buf, src, dst, load, b, Rank(x, dst.length))
    ensures Place(dst, b, x) < |buf| && load.requires(Index(src, b, x))
    ensures Filled(start, buf[Place(dst, b, x) := load(Index(src, b, x))], src, dst, load, b, Rank(x, dst.length) + 1)
  {
    var p, r := Place(dst, b, x), Rank(x, dst.length);
    assert p < |start|;
    assert Before(dst, b, x, b, r + 1);
    forall c: nat, y | Before(dst, c, y, b, r + 1) && !Before(dst, c, y, b, r) ensures c == b && y == x {
      RankInjective(y, x, dst.length);
    }
    forall q | 0 <= q < |start| && Unreached(dst, q, b, r + 1)
      ensures q != p && Unreached(dst, q, b, r)
    {
      forall c: nat, y | Before(dst, c, y, b, r) ensures Place(dst, c, y) != q {
        assert Before(dst, c, y, b, r + 1);
      }
    }
  }

  lemma FillBatch<T(!new)>(start: seq<T>, buf: seq<T>, src: Shape, dst: Shape, load: nat --> T, b: nat)
    requires WellShaped(src) && WellShaped(dst) && dst.length == src.length
    requires Loads(src, dst, load) && CollisionFree(dst, |start|)
    requires Filled(start, buf, src, dst, load, b, Product(dst.length))
    ensures Filled(start, buf, src, dst, load, b + 1, 0)
  {
    forall c: nat, y
      ensures Before(dst, c, y, b, Product(dst.length)) <==> Before(dst, c, y, b + 1, 0)
    {
      if Cell(dst, c, y) {
        RankBound(y, dst.length);
      }
    }
    forall p | 0 <= p < |start| && Unreached(dst, p, b + 1, 0) ensures Unreached(dst, p, b, Product(dst.length)) {
    }
  }

  /** One piece of one batch: the do-while loop of the copies. */
  method CopyPiece<T(!new)>(load: nat --> T, output: array<T>, src: Shape, dst: Shape, b: nat, s: nat, e: nat,
                      idxBase: nat, odxBase: nat, same: bool, ghost start: seq<T>)
    requires WellShaped(src) && WellShaped(dst) && dst.length == src.length && b < dst.nbatch
    requires Loads(src, dst, load) && CollisionFree(dst, |start|) && s < e <= dst.length[0]
    requires idxBase == Times(b, src.dist) && odxBase == Times(b, dst.dist)
    requires same ==> src.stride == dst.stride && src.dist == dst.dist
    requires Filled(start, output[..], src, dst, load, b, Rows(s, dst.length))
    modifies output
    ensures Filled(start, output[..], src, dst, load, b, Rows(e, dst.length))
  {
    hide Filled, Rank, Times, CollisionFree, Loads;
    var index := StartIndex(s, e, dst.length);
    var more := true;
    while more
      invariant InBox(index[..], CutAt(e, dst.length)) && fresh(index)
      invariant Filled(start, output[..], src, dst, load, b,
                       if more then Rank(index[..], dst.length) else Rows(e, dst.length))
      decreases more, Rows(e, dst.length) - Rank(index[..], dst.length)
    {
      CutRank(e, dst.length, index[..]);
      FillOne(start, output[..], src, dst, load, b, index[..]);
      var idx := Dot(index[..], src.stride) + idxBase;
      var odx := if same then idx else Dot(index[..], dst.stride) + odxBase;
      output[odx + dst.offset] := load(idx);
      more := NextIndex(index, e, dst.length);
    }
  }

  /** The loops over batches and pieces that all copies share. */
  method Copy<T(!new)>(load: nat --> T, output: array<T>, src: Shape, dst: Shape, parts: nat)
    requires WellShaped(src) && WellShaped(dst) && dst.length == src.length && parts > 0
    requires Loads(src, dst, load) && CollisionFree(dst, output.Length)
    modifies output
    ensures Filled(old(output[..]), output[..], src, dst, load, dst.nbatch, 0)
  {
    ghost var start := output[..];
    var same := src.stride == dst.stride && src.dist == dst.dist;
    var pieces := PartitionBase(dst.length[0], parts);
    var idxBase, odxBase := 0, 0;
    for b := 0 to dst.nbatch
      invariant idxBase == Times(b, src.dist) && odxBase == Times(b, dst.dist)
      invariant Filled(start, output[..], src, dst, load, b, 0)
    {
      hide Filled, CollisionFree, Loads;
      for part := 0 to |pieces|
        invariant Filled(start, output[..], src, dst, load, b,
                         Rows(if part < |pieces| then pieces[part].0 else dst.length[0], dst.length))
      {
        CopyPiece(load, output, src, dst, b, pieces[part].0, pieces[part].1, idxBase, odxBase, same, start);
      }
      FillBatch(start, output[..], src, dst, load, b);
      TimesStep(b, src.dist);
      TimesStep(b, dst.dist);
      idxBase, odxBase := idxBase + src.dist, odxBase + dst.dist;
    }
  }

  /** Every cell of `to` holds what `f` says; nothing else differs from `before`. */
  ghost predicate Holds<T(!new)>(before: seq<T>, to: seq<T>, dst: Shape, f: (nat, seq<nat>) --> T)
    requires WellShaped(dst) && CollisionFree(dst, |before|)
    requires forall b: nat, x :: Cell(dst, b, x) ==> f.requires(b, x)
  {
    && |to| == |before|
    && (forall b: nat, x :: Cell(dst, b, x) ==> to[Place(dst, b, x)] == f(b, x))
    && (forall p :: 0 <= p < |to| && (forall b: nat, x :: Cell(dst, b, x) ==> Place(dst, b, x) != p) ==> to[p] == before[p])
  }

  lemma FilledHolds<T(!new)>(before: seq<T>, to: seq<T>, src: Shape, dst: Shape, load: nat --> T,
                             f: (nat, seq<nat>) --> T)
    requires WellShaped(src) && WellShaped(dst) && dst.length == src.length
    requires Loads(src, dst, load) && CollisionFree(dst, |before|)
    requires Filled(before, to, src, dst, load, dst.nbatch, 0)
    requires forall b: nat, x :: Cell(dst, b, x) ==> f.requires(b, x) && f(b, x) == load(Index(src, b, x))
    ensures Holds(before, to, dst, f)
  {
    forall b: nat, x | Cell(dst, b, x) ensures to[Place(dst, b, x)] == f(b, x) {
      assert Before(dst, b, x, dst.nbatch, 0);
    }
    forall p | 0 <= p < |to| && (forall b: nat, x :: Cell(dst, b, x) ==> Place(dst, b, x) != p)
      ensures to[p] == before[p]
    {
      assert Unreached(dst, p, dst.nbatch, 0);
    }
  }

  /** copy_buffers_1to1. */
  method CopyBuffers1to1<T(!new)>(input: seq<T>, output: array<T>, src: Shape, dst: Shape, parts: nat)
    requires WellShaped(src) && WellShaped(dst) && parts > 0
    requires dst.length == src.length && dst.nbatch == src.nbatch
    requires Inside(src, |input|) && CollisionFree(dst, output.Length)
    modifies output
    ensures Holds(old(output[..]), output[..], dst, Held(input, src))
  {
    forall b: nat, x | Cell(dst, b, x) ensures Index(src, b, x) + src.offset < |input| {
      assert Place(src, b, x) < |input|;
    }
    var load := (i: nat) requires i + src.offset < |input| => input[i + src.offset];
    Copy(load, output, src, dst, parts);
    FilledHolds(old(output[..]), output[..], src, dst, load, Held(input, src));
  }

  /** The complex values that a planar pair holds. */
  ghost function HeldPair(re: seq<real>, im: seq<real>, v: Shape, w: Shape): (nat, seq<nat>) --> Complex
    requires WellShaped(v) && WellShaped(w) && Inside(v, |re|) && Inside(w, |im|)
    requires w == v.(offset := w.offset)
  {
    (b: nat, x: seq<nat>) requires Cell(v, b, x) => Complex(re[Place(v, b, x)], im[Place(w, b, x)])
  }

  /** copy_buffers_2to1: planar to interleaved. */
  method CopyBuffers2to1(input0: seq<real>, input1: seq<real>, output: array<Complex>,
                         src: Shape, ioffset1: nat, dst: Shape, parts: nat)
    requires WellShaped(src) && WellShaped(dst) && parts > 0
    requires dst.length == src.length && dst.nbatch == src.nbatch
    requires Inside(src, |input0|) && Inside(src.(offset := ioffset1), |input1|) && CollisionFree(dst, output.Length)
    modifies output
    ensures Holds(old(output[..]), output[..], dst, HeldPair(input0, input1, src, src.(offset := ioffset1)))
  {
    var load := (i: nat) requires i + src.offset < |input0| && i + ioffset1 < |input1| =>
      Complex(input0[i + src.offset], input1[i + ioffset1]);
    assert Loads(src, dst, load) by {
      forall b: nat, x | Cell(dst, b, x) ensures load.requires(Index(src, b, x)) {
        assert Place(src, b, x) < |input0| && Place(src.(offset := ioffset1), b, x) < |input1|;
      }
    }
    Copy(load, output, src, dst, parts);
    FilledHolds(old(output[..]), output[..], src, dst, load, HeldPair(input0, input1, src, src.(offset := ioffset1)));
  }

  ghost function Real(f: (nat, seq<nat>) --> Complex): (nat, seq<nat>) --> real {
    (b: nat, x: seq<nat>) requires f.requires(b, x) => f(b, x).re
  }

  ghost function Imag(f: (nat, seq<nat>) --> Complex): (nat, seq<nat>) --> real {
    (b: nat, x: seq<nat>) requires f.requires(b, x) => f(b, x).im
  }

  /** copy_buffers_1to2: interleaved to planar. */
  method CopyBuffers1to2(input: seq<Complex>, output0: array<real>, output1: array<real>,
                         src: Shape, dst: Shape, ooffset1: nat, parts: nat)
    requires WellShaped(src) && WellShaped(dst) && parts > 0 && output0 != output1
    requires dst.length == src.length && dst.nbatch == src.nbatch && Inside(src, |input|)
    requires CollisionFree(dst, output0.Length) && CollisionFree(dst.(offset := ooffset1), output1.Length)
    modifies output0, output1
    ensures Holds(old(output0[..]), output0[..], dst, Real(Held(input, src)))
    ensures Holds(old(output1[..]), output1[..], dst.(offset := ooffset1), Imag(Held(input, src)))
  {
    forall b: nat, x | Cell(dst, b, x) ensures Index(src, b, x) + src.offset < |input| {
      assert Place(src, b, x) < |input|;
    }
    var load0 := (i: nat) requires i + src.offset < |input| => input[i + src.offset].re;
    var load1 := (i: nat) requires i + src.offset < |input| => input[i + src.offset].im;
    var dst1 := dst.(offset := ooffset1);
    Copy(load0, output0, src, dst, parts);
    Copy(load1, output1, src, dst1, parts);
    FilledHolds(old(output0[..]), output0[..], src, dst, load0, Real(Held(input, src)));
    FilledHolds(old(output1[..]), output1[..], src, dst1, load1, Imag(Held(input, src)));
  }

  /** Interleaved to planar to interleaved: the logical contents come back, for any layouts. */
  method ThereAndBack(input: seq<Complex>, re: array<real>, im: array<real>, back: array<Complex>,
                      src: Shape, mid: Shape, offset1: nat, dst: Shape, parts: nat)
    requires WellShaped(src) && WellShaped(mid) && WellShaped(dst) && parts > 0 && re != im
    requires mid.length == dst.length == src.length && mid.nbatch == dst.nbatch == src.nbatch
    requires Inside(src, |input|) && CollisionFree(dst, back.Length)
    requires CollisionFree(mid, re.Length) && CollisionFree(mid.(offset := offset1), im.Length)
    modifies re, im, back
    ensures Holds(old(back[..]), back[..], dst, Held(input, src))
  {
    CopyBuffers1to2(input, re, im, src, mid, offset1, parts);
    CopyBuffers2to1(re[..], im[..], back, mid, offset1, dst, parts);
    forall b: nat, x | Cell(dst, b, x) ensures back[Place(dst, b, x)] == Held(input, src)(b, x) {
      assert Cell(mid, b, x) && Cell(src, b, x) && Cell(mid.(offset := offset1), b, x);
    }
  }

  // ------------------------------------------------------------- written out

  /** What a copied buffer holds, cell by cell. */
  lemma CopiedCells<T(!new)>(before: seq<T>, to: seq<T>, input: seq<T>, src: Shape, dst: Shape)
    requires WellShaped(src) && WellShaped(dst) && dst.length == src.length && dst.nbatch == src.nbatch
    requires Inside(src, |input|) && CollisionFree(dst, |before|)
    requires Holds(before, to, dst, Held(input, src))
    ensures forall b: nat, x :: Cell(dst, b, x) ==> to[Place(dst, b, x)] == input[Place(src, b, x)]
  {
    assert forall b: nat, x :: Cell(dst, b, x) ==> Cell(src, b, x);
  }

  /** A planar pair holds the real and the imaginary parts. */
  lemma CopiedParts(before: seq<real>, re: seq<real>, im: seq<real>, before': seq<real>, input: seq<Complex>,
                    src: Shape, dst: Shape, dst': Shape)
    requires WellShaped(src) && WellShaped(dst) && dst.length == src.length && dst.nbatch == src.nbatch
    requires dst' == dst.(offset := dst'.offset)
    requires Inside(src, |input|) && CollisionFree(dst, |before|) && CollisionFree(dst', |before'|)
    requires Holds(before, re, dst, Real(Held(input, src))) && Holds(before', im, dst', Imag(Held(input, src)))
    ensures forall b: nat, x :: Cell(dst, b, x) ==>
      && re[Place(dst, b, x)] == input[Place(src, b, x)].re && im[Place(dst', b, x)] == input[Place(src, b, x)].im
  {
    assert forall b: nat, x :: Cell(dst, b, x) ==> Cell(src, b, x) && Cell(dst', b, x);
  }

  /** An interleaved buffer holds the pairs. */
  lemma CopiedPairs(before: seq<Complex>, to: seq<Complex>, re: seq<real>, im: seq<real>, src: Shape, src': Shape, dst: Shape)
    requires WellShaped(src) && WellShaped(dst) && dst.length == src.length && dst.nbatch == src.nbatch
    requires src' == src.(offset := src'.offset)
    requires Inside(src, |re|) && Inside(src', |im|) && CollisionFree(dst, |before|)
    requires Holds(before, to, dst, HeldPair(re, im, src, src'))
    ensures forall b: nat, x :: Cell(dst, b, x) ==>
      && to[Place(dst, b, x)].re == re[Place(src, b, x)] && to[Place(dst, b, x)].im == im[Place(src', b, x)]
  {
    assert forall b: nat, x :: Cell(dst, b, x) ==> Cell(src, b, x) && Cell(src', b, x);
  }
}
