/**
 The norms of shared/fft_params.h: exact square sums and maxima over all cells of a
 strided batch, by pieces, and the collapsing of contiguous batches.
 */
module Norms {
  import opened Arith
  import opened Layouts
  import opened Partitions
  import opened Spectra

  // -------------------------------------------------------- values of a cell

  function Abs(v: real): real {
    if v < 0.0 then -v else v
  }

  function Square(v: real): real {
    v * v
  }

  /** Largest of 0 and the absolute values of the first `k` parts. */
  function Peak(parts: seq<real>, k: nat): real
    requires k <= |parts|
  {
    if k == 0 then 0.0 else Max(Peak(parts, k - 1), Abs(parts[k - 1]))
  }

  /** Sum of the squares of the first `k` parts. */
  function Power(parts: seq<real>, k: nat): real
    requires k <= |parts|
  {
    if k == 0 then 0.0 else Power(parts, k - 1) + Square(Abs(parts[k - 1]))
  }

  /** The parts of an element: a real number, or the two of a complex one. */
  function RealParts(): real -> seq<real> {
    (v: real) => [v]
  }

  function ComplexParts(): Complex -> seq<real> {
    (c: Complex) => [c.re, c.im]
  }

  // ---------------------------------------------------------------- batches

  /** Sum of f over batches before `b` and, in batch `b`, ranks before `r`. */
  ghost function SumTo(f: (nat, nat) -> real, n: nat, b: nat, r: nat): real
    decreases b, r
  {
    if r > 0 then SumTo(f, n, b, r - 1) + f(b, r - 1)
    else if b > 0 then SumTo(f, n, b - 1, n) else 0.0
  }

  /** Largest of 0 and the values of f over the same cells. */
  ghost function MaxTo(f: (nat, nat) -> real, n: nat, b: nat, r: nat): real
    decreases b, r
  {
    if r > 0 then Max(MaxTo(f, n, b, r - 1), f(b, r - 1))
    else if b > 0 then MaxTo(f, n, b - 1, n) else 0.0
  }

  /** The parts of the cell of rank `r` in batch `b`. */
  ghost function CellParts<T>(input: seq<T>, parts: T -> seq<real>, v: Shape, b: nat, r: nat): seq<real>
    requires WellShaped(v) && Inside(v, |input|)
  {
    if b < v.nbatch && r < Product(v.length) then parts(input[Place(v, b, Unrank(r, v.length))]) else []
  }

  ghost function PeakCell<T>(input: seq<T>, parts: T -> seq<real>, v: Shape): (nat, nat) -> real
    requires WellShaped(v) && Inside(v, |input|)
  {
    (b: nat, r: nat) => var p := CellParts(input, parts, v, b, r); Peak(p, |p|)
  }

  ghost function PowerCell<T>(input: seq<T>, parts: T -> seq<real>, v: Shape): (nat, nat) -> real
    requires WellShaped(v) && Inside(v, |input|)
  {
    (b: nat, r: nat) => var p := CellParts(input, parts, v, b, r); Power(p, |p|)
  }

  /** The exact sum of squares over all cells of all batches. */
  ghost function SquareSum<T>(input: seq<T>, parts: T -> seq<real>, v: Shape): real
    requires WellShaped(v) && Inside(v, |input|)
  {
    SumTo(PowerCell(input, parts, v), Product(v.length), v.nbatch, 0)
  }

  /** The largest absolute value of a part of a cell. */
  ghost function Largest<T>(input: seq<T>, parts: T -> seq<real>, v: Shape): real
    requires WellShaped(v) && Inside(v, |input|)
  {
    MaxTo(PeakCell(input, parts, v), Product(v.length), v.nbatch, 0)
  }

  lemma CellAt<T>(input: seq<T>, parts: T -> seq<real>, v: Shape, b: nat, x: seq<nat>)
    requires WellShaped(v) && Inside(v, |input|) && b < v.nbatch && InBox(x, v.length)
    ensures CellParts(input, parts, v, b, Rank(x, v.length)) == parts(input[Place(v, b, x)])
  {
    RankBound(x, v.length);
    RankInjective(x, Unrank(Rank(x, v.length), v.length), v.length);
  }

  /** The running results cover the batches before `b` and the ranks before `r`. */
  ghost predicate Covered<T>(input: seq<T>, parts: T -> seq<real>, v: Shape, b: nat, r: nat, sum: real, max: real)
    requires WellShaped(v) && Inside(v, |input|)
  {
    && sum == SumTo(PowerCell(input, parts, v), Product(v.length), b, r)
    && max == MaxTo(PeakCell(input, parts, v), Product(v.length), b, r)
  }

  lemma CoverOne<T>(input: seq<T>, parts: T -> seq<real>, v: Shape, b: nat, x: seq<nat>, sum: real, max: real)
    requires WellShaped(v) && Inside(v, |input|) && b < v.nbatch && InBox(x, v.length)
    requires Covered(input, parts, v, b, Rank(x, v.length), sum, max)
    ensures var p := parts(input[Place(v, b, x)]);
            Covered(input, parts, v, b, Rank(x, v.length) + 1, sum + Power(p, |p|), Max(max, Peak(p, |p|)))
  {
    CellAt(input, parts, v, b, x);
  }

  /** The contribution of one cell to the running results of a piece, part by part. */
  method NormCell<T>(input: seq<T>, parts: T -> seq<real>, v: Shape, b: nat, base: nat, x: seq<nat>,
                     curMax0: real, curSum0: real, ghost sum0: real, ghost max0: real)
    returns (curMax: real, curSum: real)
    requires WellShaped(v) && Inside(v, |input|) && b < v.nbatch && InBox(x, v.length) && base == Times(b, v.dist)
    requires Covered(input, parts, v, b, Rank(x, v.length), sum0 + curSum0, Max(max0, curMax0)) && curMax0 >= 0.0
    ensures Covered(input, parts, v, b, Rank(x, v.length) + 1, sum0 + curSum, Max(max0, curMax)) && curMax >= 0.0
  {
    hide Covered;
    assert Place(v, b, x) == Dot(x, v.stride) + base + v.offset;
    var p := parts(input[Dot(x, v.stride) + base + v.offset]);
    CoverOne(input, parts, v, b, x, sum0 + curSum0, Max(max0, curMax0));
    curMax, curSum := curMax0, curSum0;
    for k := 0 to |p|
      invariant curMax == Max(curMax0, Peak(p, k)) && curSum == curSum0 + Power(p, k)
    {
      var val := Abs(p[k]);
      curMax := Max(val, curMax);
      curSum := curSum + Square(val);
    }
  }

  /** One piece of one batch: the do-while loop of norm_real and norm_complex. */
  method NormPiece<T>(input: seq<T>, parts: T -> seq<real>, v: Shape, b: nat, s: nat, e: nat, base: nat,
                      ghost sum0: real, ghost max0: real)
    returns (curMax: real, curSum: real)
    requires WellShaped(v) && Inside(v, |input|) && b < v.nbatch && s < e <= v.length[0]
    requires base == Times(b, v.dist) && Covered(input, parts, v, b, Rows(s, v.length), sum0, max0) && max0 >= 0.0
    ensures Covered(input, parts, v, b, Rows(e, v.length), sum0 + curSum, Max(max0, curMax))
  {
    hide Covered, Rank, Times, Inside;
    var index := StartIndex(s, e, v.length);
    curMax, curSum := 0.0, 0.0;
    var more := true;
    while more
      invariant InBox(index[..], CutAt(e, v.length)) && curMax >= 0.0
      invariant Covered(input, parts, v, b, if more then Rank(index[..], v.length) else Rows(e, v.length),
                        sum0 + curSum, Max(max0, curMax))
      decreases more, Rows(e, v.length) - Rank(index[..], v.length)
    {
      CutRank(e, v.length, index[..]);
      curMax, curSum := NormCell(input, parts, v, b, base, index[..], curMax, curSum, sum0, max0);
      more := NextIndex(index, e, v.length);
    }
  }

  /** The loops over batches and pieces that both norms share. */
  method Norm<T>(input: seq<T>, parts: T -> seq<real>, v: Shape, pieceCount: nat) returns (sum: real, max: real)
    requires WellShaped(v) && Inside(v, |input|) && pieceCount > 0
    ensures sum == SquareSum(input, parts, v) && max == Largest(input, parts, v)
  {
    var pieces := PartitionBase(v.length[0], pieceCount);
    sum, max := 0.0, 0.0;
    var base := 0;
    for b := 0 to v.nbatch
      invariant base == Times(b, v.dist)
      invariant Covered(input, parts, v, b, 0, sum, max) && max >= 0.0
    {
      for part := 0 to |pieces|
        invariant max >= 0.0
        invariant Covered(input, parts, v, b, Rows(if part < |pieces| then pieces[part].0 else v.length[0], v.length),
                          sum, max)
      {
        var curMax, curSum := NormPiece(input, parts, v, b, pieces[part].0, pieces[part].1, base, sum, max);
        max := Max(max, curMax);
        sum := sum + curSum;
      }
      TimesStep(b, v.dist);
      base := base + v.dist;
    }
  }

  /** norm_real without its square root. */
  method NormReal(input: seq<real>, v: Shape, pieceCount: nat) returns (sum: real, max: real)
    requires WellShaped(v) && Inside(v, |input|) && pieceCount > 0
    ensures sum == SquareSum(input, RealParts(), v) && max == Largest(input, RealParts(), v)
  {
    sum, max := Norm(input, RealParts(), v, pieceCount);
  }

  /** norm_complex without its square root. */
  method NormComplex(input: seq<Complex>, v: Shape, pieceCount: nat) returns (sum: real, max: real)
    requires WellShaped(v) && Inside(v, |input|) && pieceCount > 0
    ensures sum == SquareSum(input, ComplexParts(), v) && max == Largest(input, ComplexParts(), v)
  {
    sum, max := Norm(input, ComplexParts(), v, pieceCount);
  }

  // -------------------------------------------------- contiguous collapsing

  /** Row-major strides, and batches one box apart. */
  ghost predicate Contiguous(length: seq<nat>, stride: seq<nat>, dist: nat) {
    stride == RowStrides(length) && dist == Product(length)
  }

  /** is_contiguous_rowmajor; vectors of different sizes are compared from the back, as far as both go. */
  method IsContiguousRowmajor(length: seq<nat>, stride: seq<nat>, dist: nat) returns (ok: bool)
    ensures var n := if |length| < |stride| then |length| else |stride|;
            ok <==> Contiguous(length[|length| - n..], stride[|stride| - n..], dist)
  {
    var n := if |length| < |stride| then |length| else |stride|;
    ok := IsContiguousTail(length[|length| - n..], stride[|stride| - n..], dist);
  }

  method IsContiguousTail(length: seq<nat>, stride: seq<nat>, dist: nat) returns (ok: bool)
    requires |length| == |stride|
    ensures ok <==> Contiguous(length, stride, dist)
  {
    var expected := 1;
    var k := |length|;
    while k > 0
      invariant 0 <= k <= |length| && expected == Product(length[k..])
      invariant stride[k..] == RowStrides(length[k..])
    {
      k := k - 1;
      RowStridesSuffix(length, k);
      assert length[k..][1..] == length[k + 1..];
      if stride[k] != expected {
        assert stride != RowStrides(length);
        return false;
      }
      assert stride[k..] == [stride[k]] + stride[k + 1..];
      expected := expected * length[k];
    }
    assert length[0..] == length && stride[0..] == stride;
    return expected == dist;
  }

  /** The one-dimensional shape that norm and distance fall back to. */
  function Collapsed(v: Shape): Shape {
    Shape([Times(v.nbatch, Product(v.length))], [1], 1, v.dist, v.offset)
  }

  lemma CollapsedPlace(v: Shape, b: nat, x: seq<nat>)
    requires WellShaped(v) && Contiguous(v.length, v.stride, v.dist) && b < v.nbatch && InBox(x, v.length)
    ensures var k := Times(b, Product(v.length)) + Rank(x, v.length);
      && InBox([k], Collapsed(v).length) && Rank([k], Collapsed(v).length) == k
      && Place(Collapsed(v), 0, [k]) == Place(v, b, x)
  {
    RowStridesGiveRank(x, v.length);
    RankBound(x, v.length);
    TimesBelow(b, v.nbatch, Product(v.length));
    OneAxis(Times(b, Product(v.length)) + Rank(x, v.length), Collapsed(v).length);
  }

  /** Indices of a one-dimensional contiguous layout. */
  lemma OneAxis(k: nat, l: seq<nat>)
    requires |l| == 1
    ensures Rank([k], l) == k && Dot([k], [1]) == k && Product(l) == l[0]
  {
    assert l[1..] == [];
    assert Dot([k][1..], [1][1..]) == 0;
    assert Rank([k][1..], l[1..]) == 0;
  }

  lemma {:induction false} CollapseSum(f: (nat, nat) -> real, g: (nat, nat) -> real, n: nat, m: nat, b: nat, r: nat)
    requires r <= n && forall c: nat, q: nat :: (c < b && q < n) || (c == b && q < r) ==> f(c, q) == g(0, Times(c, n) + q)
    ensures SumTo(f, n, b, r) == SumTo(g, m, 0, Times(b, n) + r)
    ensures MaxTo(f, n, b, r) == MaxTo(g, m, 0, Times(b, n) + r)
    decreases b, r
  {
    if r > 0 {
      CollapseSum(f, g, n, m, b, r - 1);
    } else if b > 0 {
      TimesStep(b - 1, n);
      CollapseSum(f, g, n, m, b - 1, n);
    }
  }

  lemma CollapsedCell<T>(input: seq<T>, parts: T -> seq<real>, v: Shape, b: nat, r: nat)
    requires WellShaped(v) && Inside(v, |input|) && Contiguous(v.length, v.stride, v.dist)
    requires WellShaped(Collapsed(v)) && Inside(Collapsed(v), |input|)
    requires b < v.nbatch && r < Product(v.length)
    ensures CellParts(input, parts, v, b, r) == CellParts(input, parts, Collapsed(v), 0, Times(b, Product(v.length)) + r)
  {
    hide CellParts;
    var x := Unrank(r, v.length);
    CollapsedPlace(v, b, x);
    CellAt(input, parts, v, b, x);
    CellAt(input, parts, Collapsed(v), 0, [Times(b, Product(v.length)) + r]);
  }

  lemma CollapsedCells<T>(input: seq<T>, parts: T -> seq<real>, v: Shape)
    requires WellShaped(v) && Inside(v, |input|) && Contiguous(v.length, v.stride, v.dist)
    requires WellShaped(Collapsed(v)) && Inside(Collapsed(v), |input|)
    ensures forall b: nat, r: nat :: b < v.nbatch && r < Product(v.length) ==>
      && PeakCell(input, parts, v)(b, r) == PeakCell(input, parts, Collapsed(v))(0, Times(b, Product(v.length)) + r)
      && PowerCell(input, parts, v)(b, r) == PowerCell(input, parts, Collapsed(v))(0, Times(b, Product(v.length)) + r)
  {
    hide CellParts, Peak, Power, Inside, Contiguous, Product, Times;
    forall b: nat, r: nat | b < v.nbatch && r < Product(v.length)
      ensures PeakCell(input, parts, v)(b, r) == PeakCell(input, parts, Collapsed(v))(0, Times(b, Product(v.length)) + r)
      ensures PowerCell(input, parts, v)(b, r) == PowerCell(input, parts, Collapsed(v))(0, Times(b, Product(v.length)) + r)
    {
      CollapsedCell(input, parts, v, b, r);
    }
  }

  lemma CollapseKeepsSum<T>(input: seq<T>, parts: T -> seq<real>, v: Shape)
    requires WellShaped(v) && Inside(v, |input|) && Contiguous(v.length, v.stride, v.dist)
    requires WellShaped(Collapsed(v)) && Inside(Collapsed(v), |input|)
    ensures SquareSum(input, parts, Collapsed(v)) == SquareSum(input, parts, v)
  {
    hide Place, Inside, Unrank, Dot, Times;
    CollapsedCells(input, parts, v);
    OneAxis(0, Collapsed(v).length);
    CollapseAll(PowerCell(input, parts, v), PowerCell(input, parts, Collapsed(v)), Product(v.length), v.nbatch);
  }

  lemma CollapseKeepsLargest<T>(input: seq<T>, parts: T -> seq<real>, v: Shape)
    requires WellShaped(v) && Inside(v, |input|) && Contiguous(v.length, v.stride, v.dist)
    requires WellShaped(Collapsed(v)) && Inside(Collapsed(v), |input|)
    ensures Largest(input, parts, Collapsed(v)) == Largest(input, parts, v)
  {
    hide Place, Inside, Unrank, Dot, Times;
    CollapsedCells(input, parts, v);
    OneAxis(0, Collapsed(v).length);
    CollapseAll(PeakCell(input, parts, v), PeakCell(input, parts, Collapsed(v)), Product(v.length), v.nbatch);
  }

  /** A non-empty contiguous batch collapses to one dimension without changing its norms. */
  lemma CollapseKeepsNorms<T>(input: seq<T>, parts: T -> seq<real>, v: Shape)
    requires WellShaped(v) && Inside(v, |input|) && v.nbatch > 0
    requires Contiguous(v.length, v.stride, v.dist)
    ensures WellShaped(Collapsed(v)) && Inside(Collapsed(v), |input|)
    ensures SquareSum(input, parts, Collapsed(v)) == SquareSum(input, parts, v)
    ensures Largest(input, parts, Collapsed(v)) == Largest(input, parts, v)
  {
    CollapsedInside(v, |input|);
    CollapseKeepsSum(input, parts, v);
    CollapseKeepsLargest(input, parts, v);
  }

  lemma CollapseAll(f: (nat, nat) -> real, g: (nat, nat) -> real, n: nat, b: nat)
    requires forall c: nat, q: nat :: c < b && q < n ==> f(c, q) == g(0, Times(c, n) + q)
    ensures SumTo(f, n, b, 0) == SumTo(g, Times(b, n), 1, 0) && MaxTo(f, n, b, 0) == MaxTo(g, Times(b, n), 1, 0)
  {
    CollapseSum(f, g, n, Times(b, n), b, 0);
  }

  lemma CollapsedInside(v: Shape, size: nat)
    requires WellShaped(v) && Inside(v, size) && v.nbatch > 0
    requires Contiguous(v.length, v.stride, v.dist)
    ensures WellShaped(Collapsed(v)) && Inside(Collapsed(v), size)
  {
    var n, w := Product(v.length), Collapsed(v);
    PositiveProduct(v.length);
    TimesIsProduct(v.nbatch, n);
    MulPositive(v.nbatch, n);
    forall b: nat, y | b < 1 && InBox(y, w.length) ensures Place(w, b, y) < size {
      DivModParts(y[0], v.nbatch, n);
      var x := Unrank(y[0] % n, v.length);
      TimesIsProduct(y[0] / n, n);
      CollapsedPlace(v, y[0] / n, x);
      assert y == [y[0]];
      assert Place(v, y[0] / n, x) < size;
    }
  }
}
