/**
 shared/index_partition_omp.h: splitting a row-major index space into pieces for
 threads, and walking a piece with the do-while odometer.
 */
module Partitions {
  import opened Arith
  import opened Layouts
  import opened Odometer

  const MAX_PARTITIONS: nat := 8
  const MIN_ITERS_PER_THREAD: nat := 2048

  /** Threads at most, on a machine with `procs` processors. */
  function HwThreads(procs: nat): nat {
    if procs < MAX_PARTITIONS then procs else MAX_PARTITIONS
  }

  /** compute_partition_count. */
  function PartitionCount(iters: nat, procs: nat): (n: nat)
    ensures 1 <= n <= MAX_PARTITIONS
    ensures n > 1 ==> n <= procs && (n - 1) * MIN_ITERS_PER_THREAD <= iters + 1
    ensures n < procs && n < MAX_PARTITIONS ==> iters + 1 < n * MIN_ITERS_PER_THREAD
  {
    var hw := HwThreads(procs);
    var wanted := (iters + MIN_ITERS_PER_THREAD + 1) / MIN_ITERS_PER_THREAD;
    if hw == 0 then 1 else if hw < wanted then hw else wanted
  }

  type Piece = (nat, nat)  // start (inclusive), end (exclusive)

  /** Non-empty pieces, one after the other, from 0 to `length`. */
  ghost predicate Tiles(pieces: seq<Piece>, length: nat) {
    && pieces != [] && pieces[0].0 == 0 && pieces[|pieces| - 1].1 == length
    && (forall i :: 0 <= i < |pieces| ==> pieces[i].0 < pieces[i].1 <= length)
    && (forall i :: 0 <= i < |pieces| - 1 ==> pieces[i].1 == pieces[i + 1].0)
  }

  /** What partition_base returns: as many pieces as wanted or possible, equal but for the last. */
  ghost predicate Splits(ret: seq<Piece>, length: nat, parts: nat) {
    && Tiles(ret, length) && |ret| == (if length < parts then length else parts)
    && forall i :: 0 <= i < |ret| - 1 ==> ret[i].1 - ret[i].0 == length / |ret|
  }

  /** partition_base. */
  method PartitionBase(length: nat, parts: nat) returns (ret: seq<Piece>)
    requires length > 0 && parts > 0
    ensures Splits(ret, length, parts)
  {
    var num := if length < parts then length else parts;
    var size := length / num;
    assert Times(0, size) == 0;
    ret := [];
    var cur := 0;
    hide Times;
    for i := 0 to num
      invariant cur == Times(i, size) && ret == EqualPieces(size, i)
    {
      TimesStep(i, size);
      ret := ret + [(cur, cur + size)];
      cur := cur + size;
    }
    EqualPiecesTile(length, num, size);
    ret := ret[num - 1 := (ret[num - 1].0, length)];
  }

  /** Pieces of `size` entries, before the last takes what the division leaves over. */
  ghost function EqualPieces(size: nat, n: nat): (r: seq<Piece>)
    ensures |r| == n
  {
    seq(n, k requires 0 <= k < n => (Times(k, size), Times(k + 1, size)))
  }

  lemma PieceEnds(length: nat, num: nat, size: nat, k: nat)
    requires k < num <= length && size == length / num
    ensures size > 0 && Times(k + 1, size) == Times(k, size) + size <= length
  {
    hide Times;
    WholePieces(length, num);
    TimesStep(k, size);
    TimesMono(k + 1, num, size);
  }

  lemma CloseLast(all: seq<Piece>, length: nat, size: nat)
    requires all != [] && size > 0 && all[0].0 == 0
    requires forall k :: 0 <= k < |all| ==> all[k].0 + size == all[k].1 <= length
    requires forall k :: 0 <= k < |all| - 1 ==> all[k].1 == all[k + 1].0
    ensures Tiles(Closed(all, length), length)
    ensures forall k :: 0 <= k < |all| - 1 ==> Closed(all, length)[k].1 - Closed(all, length)[k].0 == size
  {
  }

  /** The last piece made to end at `length`. */
  function Closed(all: seq<Piece>, length: nat): (r: seq<Piece>)
    requires all != []
    ensures |r| == |all|
  {
    all[|all| - 1 := (all[|all| - 1].0, length)]
  }

  lemma EqualPiecesTile(length: nat, num: nat, size: nat)
    requires 0 < num <= length && size == length / num
    ensures Tiles(Closed(EqualPieces(size, num), length), length)
    ensures forall k :: 0 <= k < num - 1 ==>
      Closed(EqualPieces(size, num), length)[k].1 - Closed(EqualPieces(size, num), length)[k].0 == size
  {
    PieceEnds(length, num, size, 0);
    hide Closed, Tiles;
    var all := EqualPieces(size, num);
    forall k | 0 <= k < num ensures all[k].0 + size == all[k].1 <= length {
      PieceEnds(length, num, size, k);
    }
    CloseLast(all, length, size);
  }

  // -------------------------------------------------------- ranks of a piece

  /** The whole length with the leftmost axis cut at `e`. */
  function CutAt(e: nat, length: seq<nat>): (r: seq<nat>)
    requires length != []
    ensures |r| == |length|
  {
    [e] + length[1..]
  }

  /** Cells before row `s` of the leftmost axis. */
  function Rows(s: nat, length: seq<nat>): nat
    requires length != []
  {
    s * Product(length[1..])
  }

  lemma CutRank(e: nat, length: seq<nat>, x: seq<nat>)
    requires length != [] && e <= length[0] && InBox(x, CutAt(e, length))
    ensures InBox(x, length) && Rank(x, CutAt(e, length)) == Rank(x, length) < Rows(e, length)
    ensures Product(CutAt(e, length)) == Rows(e, length) <= Product(length)
  {
    assert CutAt(e, length)[1..] == length[1..];
    RankBound(x, CutAt(e, length));
    MulMono(e, length[0], Product(length[1..]));
    forall k | 0 <= k < |length| ensures x[k] < length[k] {
      assert x[k] < CutAt(e, length)[k];
    }
  }

  /** The first index of the piece that starts at row `s`. */
  function PieceStart(s: nat, length: seq<nat>): (r: seq<nat>)
    requires length != []
    ensures |r| == |length|
  {
    [s] + Zeros(|length| - 1)
  }

  lemma PieceStartRank(s: nat, e: nat, length: seq<nat>)
    requires length != [] && s < e <= length[0] && AllPositive(length)
    ensures InBox(PieceStart(s, length), CutAt(e, length))
    ensures Rank(PieceStart(s, length), length) == Rows(s, length)
  {
    assert PieceStart(s, length)[1..] == Zeros(|length[1..]|);
    RankZeros(length[1..]);
  }

  // ----------------------------------------------------------------- shapes

  /** A strided batch of cells inside a buffer of `size` elements. */
  datatype Shape = Shape(length: seq<nat>, stride: seq<nat>, nbatch: nat, dist: nat, offset: nat)

  ghost predicate WellShaped(v: Shape) {
    Positive(v.length) && |v.length| == |v.stride|
  }

  /** compute_index for batch `b`, and the caller's offset. */
  function Place(v: Shape, b: nat, x: seq<nat>): nat
    requires |x| == |v.stride|
  {
    Dot(x, v.stride) + Times(b, v.dist) + v.offset
  }

  /** Every cell lies inside the buffer. */
  ghost predicate Inside(v: Shape, size: nat)
    requires WellShaped(v)
  {
    forall b: nat, x :: b < v.nbatch && InBox(x, v.length) ==> Place(v, b, x) < size
  }

  /** Cell `x` of batch `b`. */
  ghost predicate Cell(v: Shape, b: nat, x: seq<nat>) {
    b < v.nbatch && InBox(x, v.length)
  }

  /** Distinct cells of all batches are at distinct places. */
  ghost predicate Distinct(v: Shape)
    requires |v.length| == |v.stride|
  {
    forall b: nat, x, c: nat, y :: Cell(v, b, x) && Cell(v, c, y) && Place(v, b, x) == Place(v, c, y) ==> b == c && x == y
  }

  // ------------------------------------------------------------------ walks

  /** A fresh index at the start of a piece. */
  method StartIndex(s: nat, e: nat, length: seq<nat>) returns (index: array<nat>)
    requires length != [] && s < e <= length[0] && AllPositive(length)
    ensures fresh(index) && index.Length == |length| && InBox(index[..], CutAt(e, length))
    ensures Rank(index[..], length) == Rows(s, length)
  {
    var start := PieceStart(s, length);
    index := new nat[|length|](k requires 0 <= k < |length| => start[k]);
    assert index[..] == start;
    PieceStartRank(s, e, length);
  }

  /** Step of the odometer over a piece, in ranks of the whole. */
  method NextIndex(index: array<nat>, e: nat, length: seq<nat>) returns (more: bool)
    requires length != [] && e <= length[0] && index.Length == |length| && InBox(index[..], CutAt(e, length))
    modifies index
    ensures InBox(index[..], CutAt(e, length))
    ensures var r := Rank(old(index[..]), length) + 1;
      && (more <==> r < Rows(e, length)) && r <= Rows(e, length)
      && (more ==> Rank(index[..], length) == r)
  {
    CutRank(e, length, index[..]);
    more := IncrementTuple(index, CutAt(e, length));
    CutRank(e, length, index[..]);
  }

  // -------------------------------------------------------- contiguous shapes

  /** Row-major strides of a contiguous array. */
  function RowStrides(length: seq<nat>): (s: seq<nat>)
    ensures |s| == |length|
  {
    if length == [] then [] else [Product(length[1..])] + RowStrides(length[1..])
  }

  lemma {:induction false} RowStridesGiveRank(x: seq<nat>, length: seq<nat>)
    requires |x| == |length|
    ensures Dot(x, RowStrides(length)) == Rank(x, length)
  {
    if x != [] {
      assert RowStrides(length)[1..] == RowStrides(length[1..]);
      RowStridesGiveRank(x[1..], length[1..]);
    }
  }

  lemma {:induction false} RowStridesSuffix(length: seq<nat>, k: nat)
    requires k < |length|
    ensures RowStrides(length)[k] == Product(length[k + 1..])
  {
    if k > 0 {
      RowStridesSuffix(length[1..], k - 1);
      assert length[1..][k..] == length[k + 1..];
    }
  }

  lemma {:induction false} PositiveProduct(l: seq<nat>)
    requires AllPositive(l)
    ensures Product(l) > 0
  {
    if l != [] {
      PositiveProduct(l[1..]);
      MulPositive(l[0], Product(l[1..]));
    }
  }

  // ------------------------------------------------- the promise of enough work

  /** Iterations of piece `i`: its rows of the leftmost axis, times the cells of a row. */
  function Work(ret: seq<Piece>, i: nat, length: seq<nat>): nat
    requires length != [] && i < |ret| && ret[i].0 <= ret[i].1
  {
    Rows(ret[i].1 - ret[i].0, length)
  }

  /** There is one piece only, or each has the least number of iterations. */
  ghost predicate EnoughWork(ret: seq<Piece>, length: seq<nat>)
    requires length != [] && Tiles(ret, length[0])
  {
    |ret| > 1 ==> forall i :: 0 <= i < |ret| ==> Work(ret, i, length) >= MIN_ITERS_PER_THREAD
  }

  lemma {:induction false} PieceStarts(ret: seq<Piece>, length: nat, parts: nat, i: nat)
    requires Splits(ret, length, parts) && i < |ret|
    ensures ret[i].0 == Times(i, length / |ret|)
  {
    if i > 0 {
      PieceStarts(ret, length, parts, i - 1);
      TimesStep(i - 1, length / |ret|);
      assert ret[i - 1].1 == ret[i].0;
    }
  }

  /** The last piece is no smaller than the others. */
  lemma LastPieceIsLargest(ret: seq<Piece>, length: nat, parts: nat)
    requires Splits(ret, length, parts)
    ensures var n := |ret|; ret[n - 1].1 - ret[n - 1].0 >= length / n
  {
    var n := |ret|;
    PieceStarts(ret, length, parts, n - 1);
    TimesStep(n - 1, length / n);
    WholePieces(length, n);
  }

  /** The promise, on the pieces themselves: it holds for one piece or enough rows per piece. */
  lemma EnoughWorkWhen(ret: seq<Piece>, length: seq<nat>, parts: nat)
    requires Positive(length) && Splits(ret, length[0], parts)
    ensures EnoughWork(ret, length) <==> |ret| == 1 || Rows(length[0] / |ret|, length) >= MIN_ITERS_PER_THREAD
  {
    var n, size, row := |ret|, length[0] / |ret|, Product(length[1..]);
    LastPieceIsLargest(ret, length[0], parts);
    forall i | 0 <= i < n
      ensures Work(ret, i, length) >= Rows(size, length) && (i < n - 1 ==> Work(ret, i, length) == Rows(size, length))
    {
      MulMono(size, ret[i].1 - ret[i].0, row);
    }
    if n > 1 && EnoughWork(ret, length) {
      assert Work(ret, 0, length) >= MIN_ITERS_PER_THREAD;
    }
  }

  /** The pieces of a row-major index space, on a machine with `procs` processors. */
  method PartitionRowmajor(length: seq<nat>, procs: nat) returns (ret: seq<Piece>)
    requires Positive(length)
    ensures Splits(ret, length[0], PartitionCount(Product(length), procs))
    ensures EnoughWork(ret, length) <==> |ret| == 1 || Rows(length[0] / |ret|, length) >= MIN_ITERS_PER_THREAD
  {
    ret := PartitionBase(length[0], PartitionCount(Product(length), procs));
    EnoughWorkWhen(ret, length, PartitionCount(Product(length), procs));
  }

  lemma RowsOf2(s: nat, a: nat, b: nat)
    ensures Rows(s, [a, b]) == s * b && Product([a, b]) == a * b
  {
    assert [a, b][1..] == [b] && [b][1..] == [];
    assert Product([b]) == b * Product([b][1..]);
    assert Product([a, b]) == a * Product([a, b][1..]);
  }

  lemma RowsOf1(s: nat, a: nat)
    ensures Rows(s, [a]) == s && Product([a]) == a
  {
    assert [a][1..] == [];
    assert Product([a]) == a * Product([a][1..]);
  }

  /** In one dimension the pieces are small already below one least number of iterations. */
  lemma TooLittleWorkIsSplit(ret: seq<Piece>)
    requires Splits(ret, 2047, PartitionCount(Product([2047]), MAX_PARTITIONS))
    ensures |ret| == 2 && !EnoughWork(ret, [2047])
  {
    RowsOf1(2047 / 2, 2047);
    EnoughWorkWhen(ret, [2047], PartitionCount(Product([2047]), MAX_PARTITIONS));
  }

  /** Enough iterations for each of three threads, but rows of 1300 do not divide evenly: pieces of one row. */
  lemma RowsAreNotDivided(ret: seq<Piece>)
    requires Splits(ret, 5, PartitionCount(Product([5, 1300]), 3))
    ensures |ret| == 3 && 3 * MIN_ITERS_PER_THREAD <= Product([5, 1300]) && !EnoughWork(ret, [5, 1300])
  {
    RowsOf2(1, 5, 1300);
    EnoughWorkWhen(ret, [5, 1300], PartitionCount(Product([5, 1300]), 3));
  }

  /** Too few iterations for the two pieces wanted, but a single row makes a single piece. */
  lemma OneRowIsOnePiece(ret: seq<Piece>)
    requires Splits(ret, 1, PartitionCount(Product([1, 3000]), MAX_PARTITIONS))
    ensures PartitionCount(Product([1, 3000]), MAX_PARTITIONS) == 2 && |ret| == 1 && EnoughWork(ret, [1, 3000])
  {
    RowsOf2(1, 1, 3000);
  }

  /** No threads to split for, less work than a split needs, or a whole least number for every thread. */
  predicate FewOrFull(iters: nat, procs: nat) {
    HwThreads(procs) <= 1 || iters < MIN_ITERS_PER_THREAD - 1 || HwThreads(procs) <= iters / MIN_ITERS_PER_THREAD
  }

  /** In one dimension, the promise in terms of the arguments. */
  lemma EnoughWork1D(ret: seq<Piece>, n: nat, procs: nat)
    requires n > 0 && Splits(ret, n, PartitionCount(Product([n]), procs))
    ensures EnoughWork(ret, [n]) <==> FewOrFull(n, procs)
  {
    RowsOf1(n / |ret|, n);
    EnoughWorkWhen(ret, [n], PartitionCount(n, procs));
    CountedWork(n, procs);
    if n >= PartitionCount(n, procs) {
      QuotientAtLeast(n, PartitionCount(n, procs), MIN_ITERS_PER_THREAD);
    }
  }

  /** The same condition on the count alone. */
  lemma CountedWork(iters: nat, procs: nat)
    ensures FewOrFull(iters, procs) <==>
            PartitionCount(iters, procs) == 1 || PartitionCount(iters, procs) * MIN_ITERS_PER_THREAD <= iters
    ensures PartitionCount(iters, procs) > 1 ==> iters >= MIN_ITERS_PER_THREAD - 1
  {
    var hw, n := HwThreads(procs), PartitionCount(iters, procs);
    assert n <= hw || hw == 0;
  }

  lemma QuotientAtLeast(a: nat, n: nat, m: nat)
    requires n > 0
    ensures a / n >= m <==> n * m <= a
  {
    if a / n < m {
      MulStep(a / n, m, n);
    } else {
      MulMono(m, a / n, n);
    }
  }
}
