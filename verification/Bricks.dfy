/**
 The bricks that distribute_field of shared/fft_params.h makes, one by one: where
 the i-th brick lies, and which rank and device own it.
 */
module Bricks {
  import opened Arith
  import opened Layouts
  import opened Problems
  import opened Distribution
  import DeviceGrids

  // ----------------------------------------------------------------- owners

  lemma {:induction false} LayersAreUnowned(cur: seq<Brick>, length: nat, count: nat, p: nat)
    requires p <= count && forall i :: 0 <= i < |cur| ==> cur[i].rank == cur[i].device == 0
    ensures forall b :: b in Layers(cur, length, count, p) ==> b.rank == b.device == 0
  {
    if p > 0 {
      LayersAreUnowned(cur, length, count, p - 1);
    }
  }

  lemma {:induction false} GridIsUnowned(grid: seq<nat>, length: seq<nat>, k: nat)
    requires |grid| == |length| && k <= |grid|
    ensures forall b :: b in Grid(grid, length, k) ==> b.rank == b.device == 0
  {
    if k > 0 {
      GridIsUnowned(grid, length, k - 1);
      LayersAreUnowned(Grid(grid, length, k - 1), length[k - 1], grid[k - 1], grid[k - 1]);
    }
  }

  /**
   Without MPI every brick has a device of its own; with MPI a rank of its own, and a
   device of its own when there are enough.
   */
  lemma OwnerOfBrick(grid: seq<nat>, length: seq<nat>, lib: MpLib, devices: int, i: nat)
    requires |grid| == |length| && i < |Distributed(grid, length, lib, devices)|
    ensures var bricks := Distributed(grid, length, lib, devices);
      && (lib == NoMpLib ==> bricks[i].rank == 0 && bricks[i].device == i)
      && (lib == MpiLib && devices >= |bricks| ==> bricks[i].rank == bricks[i].device == i)
      && (lib == MpiLib && devices < |bricks| ==> bricks[i].rank == i && bricks[i].device == 0)
  {
    GridWithin(grid, length, |grid|);
    GridIsUnowned(grid, length, |grid|);
    assert Grid(grid, length, |grid|)[i] in Grid(grid, length, |grid|);
  }

  /** No two bricks share a device. */
  ghost predicate OwnDevices(bricks: seq<Brick>) {
    forall i, j :: 0 <= i < j < |bricks| ==> bricks[i].device != bricks[j].device
  }

  /** That is so exactly without MPI, or with as many local devices as bricks, or with one brick at most. */
  lemma OwnDevicesWhen(grid: seq<nat>, length: seq<nat>, lib: MpLib, devices: int)
    requires |grid| == |length|
    ensures var bricks := Distributed(grid, length, lib, devices);
            OwnDevices(bricks) <==> lib == NoMpLib || devices >= |bricks| || |bricks| <= 1
  {
    var bricks := Distributed(grid, length, lib, devices);
    hide Distributed;
    forall i | 0 <= i < |bricks|
      ensures bricks[i].device == if lib == NoMpLib || devices >= |bricks| then i else 0
    {
      OwnerOfBrick(grid, length, lib, devices, i);
    }
    if |bricks| > 1 && OwnDevices(bricks) {
      assert bricks[0].device != bricks[1].device;
    }
  }

  // -------------------------------------------------------------- positions

  /** The layer of piece `p` follows those of the pieces before. */
  lemma {:induction false} LayersAt(cur: seq<Brick>, length: nat, count: nat, n: nat, p: nat, t: nat)
    requires p < n <= count && t < |cur|
    ensures |Layers(cur, length, count, n)| == n * |cur| && p * |cur| + t < n * |cur|
    ensures Layers(cur, length, count, n)[p * |cur| + t] == Layer(cur, length, count, p)[t]
  {
    LayersCount(cur, length, count, n);
    LayersCount(cur, length, count, n - 1);
    MulStep(p, n, |cur|);
    if p < n - 1 {
      LayersAt(cur, length, count, n - 1, p, t);
    }
  }

  lemma {:induction false} EncodeSnoc(x: seq<nat>, l: seq<nat>, e: nat, m: nat)
    requires |x| == |l|
    ensures DeviceGrids.Encode(x + [e], 0, l + [m]) == DeviceGrids.Encode(x, 0, l) + e * Product(l)
    decreases l
  {
    if x == [] {
      assert x + [e] == [e] && l + [m] == [m];
      EncodeOne(e, m);
    } else {
      EncodeSnoc(x[1..], l[1..], e, m);
      assert (x + [e])[1..] == x[1..] + [e] && (l + [m])[1..] == l[1..] + [m];
      ScaledSum(l[0], DeviceGrids.Encode(x[1..], 0, l[1..]), e, Product(l[1..]));
    }
  }

  lemma EncodeOne(e: nat, m: nat)
    ensures DeviceGrids.Encode([e], 0, [m]) == e
  {
    assert DeviceGrids.Encode([e][1..], 0, [m][1..]) == 0;
  }

  lemma ScaledSum(a: nat, s: nat, e: nat, p: nat)
    ensures DeviceGrids.Scaled(a, s + e * p) == DeviceGrids.Scaled(a, s) + e * (a * p)
  {
    assert a * (e * p) == e * (a * p);
  }

  /** The brick of the pieces `x`: piece x[k] of axis k, the last taking what the division leaves over. */
  ghost predicate Spans(b: Brick, x: seq<nat>, grid: seq<nat>, length: seq<nat>)
    requires |x| <= |grid| == |length| && AllPositive(grid)
  {
    && |b.lower| == |b.upper| == |x|
    && forall k :: 0 <= k < |x| ==>
         var size := length[k] / grid[k];
         b.lower[k] == x[k] * size && b.upper[k] == if x[k] == grid[k] - 1 then length[k] else (x[k] + 1) * size
  }

  lemma PieceIs(length: nat, count: nat, p: nat)
    requires p < count
    ensures PieceLower(length, count, p) == p * (length / count)
    ensures PieceUpper(length, count, p) == if p == count - 1 then length else (p + 1) * (length / count)
  {
    var size := length / count;
    TimesIsProduct(p, size);
    WholePieces(length, count);
    TimesStep(p, size);
    TimesIsProduct(p + 1, size);
    TimesMono(p + 1, count, size);
  }

  /** Bricks are numbered with the first axis varying fastest. */
  lemma {:induction false} GridAt(grid: seq<nat>, length: seq<nat>, k: nat, x: seq<nat>)
    requires |grid| == |length| && k <= |grid| && InBox(x, grid)
    ensures AllPositive(grid)
    ensures var i := DeviceGrids.Encode(x[..k], 0, grid[..k]);
            i < |Grid(grid, length, k)| && Spans(Grid(grid, length, k)[i], x[..k], grid, length)
  {
    if k > 0 {
      GridAt(grid, length, k - 1, x);
      var cur := Grid(grid, length, k - 1);
      var t := DeviceGrids.Encode(x[..k - 1], 0, grid[..k - 1]);
      GridCount(grid, length, k - 1);
      assert x[..k] == x[..k - 1] + [x[k - 1]] && grid[..k] == grid[..k - 1] + [grid[k - 1]];
      EncodeSnoc(x[..k - 1], grid[..k - 1], x[k - 1], grid[k - 1]);
      LayersAt(cur, length[k - 1], grid[k - 1], grid[k - 1], x[k - 1], t);
      NextAxis(cur[t], grid, length, k, x);
    }
  }

  lemma NextAxis(b: Brick, grid: seq<nat>, length: seq<nat>, k: nat, x: seq<nat>)
    requires |grid| == |length| && 0 < k <= |grid| && InBox(x, grid) && AllPositive(grid)
    requires Spans(b, x[..k - 1], grid, length)
    ensures var l, n, p := length[k - 1], grid[k - 1], x[k - 1];
            Spans(WithAxis(b, PieceLower(l, n, p), PieceUpper(l, n, p)), x[..k], grid, length)
  {
    PieceIs(length[k - 1], grid[k - 1], x[k - 1]);
  }

  /** Main result on places: the i-th brick is that of the i-th grid cell, the first axis varying fastest. */
  lemma BrickSpans(grid: seq<nat>, length: seq<nat>, lib: MpLib, devices: int, x: seq<nat>)
    requires |grid| == |length| && InBox(x, grid)
    ensures AllPositive(grid)
    ensures var bricks, i := Distributed(grid, length, lib, devices), DeviceGrids.Encode(x, 0, grid);
            i < |bricks| && Spans(bricks[i], x, grid, length)
  {
    var n := |grid|;
    GridWithin(grid, length, n);
    GridAt(grid, length, n, x);
    assert x[..n] == x && grid[..n] == grid;
  }

  lemma GridCell(grid: seq<nat>, i: nat)
    requires AllPositive(grid) && i < Product(grid)
    ensures DeviceGrids.Encode(DeviceGrids.Decode(i, grid), 0, grid) == i
  {
    assert DeviceGrids.Scaled(Product(grid), 1) == Product(grid);
    DeviceGrids.BatchBound(i, grid, 1);
    DeviceGrids.EncodeDecode(i, grid);
  }

  lemma BrickCount(grid: seq<nat>, length: seq<nat>, lib: MpLib, devices: int)
    requires |grid| == |length|
    ensures |Distributed(grid, length, lib, devices)| == Product(grid)
  {
    GridCount(grid, length, |grid|);
    assert grid[..|grid|] == grid;
  }

  /** So every brick is one cell of the grid. */
  lemma EveryBrickSpans(grid: seq<nat>, length: seq<nat>, lib: MpLib, devices: int, i: nat)
    requires |grid| == |length| && AllPositive(grid) && i < |Distributed(grid, length, lib, devices)|
    ensures Spans(Distributed(grid, length, lib, devices)[i], DeviceGrids.Decode(i, grid), grid, length)
  {
    hide Distributed, Spans, Product, DeviceGrids.Encode, DeviceGrids.Decode;
    BrickCount(grid, length, lib, devices);
    GridCell(grid, i);
    BrickSpans(grid, length, lib, devices, DeviceGrids.Decode(i, grid));
  }
}
