/**
 distribute_field of shared/fft_params.h: cutting a field into a grid of bricks.
 */
module Distribution {
  import opened Arith
  import opened Layouts
  import opened Partitions
  import opened Problems

  datatype MpLib = NoMpLib | MpiLib

  // ------------------------------------------------------------ one axis

  function PieceLower(length: nat, count: nat, p: nat): nat
    requires p < count
  {
    Times(p, length / count)
  }

  function PieceUpper(length: nat, count: nat, p: nat): nat
    requires p < count
  {
    var upper := PieceLower(length, count, p) + length / count;
    if p == count - 1 || length < upper then length else upper
  }

  /** The piece of the axis that holds entry `e`. */
  function PieceOf(length: nat, count: nat, e: nat): (p: nat)
    requires count > 0
    ensures p < count
  {
    var size := length / count;
    if size == 0 || e / size >= count then count - 1 else e / size
  }

  lemma QuotientBounds(e: nat, size: nat, p: nat)
    requires size > 0
    ensures Times(p, size) <= e <==> p <= e / size
    ensures e < Times(p, size) + size <==> e / size <= p
  {
    var q := e / size;
    TimesIsProduct(p, size);
    if q < p {
      MulStep(q, p, size);
    } else if q > p {
      MulStep(p, q, size);
    }
  }

  lemma {:induction false} TimesZero(p: nat)
    ensures Times(p, 0) == 0
  {
    TimesIsProduct(p, 0);
  }

  /** Entries lie in one piece only; the last piece takes what the division leaves over. */
  lemma PiecesAreExact(length: nat, count: nat, e: nat, p: nat)
    requires p < count && e < length
    ensures PieceLower(length, count, p) <= e < PieceUpper(length, count, p) <==> p == PieceOf(length, count, e)
  {
    var size := length / count;
    if size == 0 {
      TimesZero(p);
    } else {
      QuotientBounds(e, size, p);
    }
  }

  lemma PieceInAxis(length: nat, count: nat, p: nat)
    requires p < count
    ensures PieceLower(length, count, p) <= PieceUpper(length, count, p) <= length
  {
    WholePieces(length, count);
    TimesMono(p, count, length / count);
  }

  // -------------------------------------------------------------- bricks

  function WithAxis(b: Brick, lower: nat, upper: nat): Brick {
    b.(lower := b.lower + [lower], upper := b.upper + [upper])
  }

  /** The bricks given, each extended by piece `p` of the next axis. */
  function Layer(cur: seq<Brick>, length: nat, count: nat, p: nat): (r: seq<Brick>)
    requires p < count
    ensures |r| == |cur|
  {
    seq(|cur|, t requires 0 <= t < |cur| =>
      WithAxis(cur[t], PieceLower(length, count, p), PieceUpper(length, count, p)))
  }

  /** The layers of the first `p` pieces. */
  function Layers(cur: seq<Brick>, length: nat, count: nat, p: nat): seq<Brick>
    requires p <= count
  {
    if p == 0 then [] else Layers(cur, length, count, p - 1) + Layer(cur, length, count, p - 1)
  }

  /** The grid over the first `k` axes. */
  function Grid(grid: seq<nat>, length: seq<nat>, k: nat): seq<Brick>
    requires |grid| == |length| && k <= |grid|
  {
    if k == 0 then [Brick([], [], [], 0, 0)]
    else Layers(Grid(grid, length, k - 1), length[k - 1], grid[k - 1], grid[k - 1])
  }

  predicate Sized(b: Brick) {
    |b.lower| == |b.upper| && forall k :: 0 <= k < |b.lower| ==> b.lower[k] <= b.upper[k]
  }

  function Extents(b: Brick): (r: seq<nat>)
    requires Sized(b)
    ensures |r| == |b.lower| && forall k :: 0 <= k < |r| ==> r[k] == b.upper[k] - b.lower[k]
  {
    seq(|b.lower|, k requires 0 <= k < |b.lower| => b.upper[k] - b.lower[k])
  }

  /** Contiguous strides, and a device or a rank of its own for brick `i` of `n`. */
  function Owned(b: Brick, i: nat, n: nat, lib: MpLib, devices: int): Brick
    requires Sized(b)
  {
    var c := b.(stride := RowStrides(Extents(b)));
    if lib == NoMpLib then c.(device := i)
    else if devices >= n then c.(rank := i, device := i)
    else c.(rank := i)
  }

  function AllOwned(bricks: seq<Brick>, lib: MpLib, devices: int): (r: seq<Brick>)
    requires forall i :: 0 <= i < |bricks| ==> Sized(bricks[i])
    ensures |r| == |bricks|
  {
    seq(|bricks|, i requires 0 <= i < |bricks| => Owned(bricks[i], i, |bricks|, lib, devices))
  }

  /** Within the first axes of the box. */
  ghost predicate Within(b: Brick, length: seq<nat>, k: nat)
    requires k <= |length|
  {
    Sized(b) && |b.lower| == k && forall i :: 0 <= i < k ==> b.upper[i] <= length[i]
  }

  ghost predicate AllWithin(bricks: seq<Brick>, length: seq<nat>, k: nat)
    requires k <= |length|
  {
    forall i :: 0 <= i < |bricks| ==> Within(bricks[i], length, k)
  }

  lemma {:induction false} LayersWithin(cur: seq<Brick>, length: seq<nat>, k: nat, count: nat, p: nat)
    requires p <= count && k < |length| && AllWithin(cur, length, k)
    ensures AllWithin(Layers(cur, length[k], count, p), length, k + 1)
  {
    if p > 0 {
      LayersWithin(cur, length, k, count, p - 1);
      PieceInAxis(length[k], count, p - 1);
    }
  }

  lemma {:induction false} GridWithin(grid: seq<nat>, length: seq<nat>, k: nat)
    requires |grid| == |length| && k <= |grid|
    ensures AllWithin(Grid(grid, length, k), length, k)
  {
    if k > 0 {
      GridWithin(grid, length, k - 1);
      LayersWithin(Grid(grid, length, k - 1), length, k - 1, grid[k - 1], grid[k - 1]);
    }
  }

  /** The bricks distribute_field makes. */
  function Distributed(grid: seq<nat>, length: seq<nat>, lib: MpLib, devices: int): seq<Brick>
    requires |grid| == |length|
  {
    GridWithin(grid, length, |grid|);
    AllOwned(Grid(grid, length, |grid|), lib, devices)
  }

  // ----------------------------------------------------------- the method

  /** The strides of one brick, from fastest to slowest. */
  method BrickStrides(b: Brick) returns (stride: seq<nat>)
    requires Sized(b)
    ensures stride == RowStrides(Extents(b))
  {
    var dim := |b.upper|;
    var s := new nat[dim](_ => 0);
    var dist: nat := 1;
    ghost var e := Extents(b);
    assert e[dim..] == [];
    for k := dim downto 0
      invariant s[k..] == RowStrides(e[k..])
      invariant dist == Product(e[k..])
    {
      s[k] := dist;
      assert e[k..][1..] == e[k + 1..];
      assert s[k..] == [s[k]] + s[k + 1..];
      dist := NextDistance(dist, b.upper[k] - b.lower[k]);
    }
    assert s[0..] == s[..] && e[0..] == e;
    stride := s[..];
  }

  function NextDistance(dist: nat, extent: nat): (r: nat)
    ensures r == extent * dist
  {
    dist * extent
  }

  /** Splits one axis: `count` copies of the bricks so far, each with its piece of the axis. */
  method SplitAxis(cur: seq<Brick>, length: nat, count: nat) returns (bricks: seq<Brick>)
    ensures bricks == Layers(cur, length, count, count)
  {
    bricks := [];
    for p := 0 to count
      invariant bricks == Layers(cur, length, count, p)
    {
      var q := length / count;
      var lower := Times(p, q);
      var upper := if p == count - 1 || length < lower + q then length else lower + q;
      ghost var before := bricks;
      hide Layers, Times;
      for t := 0 to |cur|
        invariant bricks == before + Layer(cur, length, count, p)[..t]
      {
        bricks := bricks + [WithAxis(cur[t], lower, upper)];
        assert Layer(cur, length, count, p)[..t + 1] == Layer(cur, length, count, p)[..t] + [WithAxis(cur[t], lower, upper)];
      }
    }
  }

  /** Contiguous strides and an owner for every brick. */
  method AssignOwners(bricks: seq<Brick>, lib: MpLib, devices: int) returns (owned: seq<Brick>)
    requires forall i :: 0 <= i < |bricks| ==> Sized(bricks[i])
    ensures owned == AllOwned(bricks, lib, devices)
  {
    owned := [];
    for i := 0 to |bricks|
      invariant owned == AllOwned(bricks, lib, devices)[..i]
    {
      var stride := BrickStrides(bricks[i]);
      var b := bricks[i].(stride := stride);
      if lib == NoMpLib {
        b := b.(device := i);
      } else {
        b := b.(rank := i);
        if devices >= |bricks| {
          b := b.(device := b.rank);
        }
      }
      owned := owned + [b];
    }
  }

  predicate Unsplit(grid: seq<nat>) {
    forall k :: 0 <= k < |grid| ==> grid[k] == 1
  }

  /** distribute_field; `false` when the dimensions of grid and field differ, which throws. */
  method DistributeField(lib: MpLib, devices: int, grid: seq<nat>, fields: seq<Field>, length: seq<nat>)
    returns (ok: bool, r: seq<Field>)
    ensures ok <==> |grid| == |length|
    ensures !ok || (forall k :: 0 <= k < |grid| ==> grid[k] == 1) ==> r == fields
    ensures ok && (exists k :: 0 <= k < |grid| && grid[k] != 1) ==> r == fields + [Field(Distributed(grid, length, lib, devices))]
  {
    if |grid| != |length| {
      return false, fields;
    }
    if Unsplit(grid) {
      return true, fields;
    }
    var bricks := [Brick([], [], [], 0, 0)];
    for i := 0 to |grid|
      invariant bricks == Grid(grid, length, i)
    {
      bricks := SplitAxis(bricks, length[i], grid[i]);
    }
    GridWithin(grid, length, |grid|);
    bricks := AssignOwners(bricks, lib, devices);
    return true, fields + [Field(bricks)];
  }

  // ------------------------------------------------------- exactly one owner

  /** The cell `x` of the field lies in the brick. */
  ghost predicate Holds(b: Brick, x: seq<nat>) {
    && |b.lower| == |b.upper| == |x|
    && forall k :: 0 <= k < |x| ==> b.lower[k] <= x[k] < b.upper[k]
  }

  /** How many bricks hold `x`. */
  ghost function Owners(bricks: seq<Brick>, x: seq<nat>): nat {
    if bricks == [] then 0
    else Owners(bricks[..|bricks| - 1], x) + if Holds(bricks[|bricks| - 1], x) then 1 else 0
  }

  lemma {:induction false} OwnersConcat(a: seq<Brick>, b: seq<Brick>, x: seq<nat>)
    ensures Owners(a + b, x) == Owners(a, x) + Owners(b, x)
  {
    if b == [] {
      assert a + b == a;
    } else {
      assert (a + b)[..|a + b| - 1] == a + b[..|b| - 1];
      OwnersConcat(a, b[..|b| - 1], x);
    }
  }

  lemma HoldsWithAxis(b: Brick, lower: nat, upper: nat, x: seq<nat>, e: nat)
    requires |b.lower| == |b.upper|
    ensures Holds(WithAxis(b, lower, upper), x + [e]) <==> Holds(b, x) && lower <= e < upper
  {
    var c, y := WithAxis(b, lower, upper), x + [e];
    if Holds(c, y) {
      forall k | 0 <= k < |x| ensures b.lower[k] <= x[k] < b.upper[k] {
        assert c.lower[k] <= y[k] < c.upper[k];
      }
      assert c.lower[|x|] <= y[|x|] < c.upper[|x|];
    }
  }

  lemma {:induction false} OwnersLayer(cur: seq<Brick>, length: nat, count: nat, p: nat, x: seq<nat>, e: nat)
    requires p < count && forall i :: 0 <= i < |cur| ==> Sized(cur[i])
    ensures Owners(Layer(cur, length, count, p), x + [e]) ==
            if PieceLower(length, count, p) <= e < PieceUpper(length, count, p) then Owners(cur, x) else 0
  {
    if cur != [] {
      var n := |cur| - 1;
      assert Layer(cur, length, count, p)[..n] == Layer(cur[..n], length, count, p);
      OwnersLayer(cur[..n], length, count, p, x, e);
      HoldsWithAxis(cur[n], PieceLower(length, count, p), PieceUpper(length, count, p), x, e);
    }
  }

  lemma {:induction false} OwnersLayers(cur: seq<Brick>, length: nat, count: nat, p: nat, x: seq<nat>, e: nat)
    requires p <= count && 0 < count && e < length
    requires forall i :: 0 <= i < |cur| ==> Sized(cur[i])
    ensures Owners(Layers(cur, length, count, p), x + [e]) == if PieceOf(length, count, e) < p then Owners(cur, x) else 0
  {
    if p > 0 {
      OwnersLayers(cur, length, count, p - 1, x, e);
      OneMoreLayer(cur, length, count, p, x, e);
    }
  }

  lemma OneMoreLayer(cur: seq<Brick>, length: nat, count: nat, p: nat, x: seq<nat>, e: nat)
    requires 0 < p <= count && e < length && forall i :: 0 <= i < |cur| ==> Sized(cur[i])
    ensures Owners(Layers(cur, length, count, p), x + [e]) ==
            Owners(Layers(cur, length, count, p - 1), x + [e]) + if PieceOf(length, count, e) == p - 1 then Owners(cur, x) else 0
  {
    hide Holds, Owners, PieceOf, PieceLower, PieceUpper, Layer, Sized;
    OwnersConcat(Layers(cur, length, count, p - 1), Layer(cur, length, count, p - 1), x + [e]);
    OwnersLayer(cur, length, count, p - 1, x, e);
    PiecesAreExact(length, count, e, p - 1);
  }

  lemma {:induction false} GridCoversOnce(grid: seq<nat>, length: seq<nat>, x: seq<nat>, k: nat)
    requires |grid| == |length| && k <= |grid| && InBox(x, length)
    requires AllPositive(grid)
    ensures Owners(Grid(grid, length, k), x[..k]) == 1
  {
    if k == 0 {
      assert Grid(grid, length, 0)[..0] == [];
    } else {
      GridCoversOnce(grid, length, x, k - 1);
      OneMoreAxis(grid, length, x, k);
    }
  }

  lemma OneMoreAxis(grid: seq<nat>, length: seq<nat>, x: seq<nat>, k: nat)
    requires |grid| == |length| && 0 < k <= |grid| && InBox(x, length)
    requires AllPositive(grid)
    ensures Owners(Grid(grid, length, k), x[..k]) == Owners(Grid(grid, length, k - 1), x[..k - 1])
  {
    hide PieceOf, Layers, Owners, Holds;
    GridWithin(grid, length, k - 1);
    OwnersLayers(Grid(grid, length, k - 1), length[k - 1], grid[k - 1], grid[k - 1], x[..k - 1], x[k - 1]);
    assert x[..k] == x[..k - 1] + [x[k - 1]];
  }

  /** Brick `i` holds `x`, and no other brick does. */
  ghost predicate OnlyOwner(bricks: seq<Brick>, i: nat, x: seq<nat>) {
    i < |bricks| && forall j :: 0 <= j < |bricks| ==> (Holds(bricks[j], x) <==> j == i)
  }

  lemma {:induction false} NoOwner(bricks: seq<Brick>, x: seq<nat>)
    requires Owners(bricks, x) == 0
    ensures forall j :: 0 <= j < |bricks| ==> !Holds(bricks[j], x)
  {
    if bricks != [] {
      NoOwner(bricks[..|bricks| - 1], x);
    }
  }

  lemma {:induction false} OneOwner(bricks: seq<Brick>, x: seq<nat>) returns (i: nat)
    requires Owners(bricks, x) == 1
    ensures OnlyOwner(bricks, i, x)
  {
    var n := |bricks| - 1;
    if Holds(bricks[n], x) {
      NoOwner(bricks[..n], x);
      i := n;
    } else {
      i := OneOwner(bricks[..n], x);
    }
  }

  // ------------------------------------------------------------- brick counts

  lemma {:induction false} LayersCount(cur: seq<Brick>, length: nat, count: nat, p: nat)
    requires p <= count
    ensures |Layers(cur, length, count, p)| == p * |cur|
  {
    if p > 0 {
      LayersCount(cur, length, count, p - 1);
      assert p * |cur| == (p - 1) * |cur| + |cur|;
    }
  }

  lemma {:induction false} GridCount(grid: seq<nat>, length: seq<nat>, k: nat)
    requires |grid| == |length| && k <= |grid|
    ensures |Grid(grid, length, k)| == Product(grid[..k])
  {
    if k > 0 {
      GridCount(grid, length, k - 1);
      LayersCount(Grid(grid, length, k - 1), length[k - 1], grid[k - 1], grid[k - 1]);
      ProductSnoc(grid[..k]);
      assert grid[..k][..k - 1] == grid[..k - 1];
    }
  }

  // --------------------------------------------------------------- memory

  /** Where a brick stores the cell `x`. */
  ghost function Slot(b: Brick, x: seq<nat>): nat
    requires Holds(b, x) && |b.stride| == |x|
  {
    Dot(Relative(b, x), b.stride)
  }

  ghost function Relative(b: Brick, x: seq<nat>): (r: seq<nat>)
    requires Holds(b, x)
    ensures |r| == |x| && forall k :: 0 <= k < |x| ==> r[k] == x[k] - b.lower[k]
  {
    seq(|x|, k requires 0 <= k < |x| => x[k] - b.lower[k])
  }

  ghost predicate StoredAt(b: Brick, x: seq<nat>, n: nat)
    requires Sized(b) && |b.stride| == |b.lower|
  {
    Holds(b, x) && Slot(b, x) == n
  }

  ghost predicate Used(b: Brick, n: nat)
    requires Sized(b) && |b.stride| == |b.lower|
  {
    exists x :: StoredAt(b, x, n)
  }

  /** The brick's cells fill its memory without gap or overlap. */
  ghost predicate Packed(b: Brick)
    requires Sized(b) && |b.stride| == |b.lower|
  {
    && (forall x, n: nat :: StoredAt(b, x, n) ==> n < Product(Extents(b)))
    && (forall x, y, n: nat :: StoredAt(b, x, n) && StoredAt(b, y, n) ==> x == y)
    && (forall n: nat :: n < Product(Extents(b)) ==> Used(b, n))
  }

  lemma SlotIsRank(b: Brick, x: seq<nat>)
    requires Sized(b) && b.stride == RowStrides(Extents(b)) && Holds(b, x)
    ensures InBox(Relative(b, x), Extents(b)) && Slot(b, x) == Rank(Relative(b, x), Extents(b)) < Product(Extents(b))
  {
    RowStridesGiveRank(Relative(b, x), Extents(b));
    RankBound(Relative(b, x), Extents(b));
  }

  lemma SlotsDiffer(b: Brick, x: seq<nat>, y: seq<nat>)
    requires Sized(b) && b.stride == RowStrides(Extents(b)) && Holds(b, x) && Holds(b, y) && Slot(b, x) == Slot(b, y)
    ensures x == y
  {
    SlotIsRank(b, x);
    SlotIsRank(b, y);
    RankInjective(Relative(b, x), Relative(b, y), Extents(b));
    assert forall k :: 0 <= k < |x| ==> x[k] == Relative(b, x)[k] + b.lower[k];
    assert forall k :: 0 <= k < |y| ==> y[k] == Relative(b, y)[k] + b.lower[k];
  }

  lemma SlotIsUsed(b: Brick, n: nat) returns (x: seq<nat>)
    requires Sized(b) && b.stride == RowStrides(Extents(b)) && n < Product(Extents(b))
    ensures StoredAt(b, x, n)
  {
    var u := Unrank(n, Extents(b));
    x := seq(|u|, k requires 0 <= k < |u| => u[k] + b.lower[k]);
    assert Relative(b, x) == u;
    SlotIsRank(b, x);
  }

  lemma ContiguousIsPacked(b: Brick)
    requires Sized(b) && b.stride == RowStrides(Extents(b))
    ensures Packed(b)
  {
    hide Slot, Holds;
    forall x, n: nat | StoredAt(b, x, n) ensures n < Product(Extents(b)) {
      SlotIsRank(b, x);
    }
    forall x, y, n: nat | StoredAt(b, x, n) && StoredAt(b, y, n) ensures x == y {
      SlotsDiffer(b, x, y);
    }
    forall n: nat | n < Product(Extents(b)) ensures Used(b, n) {
      var x := SlotIsUsed(b, n);
    }
  }

  // ----------------------------------------------------------- main result

  lemma {:induction false} SameOwners(a: seq<Brick>, b: seq<Brick>, x: seq<nat>)
    requires |a| == |b| && forall i :: 0 <= i < |a| ==> a[i].lower == b[i].lower && a[i].upper == b[i].upper
    ensures Owners(a, x) == Owners(b, x)
  {
    if a != [] {
      SameOwners(a[..|a| - 1], b[..|b| - 1], x);
    }
  }

  /** For a grid of positive counts, every cell of the field lies in exactly one brick. */
  lemma BricksTileTheField(grid: seq<nat>, length: seq<nat>, lib: MpLib, devices: int, x: seq<nat>) returns (i: nat)
    requires |grid| == |length| && InBox(x, length) && AllPositive(grid)
    ensures OnlyOwner(Distributed(grid, length, lib, devices), i, x)
  {
    var n := |grid|;
    GridWithin(grid, length, n);
    GridCoversOnce(grid, length, x, n);
    assert x[..n] == x;
    SameOwners(Distributed(grid, length, lib, devices), Grid(grid, length, n), x);
    i := OneOwner(Distributed(grid, length, lib, devices), x);
  }

  /** Bricks stay inside the field, one per grid cell; each is packed and has an owner of its own. */
  lemma BricksAreSound(grid: seq<nat>, length: seq<nat>, lib: MpLib, devices: int)
    requires |grid| == |length|
    ensures var bricks := Distributed(grid, length, lib, devices);
      && |bricks| == Product(grid)
      && (forall i, x :: 0 <= i < |bricks| && Holds(bricks[i], x) ==> InBox(x, length))
      && (forall i :: 0 <= i < |bricks| ==> Sized(bricks[i]) && |bricks[i].stride| == |length| && Packed(bricks[i]))
      && (forall i, j :: 0 <= i < j < |bricks| ==> bricks[i].rank != bricks[j].rank || bricks[i].device != bricks[j].device)
  {
    var n := |grid|;
    GridWithin(grid, length, n);
    GridCount(grid, length, n);
    assert grid[..n] == grid;
    var bare, bricks := Grid(grid, length, n), Distributed(grid, length, lib, devices);
    forall i | 0 <= i < |bricks|
      ensures Sized(bricks[i]) && |bricks[i].stride| == |length| && Packed(bricks[i]) && Within(bricks[i], length, n)
    {
      assert Within(bare[i], length, n);
      assert Extents(bricks[i]) == Extents(bare[i]);
      ContiguousIsPacked(bricks[i]);
    }
  }
}
