/**
 The launch grid of the data-generation kernels of shared/data_gen_device.h, in
 32-bit index arithmetic, and the decoding of flat indices into (index, batch).
 */
module DeviceGrids {
  import opened Arith
  import opened Layouts

  const DATA_GEN_THREADS: nat := 8
  const DATA_GEN_GRID_Y_MAX: nat := 64

  /** DivRoundingUp, where the sum fits its type. */
  function DivRoundingUp(a: nat, b: nat): nat
    requires b > 0
  {
    (a + (b - 1)) / b
  }

  /** DivRoundingUp on integers modulo `m`. */
  function RoundedUp(a: nat, b: nat, m: nat): nat
    requires b > 0 && m > 0
  {
    ((a + (b - 1)) % m) / b
  }

  datatype Grid = Grid(x: nat, y: nat)
  datatype Thread = Thread(tx: nat, blockX: nat, blockY: nat)

  /** Blocks needed in all, converted to 32 bits. */
  function Blocks(isize: nat): nat {
    RoundedUp(isize, DATA_GEN_THREADS, TWO64) % TWO32
  }

  /** generate_data_gridDim. */
  function GridDim(isize: nat): Grid {
    var blocks := Blocks(isize);
    Grid(RoundedUp(blocks, DATA_GEN_GRID_Y_MAX, TWO32), if blocks < DATA_GEN_GRID_Y_MAX then blocks else DATA_GEN_GRID_Y_MAX)
  }

  predicate InGrid(t: Thread, g: Grid) {
    t.tx < DATA_GEN_THREADS && t.blockX < g.x && t.blockY < g.y
  }

  /** A thread's flat index: products of 32-bit numbers wrap, the sum does not. */
  function Flat(t: Thread, g: Grid): nat {
    t.tx + t.blockX * DATA_GEN_THREADS % TWO32 + Times(t.blockY, g.x) % TWO32 * DATA_GEN_THREADS % TWO32
  }

  ghost predicate Serves(t: Thread, i: nat, isize: nat) {
    InGrid(t, GridDim(isize)) && Flat(t, GridDim(isize)) == i
  }

  /** The largest size whose flat indices do not overflow. */
  const LIMIT: nat := 4363141120

  lemma BlocksOf(isize: nat)
    requires isize <= 2 * TWO32
    ensures 8 * Blocks(isize) < isize + 8 && isize <= 8 * Blocks(isize)
  {
  }

  /** Shape of the grid for sizes that are not truncated. */
  lemma GridShape(isize: nat)
    requires isize <= 2 * TWO32
    ensures var g := GridDim(isize);
      && 512 * g.x < isize + 512 && isize <= 512 * g.x
      && (g.x > 1 ==> g.y == 64)
      && (g.x == 1 ==> isize <= 8 * g.y)
      && g.y <= 64
  {
    hide Blocks;
    BlocksOf(isize);
  }

  /** A number of rows, times the row length. */
  lemma RowBound(n: nat, m: nat, x: nat)
    requires n <= m
    ensures Times(n, x) == n * x <= m * x && n * (DATA_GEN_THREADS * x) == DATA_GEN_THREADS * Times(n, x)
  {
    TimesIsProduct(n, x);
    MulMono(n, m, x);
    RowProduct(n, x);
  }

  lemma RowProduct(n: nat, x: nat)
    ensures n * (DATA_GEN_THREADS * x) == DATA_GEN_THREADS * (n * x)
  {
  }

  /** Up to the limit nothing wraps: rows of the grid start at multiples of the row length. */
  lemma FlatIsExact(t: Thread, isize: nat)
    requires isize <= LIMIT && InGrid(t, GridDim(isize))
    ensures var row := DATA_GEN_THREADS * GridDim(isize).x;
            Flat(t, GridDim(isize)) == t.blockY * row + (t.tx + t.blockX * DATA_GEN_THREADS) && t.tx + t.blockX * DATA_GEN_THREADS < row
  {
    var g := GridDim(isize);
    GridShape(isize);
    hide GridDim, Flat;
    RowBound(t.blockY, 63, g.x);
    FlatUnwrapped(t, g);
  }

  lemma FlatUnwrapped(t: Thread, g: Grid)
    requires t.blockX * DATA_GEN_THREADS < TWO32 && Times(t.blockY, g.x) * DATA_GEN_THREADS < TWO32
    ensures Flat(t, g) == DATA_GEN_THREADS * Times(t.blockY, g.x) + (t.tx + t.blockX * DATA_GEN_THREADS)
  {
  }

  lemma ThreadOf(i: nat, isize: nat) returns (t: Thread)
    requires i < isize <= LIMIT
    ensures Serves(t, i, isize)
  {
    var g := GridDim(isize);
    GridShape(isize);
    hide GridDim, Flat;
    var y := if g.x > 1 then 64 else g.y;
    assert y * (DATA_GEN_THREADS * g.x) == if g.x > 1 then 512 * g.x else 8 * g.y;
    t := ThreadInGrid(i, g.x, y);
    FlatIsExact(t, isize);
  }

  lemma ThreadInGrid(i: nat, x: nat, y: nat) returns (t: Thread)
    requires x > 0 && i < y * (DATA_GEN_THREADS * x)
    ensures t.blockY < y && t.blockX < x && t.tx < DATA_GEN_THREADS
    ensures i == t.blockY * (DATA_GEN_THREADS * x) + (t.tx + t.blockX * DATA_GEN_THREADS)
  {
    var row := DATA_GEN_THREADS * x;
    QuotRemParts(i, y, row);
    var rest := Rem(i, row);
    t := Thread(rest % DATA_GEN_THREADS, rest / DATA_GEN_THREADS, Quot(i, row));
    hide Quot, Rem;
    assert t.tx + t.blockX * DATA_GEN_THREADS == rest;
  }

  lemma ThreadIsUnique(t: Thread, u: Thread, i: nat, isize: nat)
    requires isize <= LIMIT && Serves(t, i, isize) && Serves(u, i, isize)
    ensures t == u
  {
    FlatIsExact(t, isize);
    FlatIsExact(u, isize);
    hide GridDim, Flat;
    ThreadDigits(t, u, DATA_GEN_THREADS * GridDim(isize).x);
  }

  lemma ThreadDigits(t: Thread, u: Thread, row: nat)
    requires t.tx < DATA_GEN_THREADS && t.tx + t.blockX * DATA_GEN_THREADS < row
    requires u.tx < DATA_GEN_THREADS && u.tx + u.blockX * DATA_GEN_THREADS < row
    requires t.blockY * row + (t.tx + t.blockX * DATA_GEN_THREADS) == u.blockY * row + (u.tx + u.blockX * DATA_GEN_THREADS)
    ensures t == u
  {
    DigitsUnique(t.blockY, t.tx + t.blockX * DATA_GEN_THREADS, u.blockY, u.tx + u.blockX * DATA_GEN_THREADS, row);
  }

  // ------------------------------------- one thread index per grid axis

  /** The index a thread computes along one axis: the block's first index wraps at 32 bits. */
  function AxisId(t: nat, block: nat): nat {
    t + block * DATA_GEN_THREADS % TWO32
  }

  /** A thread of an axis launched for `n` indices has index `i`. */
  ghost predicate AxisServes(t: nat, block: nat, i: nat, n: nat) {
    t < DATA_GEN_THREADS && block < Blocks(n) && AxisId(t, block) == i
  }

  ghost predicate AxisServed(i: nat, n: nat) {
    exists t: nat, block: nat :: AxisServes(t, block, i, n)
  }

  lemma BlocksAreExact(n: nat)
    requires n <= TWO32
    ensures Blocks(n) == DivRoundingUp(n, DATA_GEN_THREADS) && DATA_GEN_THREADS * Blocks(n) <= TWO32
  {
  }

  lemma AxisIdUnwrapped(t: nat, block: nat)
    requires DATA_GEN_THREADS * block < TWO32
    ensures AxisId(t, block) == t + DATA_GEN_THREADS * block
  {
  }

  lemma EightfoldDigits(i: nat, n: nat)
    ensures i == i % DATA_GEN_THREADS + DATA_GEN_THREADS * (i / DATA_GEN_THREADS)
    ensures i < DATA_GEN_THREADS * n <==> i / DATA_GEN_THREADS < n
  {
  }

  lemma AxisServesWhen(t: nat, block: nat, i: nat, n: nat)
    requires n <= TWO32
    ensures AxisServes(t, block, i, n) <==>
            t == i % DATA_GEN_THREADS && block == i / DATA_GEN_THREADS && i < DATA_GEN_THREADS * Blocks(n)
  {
    BlocksAreExact(n);
    EightfoldDigits(i, Blocks(n));
    hide Blocks, AxisId;
    if block < Blocks(n) {
      AxisIdUnwrapped(t, block);
    }
  }

  /** Up to 2^32 indices, the threads have the numbers below the rounded-up count, each once. */
  lemma AxisIdsAreExact(n: nat, i: nat)
    requires n <= TWO32
    ensures AxisServed(i, n) <==> i < DivRoundingUp(n, DATA_GEN_THREADS) * DATA_GEN_THREADS
    ensures forall t: nat, block: nat, t': nat, block': nat ::
      AxisServes(t, block, i, n) && AxisServes(t', block', i, n) ==> t == t' && block == block'
  {
    BlocksAreExact(n);
    hide Blocks, AxisServes;
    forall t: nat, block: nat
      ensures AxisServes(t, block, i, n) <==>
              t == i % DATA_GEN_THREADS && block == i / DATA_GEN_THREADS && i < DATA_GEN_THREADS * Blocks(n)
    {
      AxisServesWhen(t, block, i, n);
    }
    assert AxisServed(i, n) <==> AxisServes(i % DATA_GEN_THREADS, i / DATA_GEN_THREADS, i, n);
  }

  /** All `n` indices of an axis have a thread exactly up to 2^32 of them. */
  lemma AxisServedWhen(n: nat)
    requires n < TWO64
    ensures (forall i: nat :: i < n ==> AxisServed(i, n)) <==> n <= TWO32
  {
    if n <= TWO32 {
      forall i: nat | i < n ensures AxisServed(i, n) {
        AxisIdsAreExact(n, i);
      }
    } else {
      assert !AxisServed(TWO32, n);
    }
  }

  // --------------------------------------------------- past the flat limit

  /** An index no thread serves, past the limit. */
  function Missed(isize: nat): nat {
    if isize <= 2 * TWO32 then 504 * GridDim(isize).x else isize - 1
  }

  lemma MissedIsUnserved(isize: nat, t: Thread)
    requires LIMIT < isize < TWO64
    ensures Missed(isize) < isize && !Serves(t, Missed(isize), isize)
  {
    var g := GridDim(isize);
    if isize <= 2 * TWO32 {
      GridShape(isize);
      assert 8521761 <= g.x <= 0x100_0000;
      if InGrid(t, g) {
        FlatBelowLastRow(t, g);
      }
    } else {
      FlatIsSmall(t, isize);
    }
  }

  /** The last row wraps to smaller indices, the others end before it. */
  lemma FlatBelowLastRow(t: Thread, g: Grid)
    requires InGrid(t, g) && g.y <= 64 && 504 * g.x >= TWO32 && g.x <= 0x100_0000
    ensures Flat(t, g) < 504 * g.x
  {
    var n := Times(t.blockY, g.x);
    FlatAtMost(t, g, n);
    if t.blockY <= 62 {
      RowBound(t.blockY, 62, g.x);
    } else {
      RowBound(t.blockY, 63, g.x);
      LastRowWraps(t, g, n);
    }
  }

  lemma FlatAtMost(t: Thread, g: Grid, n: nat)
    requires n == Times(t.blockY, g.x)
    ensures Flat(t, g) <= t.tx + t.blockX * DATA_GEN_THREADS + n * DATA_GEN_THREADS
  {
  }

  lemma LastRowWraps(t: Thread, g: Grid, n: nat)
    requires n == Times(t.blockY, g.x) == 63 * g.x && g.x <= 0x100_0000 && 504 * g.x >= TWO32
    ensures Flat(t, g) + TWO32 <= t.tx + t.blockX * DATA_GEN_THREADS + 504 * g.x
  {
  }

  lemma FlatIsSmall(t: Thread, isize: nat)
    ensures InGrid(t, GridDim(isize)) ==> Flat(t, GridDim(isize)) < 2 * TWO32
  {
  }

  ghost predicate Served(i: nat, isize: nat) {
    exists t :: Serves(t, i, isize)
  }

  /** Main result on the grid: every flat index has a thread exactly up to the limit, and then only one. */
  lemma GridServesAll(isize: nat)
    requires isize < TWO64
    ensures (forall i: nat :: i < isize ==> Served(i, isize)) <==> isize <= LIMIT
    ensures isize <= LIMIT ==> forall i: nat, t, u :: Serves(t, i, isize) && Serves(u, i, isize) ==> t == u
  {
    if isize <= LIMIT {
      forall i: nat | i < isize ensures Served(i, isize) {
        var t := ThreadOf(i, isize);
      }
      forall i: nat, t, u | Serves(t, i, isize) && Serves(u, i, isize) ensures t == u {
        ThreadIsUnique(t, u, i, isize);
      }
    } else {
      MissedIsUnserved(isize, Thread(0, 0, 0));
      forall t ensures !Serves(t, Missed(isize), isize) {
        MissedIsUnserved(isize, t);
      }
      assert !Served(Missed(isize), isize);
    }
  }

  // -------------------------------------------------------------- decoding

  /** get_length: the first axis varies fastest. */
  function Decode(i: nat, l: seq<nat>): (x: seq<nat>)
    requires AllPositive(l)
    ensures InBox(x, l)
    decreases l
  {
    if l == [] then [] else [Rem(i, l[0])] + Decode(Quot(i, l[0]), l[1..])
  }

  /** get_batch. */
  function Batch(i: nat, l: seq<nat>): nat
    requires AllPositive(l)
    decreases l
  {
    if l == [] then i else Batch(Quot(i, l[0]), l[1..])
  }

  /** The flat index of element `x` of batch `b`. */
  function Encode(x: seq<nat>, b: nat, l: seq<nat>): nat
    requires |x| == |l|
  {
    if l == [] then b else x[0] + Scaled(l[0], Encode(x[1..], b, l[1..]))
  }

  function Scaled(a: nat, n: nat): nat {
    a * n
  }

  lemma QuotRem(i: nat, a: nat)
    requires a > 0
    ensures Rem(i, a) + Scaled(a, Quot(i, a)) == i
  {
  }

  lemma QuotRemOf(a: nat, u: nat, e: nat)
    requires u < a
    ensures Quot(u + Scaled(a, e), a) == e && Rem(u + Scaled(a, e), a) == u
  {
    DivModOf(e, u, a);
    assert e * a + u == u + Scaled(a, e);
  }

  lemma {:induction false} EncodeDecode(i: nat, l: seq<nat>)
    requires AllPositive(l)
    ensures Encode(Decode(i, l), Batch(i, l), l) == i
    decreases l
  {
    hide Quot, Rem, Scaled;
    if l != [] {
      EncodeDecode(Quot(i, l[0]), l[1..]);
      assert Decode(i, l)[1..] == Decode(Quot(i, l[0]), l[1..]);
      QuotRem(i, l[0]);
    }
  }

  lemma {:induction false} DecodeEncode(x: seq<nat>, b: nat, l: seq<nat>)
    requires InBox(x, l)
    ensures AllPositive(l) && Decode(Encode(x, b, l), l) == x && Batch(Encode(x, b, l), l) == b
  {
    hide Quot, Rem, Scaled;
    if l != [] {
      DecodeEncode(x[1..], b, l[1..]);
      QuotRemOf(l[0], x[0], Encode(x[1..], b, l[1..]));
      assert x == [x[0]] + x[1..];
    }
  }

  /** Flat indices of one, two and three dimensions, written out. */
  lemma EncodeWritten(x: nat, y: nat, z: nat, b: nat, l: nat, m: nat, n: nat)
    ensures Encode([x], b, [l]) == x + l * b
    ensures Encode([x, y], b, [l, m]) == x + l * y + (l * m) * b
    ensures Encode([x, y, z], b, [l, m, n]) == x + l * y + (l * m) * z + (l * m * n) * b
  {
    assert [x] == [x] + [] && [y] == [y] + [] && [z] == [z] + [] && [l] == [l] + [] && [m] == [m] + [] && [n] == [n] + [];
    assert [x, y] == [x] + [y] && [y, z] == [y] + [z] && [x, y, z] == [x] + [y, z];
    assert [l, m] == [l] + [m] && [m, n] == [m] + [n] && [l, m, n] == [l] + [m, n];
    EncodeTail(x, [], b, l, []);
    EncodeTail(x, [y], b, l, [m]);
    EncodeTail(y, [], b, m, []);
    EncodeTail(x, [y, z], b, l, [m, n]);
    EncodeTail(y, [z], b, m, [n]);
    EncodeTail(z, [], b, n, []);
    Factored2(l, m, y, b);
    Factored3(l, m, n, y, z, b);
  }

  lemma EncodeTail(x: nat, xs: seq<nat>, b: nat, l: nat, ls: seq<nat>)
    requires |xs| == |ls|
    ensures Encode([x] + xs, b, [l] + ls) == x + l * Encode(xs, b, ls)
  {
    assert ([x] + xs)[1..] == xs && ([l] + ls)[1..] == ls;
  }

  lemma Factored2(l: nat, m: nat, y: nat, b: nat)
    ensures l * (y + m * b) == l * y + (l * m) * b
  {
    Associative(l, m, b);
  }

  lemma Factored3(l: nat, m: nat, n: nat, y: nat, z: nat, b: nat)
    ensures l * (y + m * (z + n * b)) == l * y + (l * m) * z + (l * m * n) * b
  {
    Factored2(m, n, z, b);
    Factored2(l, m, y, z + n * b);
    Factored2(l * m, n, z, b);
  }

  /** Indices below the size are those of the batches there are. */
  lemma {:induction false} BatchBound(i: nat, l: seq<nat>, n: nat)
    requires AllPositive(l)
    ensures Batch(i, l) < n <==> i < Scaled(Product(l), n)
    decreases l
  {
    hide Quot, Scaled;
    if l == [] {
      ScaledOnce(n);
    } else {
      BatchBound(Quot(i, l[0]), l[1..], n);
      QuotBelow(i, l[0], Scaled(Product(l[1..]), n));
      ScaledTwice(l, n);
    }
  }

  lemma ScaledOnce(n: nat)
    ensures Scaled(1, n) == n
  {
  }

  lemma ScaledTwice(l: seq<nat>, n: nat)
    requires l != []
    ensures Scaled(l[0], Scaled(Product(l[1..]), n)) == Scaled(Product(l), n)
  {
    Associative(l[0], Product(l[1..]), n);
  }

  lemma Associative(a: nat, b: nat, c: nat)
    ensures a * (b * c) == a * b * c
  {
  }

  lemma QuotBelow(i: nat, a: nat, m: nat)
    requires a > 0
    ensures Quot(i, a) < m <==> i < Scaled(a, m)
  {
    if i / a < m {
      MulStep(i / a, m, a);
    } else {
      MulMono(m, i / a, a);
    }
  }
}
