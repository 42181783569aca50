/**
 The linear data generators of shared/data_gen_host.h and shared/data_gen_device.h:
 a ramp over each batch, written by pieces on the host and by threads on the device.
 */
module LinearData {
  import opened Arith
  import opened Layouts
  import opened Partitions
  import opened Copies
  import opened DeviceGrids

  /** make_unit_stride for `c` == 1: running products, the first axis fastest. */
  function Units(c: nat, l: seq<nat>): (s: seq<nat>)
    ensures |s| == |l|
    decreases l
  {
    if l == [] then [] else [c] + Units(Scaled(c, l[0]), l[1..])
  }

  lemma {:induction false} DotUnits(c: nat, x: seq<nat>, l: seq<nat>)
    requires |x| == |l|
    ensures Dot(x, Units(c, l)) == Scaled(c, Encode(x, 0, l))
    decreases l
  {
    if l != [] {
      DotUnits(Scaled(c, l[0]), x[1..], l[1..]);
      assert Units(c, l)[1..] == Units(Scaled(c, l[0]), l[1..]);
      UnitTerm(c, x[0], l[0], Encode(x[1..], 0, l[1..]));
    }
  }

  lemma UnitTerm(c: nat, x: nat, a: nat, e: nat)
    ensures x * c + Scaled(Scaled(c, a), e) == Scaled(c, x + Scaled(a, e))
  {
    Associative(c, a, e);
    assert c * (x + a * e) == c * x + c * (a * e);
  }

  /** The offset of an index under unit strides is its flat index in one batch. */
  lemma UnitOffset(x: seq<nat>, l: seq<nat>)
    requires |x| == |l|
    ensures Dot(x, Units(1, l)) == Encode(x, 0, l)
  {
    DotUnits(1, x, l);
    ScaledOnce(Encode(x, 0, l));
  }

  /** The ramp over `n` values. */
  function RampValue(i: nat, n: nat): real
    requires n >= 2
  {
    -0.5 + i as real * (1.0 / (n - 1) as real)
  }

  /** It runs from -0.5 to 0.5. */
  lemma RampRange(i: nat, n: nat)
    requires n >= 2 && i < n
    ensures -0.5 <= RampValue(i, n) <= 0.5
    ensures RampValue(0, n) == -0.5 && RampValue(n - 1, n) == 0.5
  {
    var m, r := (n - 1) as real, i as real;
    assert m * (1.0 / m) == 1.0;
    assert 0.0 <= r * (1.0 / m) <= m * (1.0 / m);
  }

  /** Neighbouring values are one step apart. */
  lemma RampStep(i: nat, n: nat)
    requires n >= 2
    ensures RampValue(i + 1, n) - RampValue(i, n) == 1.0 / (n - 1) as real
  {
    var r, step := i as real, 1.0 / (n - 1) as real;
    assert (r + 1.0) * step == r * step + step;
  }

  /** What the generators put into each cell; `wrap` makes an element of a real. */
  ghost function Ramp<T>(v: Shape, wrap: real -> T): (nat, seq<nat>) --> T
    requires Product(v.length) >= 2
  {
    (b: nat, x: seq<nat>) requires Cell(v, b, x) => wrap(RampValue(Encode(x, 0, v.length), Product(v.length)))
  }

  /** The value put into a cell, by its flat index in the batch. */
  lemma RampOfCell<T>(v: Shape, wrap: real -> T, b: nat, x: seq<nat>)
    requires Product(v.length) >= 2 && Cell(v, b, x)
    ensures Ramp(v, wrap)(b, x) == wrap(-0.5 + Encode(x, 0, v.length) as real / (Product(v.length) - 1) as real)
  {
    hide Encode, Product;
    RampWritten(Encode(x, 0, v.length), Product(v.length));
  }

  lemma RampWritten(i: nat, n: nat)
    requires n >= 2
    ensures RampValue(i, n) == -0.5 + i as real / (n - 1) as real
  {
    OverIsTimes(i as real, (n - 1) as real);
  }

  lemma OverIsTimes(r: real, m: real)
    requires m != 0.0
    ensures r * (1.0 / m) == r / m
  {
  }

  // ------------------------------------------------------------------- host

  /** The layout whose offsets are the flat indices of one batch. */
  function UnitShape(v: Shape): Shape {
    Shape(v.length, Units(1, v.length), v.nbatch, 0, 0)
  }

  lemma UnitIndex(v: Shape, b: nat, x: seq<nat>)
    requires |x| == |v.length|
    ensures Index(UnitShape(v), b, x) == Encode(x, 0, v.length)
  {
    UnitOffset(x, v.length);
    TimesIsProduct(b, 0);
  }

  /** generate_interleaved_data and generate_real_data; twice, for planar data. */
  method GenerateLinear<T(!new)>(wrap: real -> T, output: array<T>, v: Shape, parts: nat)
    requires WellShaped(v) && CollisionFree(v, output.Length) && v.offset == 0 && parts > 0
    requires Product(v.length) >= 2
    modifies output
    ensures Holds(old(output[..]), output[..], v, Ramp(v, wrap))
  {
    ghost var start := output[..];
    var u, n := UnitShape(v), Product(v.length);
    var load := (i: nat) => wrap(RampValue(i, n));
    var pieces := PartitionBase(v.length[0], parts);
    var base := 0;
    for b := 0 to v.nbatch
      invariant base == Times(b, v.dist)
      invariant Filled(start, output[..], u, v, load, b, 0)
    {
      hide Filled, CollisionFree, Loads;
      TimesIsProduct(b, 0);
      for part := 0 to |pieces|
        invariant Filled(start, output[..], u, v, load, b,
                         Rows(if part < |pieces| then pieces[part].0 else v.length[0], v.length))
      {
        CopyPiece(load, output, u, v, b, pieces[part].0, pieces[part].1, 0, base, false, start);
      }
      FillBatch(start, output[..], u, v, load, b);
      TimesStep(b, v.dist);
      base := base + v.dist;
    }
    forall b: nat, x | Cell(v, b, x) ensures Ramp(v, wrap)(b, x) == load(Index(u, b, x)) {
      UnitIndex(v, b, x);
    }
    FilledHolds(start, output[..], u, v, load, Ramp(v, wrap));
  }

  // ----------------------------------------------------------------- device

  /** Elements of all batches together. */
  function ISize(v: Shape): nat {
    Scaled(Product(v.length), v.nbatch)
  }

  lemma FlatIsCell(v: Shape, i: nat)
    requires WellShaped(v) && i < ISize(v)
    ensures AllPositive(v.length) && Cell(v, Batch(i, v.length), Decode(i, v.length))
  {
    BatchBound(i, v.length, v.nbatch);
  }

  /** What the kernel divides by: the elements per batch, less one. */
  lemma PerBatch(v: Shape)
    requires v.nbatch > 0
    ensures Quot(ISize(v), v.nbatch) == Product(v.length)
  {
    DivModOf(Product(v.length), 0, v.nbatch);
  }

  /** One thread of the kernel: at most one store. */
  ghost function Stored<T>(buf: seq<T>, v: Shape, wrap: real -> T, t: Thread): (r: seq<T>)
    requires WellShaped(v) && Inside(v, |buf|) && v.nbatch > 0 && Product(v.length) >= 2
    ensures |r| == |buf|
  {
    var i := Flat(t, GridDim(ISize(v)));
    if i >= ISize(v) then buf
    else
      FlatIsCell(v, i);
      PerBatch(v);
      var x, b := Decode(i, v.length), Batch(i, v.length);
      buf[Place(v, b, x) := wrap(RampValue(Dot(x, Units(1, v.length)), Quot(ISize(v), v.nbatch)))]
  }

  /** The threads in some order. */
  ghost function Launched<T>(buf: seq<T>, v: Shape, wrap: real -> T, order: seq<Thread>): (r: seq<T>)
    requires WellShaped(v) && Inside(v, |buf|) && v.nbatch > 0 && Product(v.length) >= 2
    ensures |r| == |buf|
    decreases order
  {
    if order == [] then buf
    else Stored(Launched(buf, v, wrap, order[..|order| - 1]), v, wrap, order[|order| - 1])
  }

  /** Some thread so far writes cell (b, x). */
  ghost predicate Visited(v: Shape, order: seq<Thread>, b: nat, x: seq<nat>)
    requires |x| == |v.length|
  {
    exists k :: 0 <= k < |order| && Flat(order[k], GridDim(ISize(v))) == Encode(x, b, v.length)
  }

  /** Visited cells hold the ramp; everything else is as before. */
  ghost predicate PartlyFilled<T(!new)>(before: seq<T>, buf: seq<T>, v: Shape, wrap: real -> T, order: seq<Thread>)
    requires WellShaped(v) && Inside(v, |before|) && Product(v.length) >= 2
  {
    && |buf| == |before|
    && (forall b: nat, x :: Cell(v, b, x) && Visited(v, order, b, x) ==> buf[Place(v, b, x)] == Ramp(v, wrap)(b, x))
    && (forall p :: 0 <= p < |buf| && (forall b: nat, x :: Cell(v, b, x) ==> Place(v, b, x) != p) ==> buf[p] == before[p])
  }

  lemma EncodeBelow(v: Shape, b: nat, x: seq<nat>)
    requires WellShaped(v) && Cell(v, b, x)
    ensures Encode(x, b, v.length) < ISize(v)
  {
    DecodeEncode(x, b, v.length);
    BatchBound(Encode(x, b, v.length), v.length, v.nbatch);
  }

  lemma StoredValue<T>(buf: seq<T>, v: Shape, wrap: real -> T, t: Thread, b: nat, x: seq<nat>)
    requires WellShaped(v) && Inside(v, |buf|) && v.nbatch > 0 && Product(v.length) >= 2 && Cell(v, b, x)
    requires Flat(t, GridDim(ISize(v))) == Encode(x, b, v.length)
    ensures Stored(buf, v, wrap, t) == buf[Place(v, b, x) := Ramp(v, wrap)(b, x)]
  {
    EncodeBelow(v, b, x);
    DecodeEncode(x, b, v.length);
    UnitOffset(x, v.length);
    PerBatch(v);
  }

  lemma StoreOne<T(!new)>(before: seq<T>, buf: seq<T>, v: Shape, wrap: real -> T, order: seq<Thread>, t: Thread)
    requires WellShaped(v) && CollisionFree(v, |before|) && v.nbatch > 0 && Product(v.length) >= 2
    requires PartlyFilled(before, buf, v, wrap, order)
    ensures PartlyFilled(before, Stored(buf, v, wrap, t), v, wrap, order + [t])
  {
    var i := Flat(t, GridDim(ISize(v)));
    if i < ISize(v) {
      FlatIsCell(v, i);
      var b0, x0 := Batch(i, v.length), Decode(i, v.length);
      EncodeDecode(i, v.length);
      StoredValue(buf, v, wrap, t, b0, x0);
    }
    forall b: nat, x | Cell(v, b, x) && Visited(v, order + [t], b, x)
      ensures Stored(buf, v, wrap, t)[Place(v, b, x)] == Ramp(v, wrap)(b, x)
    {
      if i == Encode(x, b, v.length) {
        StoredValue(buf, v, wrap, t, b, x);
      } else {
        assert Visited(v, order, b, x) by {
          var k :| 0 <= k < |order + [t]| && Flat((order + [t])[k], GridDim(ISize(v))) == Encode(x, b, v.length);
          assert k < |order| && order[k] == (order + [t])[k];
        }
      }
    }
  }

  lemma {:induction false} LaunchFills<T(!new)>(before: seq<T>, v: Shape, wrap: real -> T, order: seq<Thread>)
    requires WellShaped(v) && CollisionFree(v, |before|) && v.nbatch > 0 && Product(v.length) >= 2
    ensures PartlyFilled(before, Launched(before, v, wrap, order), v, wrap, order)
    decreases order
  {
    if order != [] {
      var n := |order| - 1;
      LaunchFills(before, v, wrap, order[..n]);
      StoreOne(before, Launched(before, v, wrap, order[..n]), v, wrap, order[..n], order[n]);
      assert order == order[..n] + [order[n]];
    }
  }

  /** Every thread of the grid runs, in whatever order. */
  ghost predicate Complete(order: seq<Thread>, isize: nat) {
    forall t :: InGrid(t, GridDim(isize)) ==> t in order
  }

  /** Main result: the kernel leaves what the host loops leave, for any order of its threads. */
  lemma DeviceFillsLikeHost<T(!new)>(before: seq<T>, host: seq<T>, v: Shape, wrap: real -> T, order: seq<Thread>)
    requires WellShaped(v) && CollisionFree(v, |before|) && v.nbatch > 0 && Product(v.length) >= 2
    requires ISize(v) <= LIMIT && Complete(order, ISize(v))
    requires Holds(before, host, v, Ramp(v, wrap))
    ensures Launched(before, v, wrap, order) == host
  {
    var r := Launched(before, v, wrap, order);
    LaunchFills(before, v, wrap, order);
    forall b: nat, x | Cell(v, b, x) ensures r[Place(v, b, x)] == host[Place(v, b, x)] {
      EncodeBelow(v, b, x);
      var t := ThreadOf(Encode(x, b, v.length), ISize(v));
      assert t in order;
      assert Visited(v, order, b, x);
    }
    forall p | 0 <= p < |r| ensures r[p] == host[p] {
      if b: nat, x :| Cell(v, b, x) && Place(v, b, x) == p {
        assert r[Place(v, b, x)] == host[Place(v, b, x)];
      }
    }
  }
}
