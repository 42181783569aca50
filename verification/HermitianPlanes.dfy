/**
 The 2D symmetrisers of shared/data_gen_host.h and shared/data_gen_device.h: the
 writes of a plane are those of a 3D spectrum whose y axis has one entry.
 */
module HermitianPlanes {
  import DeviceGrids
  import opened Arith
  import opened Spectra
  import opened HermitianOps
  import opened HermitianTheorems
  import opened HermitianHost
  import opened HermitianDevice
  import opened Layouts

  /** A batch of 2D half-spectra: lengths nx and nz, of which nz / 2 + 1 columns are stored. */
  ghost predicate IsPlane(d: Spectrum) {
    Proper(d) && d.ny == 1
  }

  function Corners2D(d: Spectrum, b: nat): seq<Op> {
    FourCorners(b, HalfX(d), HalfZ(d), d.nx % 2 == 0, d.nz % 2 == 0)
  }

  function FourCorners(b: nat, h0: nat, h1: nat, e0: bool, e1: bool): seq<Op> {
    Zeroed(Zeroed(Zeroed([ZeroIm(b)], e0, b + h0), e1, b + h1), e0 && e1, b + h0 + h1)
  }

  /** The writes of one batch, in the order of impose_hermitian_symmetry_interleaved_2D. */
  function BatchOps2D(d: Spectrum, b: nat): seq<Op>
    requires d.nx > 0
  {
    Corners2D(d, b) + TwoLines(b, HalfZ(d), d.nz % 2 == 0, d.sx, d.nx)
  }

  function HostOps2D(d: Spectrum): seq<Op>
    requires d.nx > 0
  {
    Chain(d.nbatch, (b: nat) => BatchOps2D(d, Base(d, b)))
  }

  /** One entry along y leaves no line along y and no interior. */
  lemma {:induction false} NoRows(base: nat, k: nat, sx: nat, nx: nat, sy: nat)
    requires k <= nx
    ensures PlaneOps(base, k, sx, nx, sy, 1) == []
  {
    if k > 0 {
      NoRows(base, k - 1, sx, nx, sy);
    }
  }

  lemma NoLines(base: nat, shift: nat, c: bool, s: nat)
    ensures TwoLines(base, shift, c, s, 1) == []
  {
  }

  lemma CornersAgree(d: Spectrum, b: nat)
    requires IsPlane(d)
    ensures Corners2D(d, b) == CornerOps(d, b)
  {
  }

  lemma FloorAgrees(d: Spectrum, b: nat)
    requires IsPlane(d)
    ensures FloorOps(d, b) == LineOps(b, d.sx, d.nx) && NyquistOps(d, b) == LineOps(b, d.sx, d.nx)
  {
    hide LineOps, PlaneOps;
    NoRows(b, (d.nx + 1) / 2 - 1, d.sx, d.nx, d.sy);
    NoLines(b, HalfX(d), d.nx % 2 == 0, d.sy);
  }

  /** The 2D loops write what the 3D loops would, in the same order. */
  lemma BatchAgrees(d: Spectrum, b: nat)
    requires IsPlane(d)
    ensures BatchOps2D(d, b) == BatchOps(d, b)
  {
    hide CornerOps, Corners2D, FloorOps, NyquistOps, LineOps, PlaneOps;
    CornersAgree(d, b);
    FloorAgrees(d, b);
    FloorAgrees(d, b + HalfZ(d));
  }

  lemma ChainAgrees(d: Spectrum, n: nat)
    requires IsPlane(d)
    ensures Chain(n, (b: nat) => BatchOps2D(d, Base(d, b))) == Chain(n, (b: nat) => BatchOps(d, Base(d, b)))
  {
    forall b: nat ensures BatchOps2D(d, Base(d, b)) == BatchOps(d, Base(d, b)) {
      BatchAgrees(d, Base(d, b));
    }
    SameChains(n, (b: nat) => BatchOps2D(d, Base(d, b)), (b: nat) => BatchOps(d, Base(d, b)));
  }

  lemma {:induction false} SameChains(n: nat, f: nat -> seq<Op>, g: nat -> seq<Op>)
    requires forall b: nat :: f(b) == g(b)
    ensures Chain(n, f) == Chain(n, g)
  {
    if n > 0 {
      SameChains(n - 1, f, g);
    }
  }

  /** Hence all that is proved of a listed spectrum holds after the 2D symmetrisers. */
  lemma HostLists2D(d: Spectrum)
    requires IsPlane(d)
    ensures HostOps2D(d) == HostOps(d) && Lists(d, HostOps2D(d))
  {
    ChainAgrees(d, d.nbatch);
    HostLists(d);
  }

  // ------------------------------------------------------------------- host

  method ZeroCorners2D(buf: SpectrumBuffer, b: nat, h0: nat, h1: nat, e0: bool, e1: bool)
    requires buf.Valid() && b < buf.Size() && (e0 ==> b + h0 < buf.Size()) && (e1 ==> b + h1 < buf.Size())
    requires e0 && e1 ==> b + h0 + h1 < buf.Size()
    modifies buf.data, buf.re, buf.im
    ensures Reached(old(buf.Contents()), FourCorners(b, h0, h1, e0, e1), buf.Contents())
  {
    hide Apply;
    ghost var v := buf.Contents();
    ghost var p1 := [ZeroIm(b)];
    ghost var p2 := Zeroed(p1, e0, b + h0);
    ghost var p3 := Zeroed(p2, e1, b + h1);
    ReachedStart(v);
    ReachedSnoc(v, [], v, ZeroIm(b));
    assert [] + [ZeroIm(b)] == p1;
    buf.SetImagZero(b);
    ZeroImagIf(e0, buf, b + h0, v, p1);
    ZeroImagIf(e1, buf, b + h1, v, p2);
    ZeroImagIf(e0 && e1, buf, b + h0 + h1, v, p3);
  }

  method ImposeBatch2D(buf: SpectrumBuffer, d: Spectrum, ibatch: nat)
    requires buf.Valid() && IsPlane(d) && ibatch < d.nbatch && Held(d, buf.Size())
    modifies buf.data, buf.re, buf.im
    ensures Reached(old(buf.Contents()), BatchOps2D(d, Base(d, ibatch)), buf.Contents())
  {
    hide Apply;
    var b := Base(d, ibatch);
    var e0, e1 := d.nx % 2 == 0, d.nz % 2 == 0;
    var h0, h1 := HalfX(d), HalfZ(d);
    CornersHeld(d, ibatch, buf.Size());
    BatchInRange(d, ibatch, buf.Size());
    BatchAgrees(d, b);
    SplitRange(Corners2D(d, b), TwoLines(b, h1, e1, d.sx, d.nx), buf.Size());
    ghost var v := buf.Contents();
    ZeroCorners2D(buf, b, h0, h1, e0, e1);
    ReflectTwoLines(buf, b, h1, e1, d.sx, d.nx, v, Corners2D(d, b));
  }

  lemma ReachedStart(v: seq<Complex>)
    ensures Reached(v, [], v)
  {
  }

  /** impose_hermitian_symmetry_interleaved_2D and impose_hermitian_symmetry_planar_2D. */
  method Impose2D(buf: SpectrumBuffer, d: Spectrum)
    requires buf.Valid() && IsPlane(d) && Held(d, buf.Size())
    modifies buf.data, buf.re, buf.im
    ensures buf.Contents() == Apply(old(buf.Contents()), HostOps2D(d))
  {
    ghost var v := buf.Contents();
    ghost var f := (b: nat) => BatchOps2D(d, Base(d, b));
    for ibatch := 0 to d.nbatch
      invariant Reached(v, Chain(ibatch, f), buf.Contents())
    {
      ImposeBatch2D(buf, d, ibatch);
      ApplyConcat(v, Chain(ibatch, f), f(ibatch));
    }
  }

  // ----------------------------------------------------------------- device

  /** impose_hermitian_symmetry_interleaved_2D_kernel, for one thread. */
  function ThreadOps2D(d: Spectrum, ib: nat, x: nat): seq<Op>
    requires d.nx > 0
  {
    if ib >= d.nbatch then []
    else
      When(x == 0, Corners2D(d, Base(d, ib)))
      + LineAt(true, Base(d, ib), d.sx, d.nx, x)
      + LineAt(d.nz % 2 == 0, Base(d, ib) + HalfZ(d), d.sx, d.nx, x)
  }

  function GridThreads2D(d: Spectrum): seq<nat> {
    [DeviceGrids.DivRoundingUp(d.nbatch, DeviceGrids.DATA_GEN_THREADS) * DeviceGrids.DATA_GEN_THREADS,
     DeviceGrids.DivRoundingUp(if d.nx == 0 then 0 else (d.nx + 1) / 2 - 1, DeviceGrids.DATA_GEN_THREADS)
       * DeviceGrids.DATA_GEN_THREADS]
  }

  function Programs2D(d: Spectrum): (ps: seq<seq<Op>>)
    requires d.nx > 0
    ensures |ps| == Product(GridThreads2D(d))
  {
    var g := GridThreads2D(d);
    seq(Product(g), q requires 0 <= q < Product(g) => var t := Unrank(q, g); ThreadOps2D(d, t[0], t[1]))
  }

  lemma ProgramOf2D(d: Spectrum, ib: nat, x: nat) returns (q: nat)
    requires IsPlane(d) && InBox([ib, x], GridThreads2D(d))
    ensures q < |Programs2D(d)| && Programs2D(d)[q] == ThreadOps2D(d, ib, x)
  {
    var g, t := GridThreads2D(d), [ib, x];
    q := Rank(t, g);
    RankBound(t, g);
    RankInjective(t, Unrank(q, g), g);
  }

  /** The threads of a batch make the writes of the batch. */
  lemma InThread2D(op: Op, d: Spectrum, ib: nat, x: nat)
    requires IsPlane(d)
    ensures op in ThreadOps2D(d, ib, x)
       <==> ib < d.nbatch
            && (|| (x == 0 && op in Corners2D(d, Base(d, ib)))
                || op in LineAt(true, Base(d, ib), d.sx, d.nx, x)
                || op in LineAt(d.nz % 2 == 0, Base(d, ib) + HalfZ(d), d.sx, d.nx, x))
  {
    hide Corners2D, LineAt;
    InThree(op, When(x == 0, Corners2D(d, Base(d, ib))), LineAt(true, Base(d, ib), d.sx, d.nx, x),
            LineAt(d.nz % 2 == 0, Base(d, ib) + HalfZ(d), d.sx, d.nx, x));
  }

  lemma ThreadSound2D(op: Op, d: Spectrum, ib: nat, x: nat)
    requires IsPlane(d) && op in ThreadOps2D(d, ib, x)
    ensures ib < d.nbatch && op in BatchOps2D(d, Base(d, ib))
  {
    InThread2D(op, d, ib, x);
    hide LineAt, Corners2D;
    InTwoLines(op, Base(d, ib), HalfZ(d), d.nz % 2 == 0, d.sx, d.nx);
    if op in LineAt(true, Base(d, ib), d.sx, d.nx, x) {
      LineAtSound(op, true, Base(d, ib), d.sx, d.nx, x);
    } else if op in LineAt(d.nz % 2 == 0, Base(d, ib) + HalfZ(d), d.sx, d.nx, x) {
      LineAtSound(op, d.nz % 2 == 0, Base(d, ib) + HalfZ(d), d.sx, d.nx, x);
    }
  }

  lemma ThreadComplete2D(op: Op, d: Spectrum, ib: nat) returns (x: nat)
    requires IsPlane(d) && ib < d.nbatch && op in BatchOps2D(d, Base(d, ib))
    ensures op in ThreadOps2D(d, ib, x) && (x == 0 || x < (d.nx + 1) / 2 - 1)
  {
    x := 0;
    InTwoLines(op, Base(d, ib), HalfZ(d), d.nz % 2 == 0, d.sx, d.nx);
    LineThreads(op, Base(d, ib), d.sx, d.nx);
    LineThreads(op, Base(d, ib) + HalfZ(d), d.sx, d.nx);
    if op in LineOps(Base(d, ib), d.sx, d.nx) {
      x :| x < (d.nx + 1) / 2 - 1 && op in LineAt(true, Base(d, ib), d.sx, d.nx, x);
    } else if d.nz % 2 == 0 && op in LineOps(Base(d, ib) + HalfZ(d), d.sx, d.nx) {
      x :| x < (d.nx + 1) / 2 - 1 && op in LineAt(true, Base(d, ib) + HalfZ(d), d.sx, d.nx, x);
    }
    InThread2D(op, d, ib, x);
  }

  /** The 2D grid makes exactly the host's writes when it has a thread along the first axis. */
  lemma GridMakesHostWrites2D(d: Spectrum)
    requires IsPlane(d) && d.nx >= 3
    ensures Gathers(HostOps2D(d), Programs2D(d))
  {
    DivRoundingUpCovers(d.nbatch);
    DivRoundingUpCovers((d.nx + 1) / 2 - 1);
    var f := (b: nat) => BatchOps2D(d, Base(d, b));
    forall op
      ensures op in HostOps2D(d) <==> exists k :: 0 <= k < |Programs2D(d)| && op in Programs2D(d)[k]
    {
      ChainMembers(d.nbatch, f, op);
      if op in HostOps2D(d) {
        var ib: nat :| ib < d.nbatch && op in f(ib);
        var x := ThreadComplete2D(op, d, ib);
        assert InBox([ib, x], GridThreads2D(d));
        var q := ProgramOf2D(d, ib, x);
      }
      if k :| 0 <= k < |Programs2D(d)| && op in Programs2D(d)[k] {
        var u := Unrank(k, GridThreads2D(d));
        ThreadSound2D(op, d, u[0], u[1]);
        assert op in f(u[0]);
      }
    }
  }

  /** Main result: any finished interleaving of the 2D kernel leaves what the host loops leave. */
  lemma DeviceAgreesWithHost2D(d: Spectrum, b: seq<Complex>, schedule: seq<nat>)
    requires IsPlane(d) && Separate(d, |b|) && d.nx >= 3
    requires Finished(Run(Launch(b, Programs2D(d)), schedule))
    ensures Run(Launch(b, Programs2D(d)), schedule).mem == Apply(b, HostOps2D(d))
    ensures IsHermitian(d, Run(Launch(b, Programs2D(d)), schedule).mem)
  {
    HostLists2D(d);
    SymmetricOpsAreRaceFree(d, |b|, HostOps2D(d));
    GridMakesHostWrites2D(d);
    EveryInterleavingAgrees(b, HostOps2D(d), Programs2D(d), schedule);
    SymmetriserMakesHermitian(d, b, HostOps2D(d));
  }

  lemma EmptyGrid2D(d: Spectrum)
    requires IsPlane(d)
    ensures Product(GridThreads2D(d)) == 0 <==> d.nbatch == 0 || d.nx <= 2
  {
    var g := GridThreads2D(d);
    DivRoundingUpCovers(d.nbatch);
    DivRoundingUpCovers((d.nx + 1) / 2 - 1);
    assert Product(g[1..]) == g[1] * Product(g[1..][1..]);
    if g[0] > 0 && g[1] > 0 {
      MulPositive(g[0], g[1]);
    }
  }

  /** Kernel and host agree on all buffers exactly when there is no batch or a thread along the first axis. */
  lemma DeviceAgreesWhen2D(d: Spectrum, n: nat)
    requires IsPlane(d) && Separate(d, n)
    ensures AlwaysAgrees(Programs2D(d), HostOps2D(d), n) <==> d.nbatch == 0 || d.nx >= 3
  {
    HostLists2D(d);
    EmptyGrid2D(d);
    if d.nx >= 3 {
      forall b: seq<Complex>, schedule: seq<nat> | |b| == n && Finished(Run(Launch(b, Programs2D(d)), schedule))
        ensures Run(Launch(b, Programs2D(d)), schedule).mem == Apply(b, HostOps2D(d))
      {
        DeviceAgreesWithHost2D(d, b, schedule);
      }
    } else if d.nbatch == 0 {
      NothingToDo(d);
      assert Programs2D(d) == [];
      forall b: seq<Complex>, schedule: seq<nat> | |b| == n
        ensures Run(Launch(b, []), schedule).mem == b
      {
        IdleRun(b, schedule);
      }
    } else {
      assert Programs2D(d) == [];
      var b := HostChangesSomething(d, n);
      NoThreadsNoChange(b);
    }
  }
}
