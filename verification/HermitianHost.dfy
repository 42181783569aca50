/**
 The host symmetrisers of shared/data_gen_host.h, in place on interleaved
 (array of complex) and planar (two arrays of real) buffers.
 */
module HermitianHost {
  import opened Spectra
  import opened HermitianOps

  /** Every stored entry lies inside a buffer of `n` elements. */
  ghost predicate Held(d: Spectrum, n: nat) {
    forall t :: Stored(d, t) ==> At(d, t) < n
  }

  lemma SplitRange(p: seq<Op>, q: seq<Op>, n: nat)
    requires AllInRange(p + q, n)
    ensures AllInRange(p, n) && AllInRange(q, n)
  {
    forall op | op in p ensures InRange(op, n) { assert op in p + q; }
    forall op | op in q ensures InRange(op, n) { assert op in p + q; }
  }

  lemma BatchOpInRange(d: Spectrum, b: nat, n: nat, op: Op)
    requires Proper(d) && b < d.nbatch && Held(d, n) && op in BatchOps(d, Base(d, b))
    ensures InRange(op, n)
  {
    BatchSound(d, b, op);
    var t: Site :| t.b == b && Symmetric(d, op, t);
  }

  /** The writes of a batch stay inside the buffer. */
  lemma BatchInRange(d: Spectrum, b: nat, n: nat)
    requires Proper(d) && b < d.nbatch && Held(d, n)
    ensures AllInRange(FloorOps(d, Base(d, b)), n)
    ensures d.nz % 2 == 0 ==> AllInRange(NyquistOps(d, Base(d, b) + HalfZ(d)), n)
    ensures AllInRange(BatchOps(d, Base(d, b)), n)
  {
    forall op | op in BatchOps(d, Base(d, b)) ensures InRange(op, n) {
      BatchOpInRange(d, b, n, op);
    }
    forall op | FloorMember(d, Base(d, b), op) || (d.nz % 2 == 0 && NyquistMember(d, Base(d, b) + HalfZ(d), op))
      ensures InRange(op, n)
    {
      InBatch(d, Base(d, b), op);
    }
    forall op | op in FloorOps(d, Base(d, b)) ensures InRange(op, n) {
      InFloor(d, Base(d, b), op);
    }
    forall op | d.nz % 2 == 0 && op in NyquistOps(d, Base(d, b) + HalfZ(d)) ensures InRange(op, n) {
      InNyquist(d, Base(d, b) + HalfZ(d), op);
    }
  }

  /**
   A host buffer: interleaved (one array of complex) or planar (an array of real
   parts and one of imaginary parts).  The host loops are the same for both and
   differ only in how an element is stored.
   */
  class SpectrumBuffer {
    const planar: bool
    const data: array<Complex>
    const re: array<real>
    const im: array<real>

    ghost predicate Valid() {
      re.Length == im.Length && re != im
    }

    function Size(): nat {
      if planar then re.Length else data.Length
    }

    /** The complex values held. */
    ghost function Contents(): (c: seq<Complex>)
      requires Valid()
      reads data, re, im
      ensures |c| == Size()
    {
      if planar then seq(re.Length, k requires 0 <= k < re.Length reads re, im requires Valid() => Complex(re[k], im[k]))
      else data[..]
    }

    constructor Interleaved(data: array<Complex>)
      ensures Valid() && !planar && this.data == data && Contents() == data[..]
    {
      planar := false;
      this.data := data;
      re := new real[0];
      im := new real[0];
    }

    constructor Planar(re: array<real>, im: array<real>)
      requires re.Length == im.Length && re != im
      ensures Valid() && planar && this.re == re && this.im == im
    {
      planar := true;
      data := new Complex[0];
      this.re := re;
      this.im := im;
    }

    method SetImagZero(pos: nat)
      requires Valid() && pos < Size()
      modifies data, re, im
      ensures Contents() == old(Contents())[pos := Value(ZeroIm(pos), old(Contents()))]
    {
      if planar {
        im[pos] := 0.0;
      } else {
        data[pos] := data[pos].(im := 0.0);
      }
    }

    method SetConjugate(pos: nat, cpos: nat)
      requires Valid() && pos < Size() && cpos < Size()
      modifies data, re, im
      ensures Contents() == old(Contents())[pos := Value(Conjugate(pos, cpos), old(Contents()))]
    {
      if planar {
        re[pos] := re[cpos];
        im[pos] := -im[cpos];
      } else {
        data[pos] := Conj(data[cpos]);
      }
    }
  }

  /** `v` after the writes of `done` is what the buffer `r` holds. */
  ghost predicate Reached(v: seq<Complex>, done: seq<Op>, r: seq<Complex>) {
    r == Apply(v, done)
  }

  lemma ReachedSnoc(v: seq<Complex>, done: seq<Op>, r: seq<Complex>, op: Op)
    requires Reached(v, done, r) && InRange(op, |v|)
    ensures Reached(v, done + [op], r[op.pos := Value(op, r)])
  {
    ApplySnoc(v, done, op);
  }

  /** The next of the writes to come. */
  lemma ReachedNext(v: seq<Complex>, done: seq<Op>, ops: seq<Op>, k: nat, r: seq<Complex>)
    requires k < |ops| && Reached(v, done + ops[..k], r) && InRange(ops[k], |v|)
    ensures Reached(v, done + ops[..k + 1], r[ops[k].pos := Value(ops[k], r)])
  {
    ReachedSnoc(v, done + ops[..k], r, ops[k]);
    assert done + ops[..k] + [ops[k]] == done + ops[..k + 1];
  }

  /** One write of a loop whose writes are `ops`. */
  method ReflectNext(buf: SpectrumBuffer, pos: nat, cpos: nat,
                     ghost v: seq<Complex>, ghost done: seq<Op>, ghost ops: seq<Op>, ghost k: nat)
    requires buf.Valid()
    requires k < |ops| && ops[k] == Conjugate(pos, cpos) && Reached(v, done + ops[..k], buf.Contents())
    requires AllInRange(ops, buf.Size())
    modifies buf.data, buf.re, buf.im
    ensures Reached(v, done + ops[..k + 1], buf.Contents())
  {
    assert ops[k] in ops;
    ReachedNext(v, done, ops, k, buf.Contents());
    buf.SetConjugate(pos, cpos);
  }

  method ZeroImagIf(c: bool, buf: SpectrumBuffer, pos: nat, ghost v: seq<Complex>, ghost done: seq<Op>)
    requires buf.Valid()
    requires Reached(v, done, buf.Contents()) && (c ==> pos < buf.Size())
    modifies buf.data, buf.re, buf.im
    ensures Reached(v, Zeroed(done, c, pos), buf.Contents())
  {
    if c {
      ReachedSnoc(v, done, buf.Contents(), ZeroIm(pos));
      buf.SetImagZero(pos);
    } else {
      assert done + [] == done;
    }
  }

  method ReflectLineIf(c: bool, buf: SpectrumBuffer, base: nat, s: nat, n: nat,
                       ghost v: seq<Complex>, ghost done: seq<Op>)
    requires buf.Valid()
    requires n > 0 && Reached(v, done, buf.Contents()) && (c ==> AllInRange(LineOps(base, s, n), buf.Size()))
    modifies buf.data, buf.re, buf.im
    ensures Reached(v, done + When(c, LineOps(base, s, n)), buf.Contents())
  {
    hide Reached, AllInRange, Place;
    ghost var ops := LineOps(base, s, n);
    assert done + [] == done && ops[..0] == [];
    if c {
      for i := 1 to (n + 1) / 2
        invariant Reached(v, done + ops[..i - 1], buf.Contents())
      {
        ReflectNext(buf, Place(base, n - i, s), Place(base, i, s), v, done, ops, i - 1);
      }
      assert ops[..(n + 1) / 2 - 1] == ops;
    }
  }

  method ReflectTwoLines(buf: SpectrumBuffer, base: nat, shift: nat, c: bool, s: nat, n: nat,
                         ghost v: seq<Complex>, ghost done: seq<Op>)
    requires buf.Valid()
    requires n > 0 && Reached(v, done, buf.Contents()) && AllInRange(TwoLines(base, shift, c, s, n), buf.Size())
    modifies buf.data, buf.re, buf.im
    ensures Reached(v, done + TwoLines(base, shift, c, s, n), buf.Contents())
  {
    hide Apply;
    SplitRange(LineOps(base, s, n), When(c, LineOps(base + shift, s, n)), buf.Size());
    ReflectLineIf(true, buf, base, s, n, v, done);
    ReflectLineIf(c, buf, base + shift, s, n, v, done + LineOps(base, s, n));
    assert done + LineOps(base, s, n) + When(c, LineOps(base + shift, s, n))
        == done + TwoLines(base, shift, c, s, n);
  }

  method ReflectRow(buf: SpectrumBuffer, base: nat, i: nat, sx: nat, nx: nat, sy: nat, ny: nat,
                    ghost v: seq<Complex>, ghost done: seq<Op>)
    requires buf.Valid()
    requires i <= nx && ny > 0 && Reached(v, done, buf.Contents())
    requires AllInRange(RowOps(base, i, sx, nx, sy, ny), buf.Size())
    modifies buf.data, buf.re, buf.im
    ensures Reached(v, done + RowOps(base, i, sx, nx, sy, ny), buf.Contents())
  {
    hide Reached, AllInRange, Place;
    ghost var ops := RowOps(base, i, sx, nx, sy, ny);
    assert done + [] == done && ops[..0] == [];
    for j := 1 to ny
      invariant Reached(v, done + ops[..j - 1], buf.Contents())
    {
      ReflectNext(buf, Place(Place(base, nx - i, sx), ny - j, sy), Place(Place(base, i, sx), j, sy), v, done, ops, j - 1);
    }
    assert ops[..ny - 1] == ops;
  }

  method ReflectPlane(buf: SpectrumBuffer, base: nat, sx: nat, nx: nat, sy: nat, ny: nat,
                      ghost v: seq<Complex>, ghost done: seq<Op>)
    requires buf.Valid()
    requires nx > 0 && ny > 0 && Reached(v, done, buf.Contents())
    requires AllInRange(PlaneOps(base, (nx + 1) / 2 - 1, sx, nx, sy, ny), buf.Size())
    modifies buf.data, buf.re, buf.im
    ensures Reached(v, done + PlaneOps(base, (nx + 1) / 2 - 1, sx, nx, sy, ny), buf.Contents())
  {
    hide Apply;
    assert done + [] == done;
    for i := 1 to (nx + 1) / 2
      invariant Reached(v, done + PlaneOps(base, i - 1, sx, nx, sy, ny), buf.Contents())
    {
      PlanePrefixInRange(base, i, (nx + 1) / 2 - 1, sx, nx, sy, ny, buf.Size());
      SplitRange(PlaneOps(base, i - 1, sx, nx, sy, ny), RowOps(base, i, sx, nx, sy, ny), buf.Size());
      ReflectRow(buf, base, i, sx, nx, sy, ny, v, done + PlaneOps(base, i - 1, sx, nx, sy, ny));
      assert done + PlaneOps(base, i - 1, sx, nx, sy, ny) + RowOps(base, i, sx, nx, sy, ny)
          == done + PlaneOps(base, i, sx, nx, sy, ny);
    }
  }

  lemma {:induction false} PlanePrefixInRange(base: nat, k: nat, m: nat, sx: nat, nx: nat, sy: nat, ny: nat, n: nat)
    requires k <= m <= nx && ny > 0 && AllInRange(PlaneOps(base, m, sx, nx, sy, ny), n)
    ensures AllInRange(PlaneOps(base, k, sx, nx, sy, ny), n)
  {
    if k < m {
      SplitRange(PlaneOps(base, m - 1, sx, nx, sy, ny), RowOps(base, m, sx, nx, sy, ny), n);
      PlanePrefixInRange(base, k, m - 1, sx, nx, sy, ny, n);
    }
  }

  /** The corner positions lie in the buffer when their parities apply. */
  lemma CornersHeld(d: Spectrum, b: nat, n: nat)
    requires Proper(d) && b < d.nbatch && Held(d, n)
    ensures
      var base, ex, ey, ez := Base(d, b), d.nx % 2 == 0, d.ny % 2 == 0, d.nz % 2 == 0;
      var hx, hy, hz := HalfX(d), HalfY(d), HalfZ(d);
      && base < n && (ex ==> base + hx < n) && (ey ==> base + hy < n) && base + hz < n
      && (ex && ey ==> base + hx + hy < n) && (ex ==> base + hx + hz < n)
      && (ey ==> base + hy + hz < n) && (ex && ey ==> base + hx + hy + hz < n)
  {
    var x, y, z := d.nx / 2, d.ny / 2, d.nz / 2;
    assert At(d, Site(b, 0, 0, 0)) < n && At(d, Site(b, 0, 0, z)) < n;
    assert d.nx % 2 == 0 ==> At(d, Site(b, x, 0, 0)) < n && At(d, Site(b, x, 0, z)) < n;
    assert d.ny % 2 == 0 ==> At(d, Site(b, 0, y, 0)) < n && At(d, Site(b, 0, y, z)) < n;
    assert d.nx % 2 == 0 && d.ny % 2 == 0 ==> At(d, Site(b, x, y, 0)) < n && At(d, Site(b, x, y, z)) < n;
  }

  method ZeroAxisCorners(buf: SpectrumBuffer, b: nat, hx: nat, hy: nat, hz: nat, ex: bool, ey: bool, ez: bool)
    requires buf.Valid()
    requires b < buf.Size() && (ex ==> b + hx < buf.Size()) && (ey ==> b + hy < buf.Size())
    requires ez ==> b + hz < buf.Size()
    modifies buf.data, buf.re, buf.im
    ensures Reached(old(buf.Contents()), AxisCorners(b, hx, hy, hz, ex, ey, ez), buf.Contents())
  {
    ghost var v := buf.Contents();
    assert Reached(v, [], v);
    hide Apply;
    ghost var p1 := [ZeroIm(b)];
    ghost var p2 := Zeroed(p1, ex, b + hx);
    ghost var p3 := Zeroed(p2, ey, b + hy);
    ReachedSnoc(v, [], v, ZeroIm(b));
    assert [] + [ZeroIm(b)] == p1;
    buf.SetImagZero(b);
    ZeroImagIf(ex, buf, b + hx, v, p1);
    ZeroImagIf(ey, buf, b + hy, v, p2);
    ZeroImagIf(ez, buf, b + hz, v, p3);
  }

  method ZeroEdgeCorners(buf: SpectrumBuffer, b: nat, hx: nat, hy: nat, hz: nat, ex: bool, ey: bool, ez: bool,
                         ghost v: seq<Complex>, ghost done: seq<Op>)
    requires buf.Valid()
    requires Reached(v, done, buf.Contents())
    requires (ex && ey ==> b + hx + hy < buf.Size()) && (ex && ez ==> b + hx + hz < buf.Size())
    requires (ey && ez ==> b + hy + hz < buf.Size()) && (ex && ey && ez ==> b + hx + hy + hz < buf.Size())
    modifies buf.data, buf.re, buf.im
    ensures Reached(v, EdgeCorners(done, b, hx, hy, hz, ex, ey, ez), buf.Contents())
  {
    hide Apply;
    ghost var p1 := Zeroed(done, ex && ey, b + hx + hy);
    ghost var p2 := Zeroed(p1, ex && ez, b + hx + hz);
    ghost var p3 := Zeroed(p2, ey && ez, b + hy + hz);
    ZeroImagIf(ex && ey, buf, b + hx + hy, v, done);
    ZeroImagIf(ex && ez, buf, b + hx + hz, v, p1);
    ZeroImagIf(ey && ez, buf, b + hy + hz, v, p2);
    ZeroImagIf(ex && ey && ez, buf, b + hx + hy + hz, v, p3);
  }

  method Corners(buf: SpectrumBuffer, d: Spectrum, b: nat, ghost batch: nat)
    requires buf.Valid()
    requires Proper(d) && batch < d.nbatch && Held(d, buf.Size()) && b == Base(d, batch)
    modifies buf.data, buf.re, buf.im
    ensures Reached(old(buf.Contents()), CornerOps(d, b), buf.Contents())
  {
    hide Apply;
    var ex, ey, ez := d.nx % 2 == 0, d.ny % 2 == 0, d.nz % 2 == 0;
    var hx, hy, hz := HalfX(d), HalfY(d), HalfZ(d);
    CornersHeld(d, batch, buf.Size());
    ghost var v := buf.Contents();
    ZeroAxisCorners(buf, b, hx, hy, hz, ex, ey, ez);
    ZeroEdgeCorners(buf, b, hx, hy, hz, ex, ey, ez, v, AxisCorners(b, hx, hy, hz, ex, ey, ez));
  }

  lemma Regroup<T>(p: seq<T>, a: seq<T>, b: seq<T>, c: seq<T>)
    ensures p + a + b + c == p + (a + b + c)
  {
  }

  method Floor(buf: SpectrumBuffer, d: Spectrum, b: nat, ghost v: seq<Complex>, ghost done: seq<Op>)
    requires buf.Valid()
    requires Proper(d) && Reached(v, done, buf.Contents()) && AllInRange(FloorOps(d, b), buf.Size())
    modifies buf.data, buf.re, buf.im
    ensures Reached(v, done + FloorOps(d, b), buf.Contents())
  {
    hide Apply, Reached, AllInRange;
    var hx, hy := HalfX(d), HalfY(d);
    ghost var p := TwoLines(b, hx, d.nx % 2 == 0, d.sy, d.ny);
    ghost var q := TwoLines(b, hy, d.ny % 2 == 0, d.sx, d.nx);
    ghost var r := PlaneOps(b, (d.nx + 1) / 2 - 1, d.sx, d.nx, d.sy, d.ny);
    SplitRange(p + q, r, buf.Size());
    SplitRange(p, q, buf.Size());
    Regroup(done, p, q, r);
    ReflectTwoLines(buf, b, hx, d.nx % 2 == 0, d.sy, d.ny, v, done);
    ReflectTwoLines(buf, b, hy, d.ny % 2 == 0, d.sx, d.nx, v, done + p);
    ReflectPlane(buf, b, d.sx, d.nx, d.sy, d.ny, v, done + p + q);
  }

  method Nyquist(buf: SpectrumBuffer, d: Spectrum, c: nat, ghost v: seq<Complex>, ghost done: seq<Op>)
    requires buf.Valid()
    requires Proper(d) && Reached(v, done, buf.Contents()) && AllInRange(NyquistOps(d, c), buf.Size())
    modifies buf.data, buf.re, buf.im
    ensures Reached(v, done + NyquistOps(d, c), buf.Contents())
  {
    hide Apply;
    var hx := HalfX(d);
    ghost var p := TwoLines(c, 0, d.ny % 2 == 0, d.sx, d.nx);
    ghost var q := TwoLines(c, hx, d.nx % 2 == 0, d.sy, d.ny);
    ghost var r := PlaneOps(c, (d.nx + 1) / 2 - 1, d.sx, d.nx, d.sy, d.ny);
    SplitRange(p + q, r, buf.Size());
    SplitRange(p, q, buf.Size());
    Regroup(done, p, q, r);
    ReflectTwoLines(buf, c, 0, d.ny % 2 == 0, d.sx, d.nx, v, done);
    ReflectTwoLines(buf, c, hx, d.nx % 2 == 0, d.sy, d.ny, v, done + p);
    ReflectPlane(buf, c, d.sx, d.nx, d.sy, d.ny, v, done + p + q);
  }

  method NyquistIf(e: bool, buf: SpectrumBuffer, d: Spectrum, c: nat, ghost v: seq<Complex>, ghost done: seq<Op>)
    requires buf.Valid()
    requires Proper(d) && Reached(v, done, buf.Contents()) && (e ==> AllInRange(NyquistOps(d, c), buf.Size()))
    modifies buf.data, buf.re, buf.im
    ensures Reached(v, done + When(e, NyquistOps(d, c)), buf.Contents())
  {
    hide Apply;
    assert done + [] == done;
    if e {
      Nyquist(buf, d, c, v, done);
    }
  }

  method ImposeBatch(buf: SpectrumBuffer, d: Spectrum, ibatch: nat)
    requires buf.Valid()
    requires Proper(d) && ibatch < d.nbatch && Held(d, buf.Size())
    modifies buf.data, buf.re, buf.im
    ensures Reached(old(buf.Contents()), BatchOps(d, Base(d, ibatch)), buf.Contents())
  {
    hide Apply, CornerOps, FloorOps, NyquistOps;
    var b := Base(d, ibatch);
    BatchInRange(d, ibatch, buf.Size());
    ghost var r := buf.Contents();
    ghost var all := BatchOps(d, b);
    assert all == CornerOps(d, b) + FloorOps(d, b) + When(d.nz % 2 == 0, NyquistOps(d, b + HalfZ(d)));
    Corners(buf, d, b, ibatch);
    Floor(buf, d, b, r, CornerOps(d, b));
    NyquistIf(d.nz % 2 == 0, buf, d, b + HalfZ(d), r, CornerOps(d, b) + FloorOps(d, b));
    assert Reached(r, all, buf.Contents());
  }

  /** impose_hermitian_symmetry_interleaved_3D and impose_hermitian_symmetry_planar_3D. */
  method Impose3D(buf: SpectrumBuffer, d: Spectrum)
    requires buf.Valid() && Proper(d) && Held(d, buf.Size())
    modifies buf.data, buf.re, buf.im
    ensures buf.Contents() == Apply(old(buf.Contents()), HostOps(d))
  {
    ghost var v := buf.Contents();
    ghost var f := (b: nat) => BatchOps(d, Base(d, b));
    for ibatch := 0 to d.nbatch
      invariant Reached(v, Chain(ibatch, f), buf.Contents())
    {
      ImposeBatch(buf, d, ibatch);
      ApplyConcat(v, Chain(ibatch, f), f(ibatch));
    }
  }
}
