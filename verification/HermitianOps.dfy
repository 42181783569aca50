/**
 Which writes make a strided half-spectrum Hermitian.

 `Symmetric` is stated per stored site, `HostOps` is the list of writes the host
 loops of shared/data_gen_host.h make, in their order; the two describe the same
 set of writes.  1D and 2D spectra are 3D ones with unit axes.
 */
module HermitianOps {
  import opened Arith
  import opened Spectra

  /**
   A batch of half-spectra: nx by ny full axes and nz/2 + 1 stored planes, with a
   stride per axis and a distance between batches.
   */
  datatype Spectrum = Spectrum(nx: nat, ny: nat, nz: nat, sx: nat, sy: nat, sz: nat, dist: nat, nbatch: nat)

  /** A stored entry. */
  datatype Site = Site(b: nat, x: nat, y: nat, z: nat)

  /** Start of a batch, and offsets of the Nyquist lines within it. */
  function Base(d: Spectrum, b: nat): nat {
    Times(b, d.dist)
  }

  function HalfX(d: Spectrum): nat {
    Times(d.nx / 2, d.sx)
  }

  function HalfY(d: Spectrum): nat {
    Times(d.ny / 2, d.sy)
  }

  function HalfZ(d: Spectrum): nat {
    Times(d.nz / 2, d.sz)
  }

  function At(d: Spectrum, t: Site): nat {
    Base(d, t.b) + Times(t.x, d.sx) + Times(t.y, d.sy) + Times(t.z, d.sz)
  }

  ghost predicate Stored(d: Spectrum, t: Site) {
    t.b < d.nbatch && t.x < d.nx && t.y < d.ny && t.z <= d.nz / 2
  }

  /** Planes that hold their own conjugates: z = 0 and, for even nz, z = nz / 2. */
  predicate OwnPlane(d: Spectrum, z: nat) {
    z == 0 || 2 * z == d.nz
  }

  /** Index of the conjugate along an axis of length n. */
  function Mirror(i: nat, n: nat): nat
    requires i < n
  {
    if i == 0 then 0 else n - i
  }

  function Partner(d: Spectrum, t: Site): (p: Site)
    requires Stored(d, t)
    ensures Stored(d, p)
  {
    t.(x := Mirror(t.x, d.nx), y := Mirror(t.y, d.ny))
  }

  /** The axis index is its own mirror. */
  predicate Fixed(i: nat, n: nat) {
    i == 0 || 2 * i == n
  }

  /** The half of an own plane that is overwritten. */
  predicate Overwritten(d: Spectrum, t: Site) {
    2 * t.x > d.nx || (Fixed(t.x, d.nx) && 2 * t.y > d.ny)
  }

  /** The write a site of an own plane receives, if any. */
  ghost predicate Symmetric(d: Spectrum, op: Op, t: Site) {
    && Stored(d, t) && OwnPlane(d, t.z)
    && match op
       case ZeroIm(pos) => pos == At(d, t) && Fixed(t.x, d.nx) && Fixed(t.y, d.ny)
       case Conjugate(pos, cpos) => Overwritten(d, t) && pos == At(d, t) && cpos == At(d, Partner(d, t))
  }

  ghost predicate IsSymmetric(d: Spectrum, op: Op) {
    exists t :: Symmetric(d, op, t)
  }

  /** Distinct stored entries are at distinct places, within a buffer of n. */
  ghost predicate Separate(d: Spectrum, n: nat) {
    && (forall t :: Stored(d, t) ==> At(d, t) < n)
    && (forall t, u :: Stored(d, t) && Stored(d, u) && At(d, t) == At(d, u) ==> t == u)
  }

  // ------------------------------------------------------ the host's lists

  /** Step `i` of stride `s` from `base`. */
  function Place(base: nat, i: nat, s: nat): nat {
    base + Times(i, s)
  }

  /** for(i = 1; i < (n + 1) / 2; ++i) data[base + s(n-i)] = conj(data[base + s i]) */
  function LineOps(base: nat, s: nat, n: nat): seq<Op>
    requires n > 0
  {
    seq((n + 1) / 2 - 1, i requires 0 <= i < (n + 1) / 2 - 1 =>
      Conjugate(Place(base, n - (i + 1), s), Place(base, i + 1, s)))
  }

  /** One row of the x-y plane loop: j = 1 .. ny - 1 at a given i. */
  function RowOps(base: nat, i: nat, sx: nat, nx: nat, sy: nat, ny: nat): seq<Op>
    requires i <= nx && ny > 0
  {
    seq(ny - 1, j requires 0 <= j < ny - 1 =>
      Conjugate(Place(Place(base, nx - i, sx), ny - (j + 1), sy), Place(Place(base, i, sx), j + 1, sy)))
  }

  /** Rows 1 .. k of the x-y plane loop. */
  function PlaneOps(base: nat, k: nat, sx: nat, nx: nat, sy: nat, ny: nat): seq<Op>
    requires k <= nx && ny > 0
  {
    if k == 0 then [] else PlaneOps(base, k - 1, sx, nx, sy, ny) + RowOps(base, k, sx, nx, sy, ny)
  }

  function When<T>(c: bool, s: seq<T>): seq<T> {
    if c then s else []
  }

  /** `ops` followed by a conditional corner write. */
  function Zeroed(ops: seq<Op>, c: bool, pos: nat): seq<Op> {
    ops + When(c, [ZeroIm(pos)])
  }

  /** Corner writes at the origin and on the axes, at the given half-way offsets. */
  function AxisCorners(b: nat, hx: nat, hy: nat, hz: nat, ex: bool, ey: bool, ez: bool): seq<Op> {
    Zeroed(Zeroed(Zeroed([ZeroIm(b)], ex, b + hx), ey, b + hy), ez, b + hz)
  }

  /** Corner writes off the axes. */
  function EdgeCorners(ops: seq<Op>, b: nat, hx: nat, hy: nat, hz: nat, ex: bool, ey: bool, ez: bool): seq<Op> {
    Zeroed(Zeroed(Zeroed(Zeroed(ops, ex && ey, b + hx + hy), ex && ez, b + hx + hz), ey && ez, b + hy + hz),
           ex && ey && ez, b + hx + hy + hz)
  }

  /** The corner writes of one batch. */
  function CornerOps(d: Spectrum, b: nat): seq<Op> {
    var ex, ey, ez := d.nx % 2 == 0, d.ny % 2 == 0, d.nz % 2 == 0;
    var hx, hy, hz := HalfX(d), HalfY(d), HalfZ(d);
    EdgeCorners(AxisCorners(b, hx, hy, hz, ex, ey, ez), b, hx, hy, hz, ex, ey, ez)
  }

  /** A line at `base` and, under a parity condition, one at `base + shift`. */
  function TwoLines(base: nat, shift: nat, c: bool, s: nat, n: nat): seq<Op>
    requires n > 0
  {
    LineOps(base, s, n) + When(c, LineOps(base + shift, s, n))
  }

  /** The loops over the z = 0 plane. */
  function FloorOps(d: Spectrum, b: nat): seq<Op>
    requires d.nx > 0 && d.ny > 0
  {
    TwoLines(b, HalfX(d), d.nx % 2 == 0, d.sy, d.ny)
    + TwoLines(b, HalfY(d), d.ny % 2 == 0, d.sx, d.nx)
    + PlaneOps(b, (d.nx + 1) / 2 - 1, d.sx, d.nx, d.sy, d.ny)
  }

  /**
   The loops over the z-Nyquist plane, which starts at `c`.  The loop for the
   y-Nyquist line repeats the one for the x axis; the plane loop covers that line.
   */
  function NyquistOps(d: Spectrum, c: nat): seq<Op>
    requires d.nx > 0 && d.ny > 0
  {
    TwoLines(c, 0, d.ny % 2 == 0, d.sx, d.nx)
    + TwoLines(c, HalfX(d), d.nx % 2 == 0, d.sy, d.ny)
    + PlaneOps(c, (d.nx + 1) / 2 - 1, d.sx, d.nx, d.sy, d.ny)
  }

  /** The writes of one batch, in the order of impose_hermitian_symmetry_interleaved_3D. */
  function BatchOps(d: Spectrum, b: nat): seq<Op>
    requires d.nx > 0 && d.ny > 0
  {
    CornerOps(d, b) + FloorOps(d, b) + When(d.nz % 2 == 0, NyquistOps(d, b + HalfZ(d)))
  }

  /** One list after the other, for items 0 .. n - 1. */
  function Chain<T>(n: nat, f: nat -> seq<T>): seq<T> {
    if n == 0 then [] else Chain(n - 1, f) + f(n - 1)
  }

  lemma {:induction false} ChainMembers<T>(n: nat, f: nat -> seq<T>, x: T)
    ensures x in Chain(n, f) <==> exists b :: 0 <= b < n && x in f(b)
  {
    if n > 0 {
      ChainMembers(n - 1, f, x);
    }
  }

  /** The writes of all batches, one after the other. */
  function HostOps(d: Spectrum): seq<Op>
    requires d.nx > 0 && d.ny > 0
  {
    Chain(d.nbatch, (b: nat) => BatchOps(d, Base(d, b)))
  }

  // ------------------------- the lists and the symmetry name the same writes

  ghost predicate LineOp(op: Op, i: nat, base: nat, s: nat, n: nat) {
    1 <= i && 2 * i < n && op == Conjugate(Place(base, n - i, s), Place(base, i, s))
  }

  lemma LineMembers(op: Op, base: nat, s: nat, n: nat)
    requires n > 0
    ensures op in LineOps(base, s, n) <==> exists i :: LineOp(op, i, base, s, n)
  {
    var ops := LineOps(base, s, n);
    if op in ops {
      var k :| 0 <= k < |ops| && ops[k] == op;
      assert LineOp(op, k + 1, base, s, n);
    }
    if i :| LineOp(op, i, base, s, n) {
      assert ops[i - 1] == op;
    }
  }

  ghost predicate PlaneOp(op: Op, i: nat, j: nat, base: nat, k: nat, sx: nat, nx: nat, sy: nat, ny: nat) {
    1 <= i <= k <= nx && 1 <= j < ny
    && op == Conjugate(Place(Place(base, nx - i, sx), ny - j, sy), Place(Place(base, i, sx), j, sy))
  }

  lemma {:induction false} PlaneMembers(op: Op, base: nat, k: nat, sx: nat, nx: nat, sy: nat, ny: nat)
    requires k <= nx && ny > 0
    ensures op in PlaneOps(base, k, sx, nx, sy, ny) <==> exists i, j :: PlaneOp(op, i, j, base, k, sx, nx, sy, ny)
  {
    if k > 0 {
      PlaneMembers(op, base, k - 1, sx, nx, sy, ny);
      var row := RowOps(base, k, sx, nx, sy, ny);
      if op in PlaneOps(base, k - 1, sx, nx, sy, ny) {
        var i, j :| PlaneOp(op, i, j, base, k - 1, sx, nx, sy, ny);
        assert PlaneOp(op, i, j, base, k, sx, nx, sy, ny);
      } else if op in row {
        var j :| 0 <= j < |row| && row[j] == op;
        assert PlaneOp(op, k, j + 1, base, k, sx, nx, sy, ny);
      }
      if i, j :| PlaneOp(op, i, j, base, k, sx, nx, sy, ny) {
        if i == k {
          assert row[j - 1] == op;
        } else {
          assert PlaneOp(op, i, j, base, k - 1, sx, nx, sy, ny);
        }
      }
    }
  }

  /** Spectra with at least one entry along each axis. */
  ghost predicate Proper(d: Spectrum) {
    d.nx > 0 && d.ny > 0 && d.nz > 0
  }

  lemma HalfOf(n: nat, i: nat)
    requires 2 * i == n
    ensures n % 2 == 0 && n / 2 == i
  {
  }

  lemma InZeroed(op: Op, ops: seq<Op>, c: bool, pos: nat)
    ensures op in Zeroed(ops, c, pos) <==> op in ops || (c && op == ZeroIm(pos))
  {
  }

  /** Where the corner writes go. */
  lemma InCorners(d: Spectrum, b: nat, op: Op)
    requires op in CornerOps(d, b)
    ensures op.ZeroIm?
    ensures var ex, ey, ez := d.nx % 2 == 0, d.ny % 2 == 0, d.nz % 2 == 0;
            var hx, hy, hz := HalfX(d), HalfY(d), HalfZ(d);
      || op.pos == b || (ex && op.pos == b + hx) || (ey && op.pos == b + hy) || (ez && op.pos == b + hz)
      || (ex && ey && op.pos == b + hx + hy) || (ex && ez && op.pos == b + hx + hz)
      || (ey && ez && op.pos == b + hy + hz) || (ex && ey && ez && op.pos == b + hx + hy + hz)
  {
    hide Zeroed, HalfX, HalfY, HalfZ;
    var ex, ey, ez := d.nx % 2 == 0, d.ny % 2 == 0, d.nz % 2 == 0;
    var hx, hy, hz := HalfX(d), HalfY(d), HalfZ(d);
    var p1 := [ZeroIm(b)];
    var p2 := Zeroed(p1, ex, b + hx);
    var p3 := Zeroed(p2, ey, b + hy);
    var p4 := Zeroed(p3, ez, b + hz);
    var p5 := Zeroed(p4, ex && ey, b + hx + hy);
    var p6 := Zeroed(p5, ex && ez, b + hx + hz);
    var p7 := Zeroed(p6, ey && ez, b + hy + hz);
    InZeroed(op, p7, ex && ey && ez, b + hx + hy + hz);
    InZeroed(op, p6, ey && ez, b + hy + hz);
    InZeroed(op, p5, ex && ez, b + hx + hz);
    InZeroed(op, p4, ex && ey, b + hx + hy);
    InZeroed(op, p3, ez, b + hz);
    InZeroed(op, p2, ey, b + hy);
    InZeroed(op, p1, ex, b + hx);
  }

  /** An index that a corner has along an axis of length `n`. */
  predicate CornerIndex(i: nat, n: nat) {
    i == 0 || (n % 2 == 0 && i == n / 2)
  }

  lemma CornerSound(d: Spectrum, b: nat, x: nat, y: nat, z: nat, op: Op)
    requires Proper(d) && b < d.nbatch && CornerIndex(x, d.nx) && CornerIndex(y, d.ny) && CornerIndex(z, d.nz)
    requires op == ZeroIm(At(d, Site(b, x, y, z)))
    ensures exists t: Site :: t.b == b && Symmetric(d, op, t)
  {
    assert Symmetric(d, op, Site(b, x, y, z));
  }

  lemma CornersSound(d: Spectrum, b: nat, op: Op)
    requires Proper(d) && b < d.nbatch && op in CornerOps(d, Base(d, b))
    ensures exists t: Site :: t.b == b && Symmetric(d, op, t)
  {
    var base := Base(d, b);
    var ex, ey, ez := d.nx % 2 == 0, d.ny % 2 == 0, d.nz % 2 == 0;
    var hx, hy, hz := HalfX(d), HalfY(d), HalfZ(d);
    InCorners(d, base, op);
    hide CornerOps, Symmetric, Base;
    var (x, y, z) :=
      if op.pos == base then (0, 0, 0)
      else if ex && op.pos == base + hx then (d.nx / 2, 0, 0)
      else if ey && op.pos == base + hy then (0, d.ny / 2, 0)
      else if ez && op.pos == base + hz then (0, 0, d.nz / 2)
      else if ex && ey && op.pos == base + hx + hy then (d.nx / 2, d.ny / 2, 0)
      else if ex && ez && op.pos == base + hx + hz then (d.nx / 2, 0, d.nz / 2)
      else if ey && ez && op.pos == base + hy + hz then (0, d.ny / 2, d.nz / 2)
      else (d.nx / 2, d.ny / 2, d.nz / 2);
    CornerSound(d, b, x, y, z, op);
  }

  lemma CornersComplete(d: Spectrum, op: Op, t: Site)
    requires Proper(d) && Symmetric(d, op, t) && op.ZeroIm?
    ensures op in CornerOps(d, Base(d, t.b))
  {
    if t.x != 0 { HalfOf(d.nx, t.x); }
    if t.y != 0 { HalfOf(d.ny, t.y); }
    if t.z != 0 { HalfOf(d.nz, t.z); }
  }

  /** The writes of a line along x at the own y index `y`. */
  lemma XLineSound(d: Spectrum, b: nat, y: nat, z: nat, base: nat, op: Op)
    requires Proper(d) && b < d.nbatch && y < d.ny && Fixed(y, d.ny) && z <= d.nz / 2 && OwnPlane(d, z)
    requires base == Base(d, b) + Times(y, d.sy) + Times(z, d.sz) && op in LineOps(base, d.sx, d.nx)
    ensures exists t: Site :: t.b == b && Symmetric(d, op, t)
  {
    LineMembers(op, base, d.sx, d.nx);
    var i :| LineOp(op, i, base, d.sx, d.nx);
    assert Symmetric(d, op, Site(b, d.nx - i, y, z));
  }

  lemma YLineSound(d: Spectrum, b: nat, x: nat, z: nat, base: nat, op: Op)
    requires Proper(d) && b < d.nbatch && x < d.nx && Fixed(x, d.nx) && z <= d.nz / 2 && OwnPlane(d, z)
    requires base == Base(d, b) + Times(x, d.sx) + Times(z, d.sz) && op in LineOps(base, d.sy, d.ny)
    ensures exists t: Site :: t.b == b && Symmetric(d, op, t)
  {
    LineMembers(op, base, d.sy, d.ny);
    var j :| LineOp(op, j, base, d.sy, d.ny);
    assert Symmetric(d, op, Site(b, x, d.ny - j, z));
  }

  lemma PlaneSound(d: Spectrum, b: nat, z: nat, base: nat, op: Op)
    requires Proper(d) && b < d.nbatch && z <= d.nz / 2 && OwnPlane(d, z)
    requires base == Base(d, b) + Times(z, d.sz)
    requires op in PlaneOps(base, (d.nx + 1) / 2 - 1, d.sx, d.nx, d.sy, d.ny)
    ensures exists t: Site :: t.b == b && Symmetric(d, op, t)
  {
    PlaneMembers(op, base, (d.nx + 1) / 2 - 1, d.sx, d.nx, d.sy, d.ny);
    var i, j :| PlaneOp(op, i, j, base, (d.nx + 1) / 2 - 1, d.sx, d.nx, d.sy, d.ny);
    assert Symmetric(d, op, Site(b, d.nx - i, d.ny - j, z));
  }

  lemma InThree<T>(x: T, a: seq<T>, b: seq<T>, c: seq<T>)
    ensures x in a + b + c <==> x in a || x in b || x in c
  {
  }

  lemma InTwoLines(op: Op, base: nat, shift: nat, c: bool, s: nat, n: nat)
    requires n > 0
    ensures op in TwoLines(base, shift, c, s, n)
       <==> op in LineOps(base, s, n) || (c && op in LineOps(base + shift, s, n))
  {
  }

  /** Membership in the floor loops, loop by loop. */
  ghost predicate FloorMember(d: Spectrum, b: nat, op: Op)
    requires Proper(d)
  {
    || op in LineOps(b, d.sy, d.ny)
    || (d.nx % 2 == 0 && op in LineOps(b + HalfX(d), d.sy, d.ny))
    || op in LineOps(b, d.sx, d.nx)
    || (d.ny % 2 == 0 && op in LineOps(b + HalfY(d), d.sx, d.nx))
    || op in PlaneOps(b, (d.nx + 1) / 2 - 1, d.sx, d.nx, d.sy, d.ny)
  }

  ghost predicate NyquistMember(d: Spectrum, c: nat, op: Op)
    requires Proper(d)
  {
    || op in LineOps(c, d.sx, d.nx)
    || op in LineOps(c, d.sy, d.ny)
    || (d.nx % 2 == 0 && op in LineOps(c + HalfX(d), d.sy, d.ny))
    || op in PlaneOps(c, (d.nx + 1) / 2 - 1, d.sx, d.nx, d.sy, d.ny)
  }

  lemma InFloor(d: Spectrum, b: nat, op: Op)
    requires Proper(d)
    ensures op in FloorOps(d, b) <==> FloorMember(d, b, op)
  {
    InTwoLines(op, b, HalfX(d), d.nx % 2 == 0, d.sy, d.ny);
    InTwoLines(op, b, HalfY(d), d.ny % 2 == 0, d.sx, d.nx);
    InThree(op, TwoLines(b, HalfX(d), d.nx % 2 == 0, d.sy, d.ny),
            TwoLines(b, HalfY(d), d.ny % 2 == 0, d.sx, d.nx),
            PlaneOps(b, (d.nx + 1) / 2 - 1, d.sx, d.nx, d.sy, d.ny));
  }

  lemma InNyquist(d: Spectrum, c: nat, op: Op)
    requires Proper(d)
    ensures op in NyquistOps(d, c) <==> NyquistMember(d, c, op)
  {
    InTwoLines(op, c, 0, d.ny % 2 == 0, d.sx, d.nx);
    InTwoLines(op, c, HalfX(d), d.nx % 2 == 0, d.sy, d.ny);
    InThree(op, TwoLines(c, 0, d.ny % 2 == 0, d.sx, d.nx),
            TwoLines(c, HalfX(d), d.nx % 2 == 0, d.sy, d.ny),
            PlaneOps(c, (d.nx + 1) / 2 - 1, d.sx, d.nx, d.sy, d.ny));
  }

  lemma FloorSound(d: Spectrum, b: nat, op: Op)
    requires Proper(d) && b < d.nbatch && FloorMember(d, Base(d, b), op)
    ensures exists t: Site :: t.b == b && Symmetric(d, op, t)
  {
    var base := Base(d, b);
    var hx, hy := HalfX(d), HalfY(d);
    if op in LineOps(base, d.sy, d.ny) {
      YLineSound(d, b, 0, 0, base, op);
    } else if d.nx % 2 == 0 && op in LineOps(base + hx, d.sy, d.ny) {
      YLineSound(d, b, d.nx / 2, 0, base + hx, op);
    } else if op in LineOps(base, d.sx, d.nx) {
      XLineSound(d, b, 0, 0, base, op);
    } else if d.ny % 2 == 0 && op in LineOps(base + hy, d.sx, d.nx) {
      XLineSound(d, b, d.ny / 2, 0, base + hy, op);
    } else {
      PlaneSound(d, b, 0, base, op);
    }
  }

  lemma NyquistSound(d: Spectrum, b: nat, op: Op)
    requires Proper(d) && d.nz % 2 == 0 && b < d.nbatch && NyquistMember(d, Base(d, b) + HalfZ(d), op)
    ensures exists t: Site :: t.b == b && Symmetric(d, op, t)
  {
    var base := Base(d, b) + HalfZ(d);
    var hx := HalfX(d);
    if op in LineOps(base, d.sx, d.nx) {
      XLineSound(d, b, 0, d.nz / 2, base, op);
    } else if op in LineOps(base, d.sy, d.ny) {
      YLineSound(d, b, 0, d.nz / 2, base, op);
    } else if d.nx % 2 == 0 && op in LineOps(base + hx, d.sy, d.ny) {
      YLineSound(d, b, d.nx / 2, d.nz / 2, base + hx, op);
    } else {
      PlaneSound(d, b, d.nz / 2, base, op);
    }
  }

  /** The write of an overwritten site off the y-fixed lines comes from a loop along x. */
  lemma RightHalfComplete(d: Spectrum, op: Op, t: Site)
    requires Proper(d) && Symmetric(d, op, t) && op.Conjugate? && 2 * t.x > d.nx
    ensures var base := Base(d, t.b) + Times(t.z, d.sz);
            op in LineOps(base, d.sx, d.nx) || op in PlaneOps(base, (d.nx + 1) / 2 - 1, d.sx, d.nx, d.sy, d.ny)
  {
    var base := Base(d, t.b) + Times(t.z, d.sz);
    var i := d.nx - t.x;
    if t.y == 0 {
      LineMembers(op, base, d.sx, d.nx);
      assert LineOp(op, i, base, d.sx, d.nx);
    } else {
      PlaneMembers(op, base, (d.nx + 1) / 2 - 1, d.sx, d.nx, d.sy, d.ny);
      assert PlaneOp(op, i, d.ny - t.y, base, (d.nx + 1) / 2 - 1, d.sx, d.nx, d.sy, d.ny);
    }
  }

  lemma UpperHalfComplete(d: Spectrum, op: Op, t: Site)
    requires Proper(d) && Symmetric(d, op, t) && op.Conjugate? && 2 * t.x <= d.nx
    ensures op in LineOps(Base(d, t.b) + Times(t.x, d.sx) + Times(t.z, d.sz), d.sy, d.ny)
    ensures t.x == 0 || (d.nx % 2 == 0 && t.x == d.nx / 2)
  {
    var base := Base(d, t.b) + Times(t.x, d.sx) + Times(t.z, d.sz);
    LineMembers(op, base, d.sy, d.ny);
    assert LineOp(op, d.ny - t.y, base, d.sy, d.ny);
    if t.x != 0 { HalfOf(d.nx, t.x); }
  }

  /** The write of an overwritten site is among the loops over its plane. */
  lemma PlaneComplete(d: Spectrum, op: Op, t: Site)
    requires Proper(d) && Symmetric(d, op, t) && op.Conjugate?
    ensures t.z == 0 ==> FloorMember(d, Base(d, t.b), op)
    ensures t.z != 0 ==> NyquistMember(d, Base(d, t.b) + HalfZ(d), op)
  {
    if 2 * t.x > d.nx {
      RightHalfComplete(d, op, t);
    } else {
      UpperHalfComplete(d, op, t);
    }
    if t.z != 0 { HalfOf(d.nz, t.z); }
  }

  lemma InBatch(d: Spectrum, b: nat, op: Op)
    requires Proper(d)
    ensures op in BatchOps(d, b)
       <==> || op in CornerOps(d, b) || FloorMember(d, b, op)
            || (d.nz % 2 == 0 && NyquistMember(d, b + HalfZ(d), op))
  {
    hide CornerOps, FloorOps, NyquistOps;
    InFloor(d, b, op);
    InNyquist(d, b + HalfZ(d), op);
    InThree(op, CornerOps(d, b), FloorOps(d, b), When(d.nz % 2 == 0, NyquistOps(d, b + HalfZ(d))));
  }

  lemma BatchSound(d: Spectrum, b: nat, op: Op)
    requires Proper(d) && b < d.nbatch && op in BatchOps(d, Base(d, b))
    ensures exists t: Site :: t.b == b && Symmetric(d, op, t)
  {
    InBatch(d, Base(d, b), op);
    if op in CornerOps(d, Base(d, b)) {
      CornersSound(d, b, op);
    } else if FloorMember(d, Base(d, b), op) {
      FloorSound(d, b, op);
    } else {
      NyquistSound(d, b, op);
    }
  }

  lemma BatchComplete(d: Spectrum, op: Op, t: Site)
    requires Proper(d) && Symmetric(d, op, t)
    ensures op in BatchOps(d, Base(d, t.b))
  {
    InBatch(d, Base(d, t.b), op);
    if op.ZeroIm? {
      CornersComplete(d, op, t);
    } else {
      PlaneComplete(d, op, t);
      if t.z != 0 { HalfOf(d.nz, t.z); }
    }
  }

  /** The writes of the host loops are exactly those the symmetry asks for. */
  lemma HostOpsAreSymmetric(d: Spectrum, op: Op)
    requires Proper(d)
    ensures op in HostOps(d) <==> IsSymmetric(d, op)
  {
    var f := (b: nat) => BatchOps(d, Base(d, b));
    ChainMembers(d.nbatch, f, op);
    if b :| 0 <= b < d.nbatch && op in f(b) {
      BatchSound(d, b, op);
    }
    if t :| Symmetric(d, op, t) {
      BatchComplete(d, op, t);
      assert op in f(t.b);
    }
  }
}
