/**
 The Hermitian kernels of shared/data_gen_device.h: one thread per (batch, x, y),
 threads interleaved at every load and every store.
 */
module HermitianDevice {
  import DeviceGrids
  import opened Arith
  import opened Spectra
  import opened HermitianOps
  import opened HermitianTheorems
  import opened Layouts

  // ------------------------------------------------- interleaved execution

  /**
   A thread part-way through its writes.  A conjugate is four steps: load the
   real part, store it, load the imaginary part, store its negation.
   */
  datatype Thread = Thread(todo: seq<Op>, phase: nat, reg: real)

  datatype Machine = Machine(mem: seq<Complex>, threads: seq<Thread>)

  /** One load or store of a thread with work left. */
  function StepThread(mem: seq<Complex>, t: Thread): (r: (seq<Complex>, Thread))
    requires t.todo != [] && InRange(t.todo[0], |mem|)
    ensures |r.0| == |mem|
  {
    var next := Thread(t.todo[1..], 0, 0.0);
    match t.todo[0]
    case ZeroIm(pos) => (mem[pos := mem[pos].(im := 0.0)], next)
    case Conjugate(pos, cpos) =>
      if t.phase == 0 then (mem, t.(phase := 1, reg := mem[cpos].re))
      else if t.phase == 1 then (mem[pos := mem[pos].(re := t.reg)], t.(phase := 2))
      else if t.phase == 2 then (mem, t.(phase := 3, reg := mem[cpos].im))
      else (mem[pos := mem[pos].(im := -t.reg)], next)
  }

  /** The scheduler picks thread `k`; a finished thread stays finished. */
  function Step(m: Machine, k: nat): Machine {
    if k < |m.threads| && m.threads[k].todo != [] && InRange(m.threads[k].todo[0], |m.mem|) then
      var (mem, t) := StepThread(m.mem, m.threads[k]);
      Machine(mem, m.threads[k := t])
    else m
  }

  /** The machine after a schedule. */
  function Run(m: Machine, schedule: seq<nat>): Machine
    decreases |schedule|
  {
    if schedule == [] then m
    else Step(Run(m, schedule[..|schedule| - 1]), schedule[|schedule| - 1])
  }

  /** All threads at their start. */
  function Launch(mem: seq<Complex>, programs: seq<seq<Op>>): Machine {
    Machine(mem, seq(|programs|, i requires 0 <= i < |programs| => Thread(programs[i], 0, 0.0)))
  }

  ghost predicate Finished(m: Machine) {
    forall k :: 0 <= k < |m.threads| ==> m.threads[k].todo == []
  }

  // ---------------------------------------------------- what every step keeps

  /** The reading half of a thread's current write is consistent with the final buffer. */
  ghost predicate ThreadOk(b: seq<Complex>, all: seq<Op>, fin: seq<Complex>, mem: seq<Complex>, t: Thread)
    requires AllInRange(all, |b|) && |b| == |fin| == |mem|
  {
    && (forall op :: op in t.todo ==> op in all)
    && (t.phase > 0 ==>
          && t.todo != [] && t.todo[0].Conjugate?
          && t.todo[0] in all
          && (t.phase == 1 ==> t.reg == b[t.todo[0].cpos].re)
          && (t.phase >= 2 ==> mem[t.todo[0].pos].re == fin[t.todo[0].pos].re)
          && (t.phase >= 3 ==> t.reg == b[t.todo[0].cpos].im))
  }

  /** Places nobody writes, and real parts nobody writes, are as at the start. */
  ghost predicate MemOk(b: seq<Complex>, all: seq<Op>, mem: seq<Complex>)
    requires AllInRange(all, |b|) && |b| == |mem|
  {
    && (forall p :: 0 <= p < |b| && (forall op :: op in all ==> op.pos != p) ==> mem[p] == b[p])
    && (forall op :: op in all && op.ZeroIm? ==> mem[op.pos].re == b[op.pos].re)
  }

  /** A write is done once no thread has it left to do. */
  ghost predicate DoneOk(all: seq<Op>, fin: seq<Complex>, m: Machine)
    requires AllInRange(all, |fin|) && |m.mem| == |fin|
  {
    forall op :: op in all ==>
      m.mem[op.pos] == fin[op.pos] || exists k :: 0 <= k < |m.threads| && op in m.threads[k].todo
  }

  ghost predicate Invariant(b: seq<Complex>, all: seq<Op>, fin: seq<Complex>, m: Machine) {
    && RaceFree(all) && AllInRange(all, |b|) && IsResult(b, all, fin) && |m.mem| == |b|
    && MemOk(b, all, m.mem)
    && DoneOk(all, fin, m)
    && forall k :: 0 <= k < |m.threads| ==> ThreadOk(b, all, fin, m.mem, m.threads[k])
  }

  /** Every store moves its component to the final value, and no other. */
  ghost predicate Towards(b: seq<Complex>, all: seq<Op>, fin: seq<Complex>, mem: seq<Complex>, mem': seq<Complex>)
    requires |b| == |fin| == |mem| == |mem'|
  {
    forall p :: 0 <= p < |b| ==>
      && (mem'[p].re == mem[p].re || mem'[p].re == fin[p].re)
      && (mem'[p].im == mem[p].im || mem'[p].im == fin[p].im)
      && (mem'[p] == mem[p] || exists op :: op in all && op.pos == p)
  }

  /** A step keeps its own thread consistent. */
  lemma StepKeepsThread(b: seq<Complex>, all: seq<Op>, fin: seq<Complex>, mem: seq<Complex>, t: Thread)
    requires RaceFree(all) && AllInRange(all, |b|) && IsResult(b, all, fin) && |mem| == |b|
    requires MemOk(b, all, mem) && ThreadOk(b, all, fin, mem, t) && t.todo != []
    ensures t.todo[0] in all && InRange(t.todo[0], |mem|)
    ensures var (mem', t') := StepThread(mem, t);
            Towards(b, all, fin, mem, mem') && ThreadOk(b, all, fin, mem', t')
    ensures var (mem', t') := StepThread(mem, t);
            |t'.todo| < |t.todo| ==> mem'[t.todo[0].pos] == fin[t.todo[0].pos]
  {
    var op := t.todo[0];
    assert op in all;
    if op.Conjugate? {
      assert forall o :: o in all ==> o.pos != op.cpos;
      assert mem[op.cpos] == b[op.cpos];
    }
    assert fin[op.pos] == Value(op, b);
  }

  /** Stores towards the final value keep every other thread consistent. */
  lemma TowardsKeeps(b: seq<Complex>, all: seq<Op>, fin: seq<Complex>, mem: seq<Complex>, mem': seq<Complex>, t: Thread)
    requires AllInRange(all, |b|) && IsResult(b, all, fin) && |mem| == |mem'| == |b|
    requires ThreadOk(b, all, fin, mem, t) && Towards(b, all, fin, mem, mem')
    ensures ThreadOk(b, all, fin, mem', t)
  {
  }

  lemma TowardsKeepsMem(b: seq<Complex>, all: seq<Op>, fin: seq<Complex>, mem: seq<Complex>, mem': seq<Complex>)
    requires RaceFree(all) && AllInRange(all, |b|) && IsResult(b, all, fin) && |mem| == |mem'| == |b|
    requires MemOk(b, all, mem) && Towards(b, all, fin, mem, mem')
    ensures MemOk(b, all, mem')
  {
  }

  /** The invariant survives every step of every thread. */
  lemma StepKeepsInvariant(b: seq<Complex>, all: seq<Op>, fin: seq<Complex>, m: Machine, k: nat)
    requires Invariant(b, all, fin, m)
    ensures Invariant(b, all, fin, Step(m, k))
  {
    if k < |m.threads| && m.threads[k].todo != [] {
      var t := m.threads[k];
      assert ThreadOk(b, all, fin, m.mem, t);
      StepKeepsThread(b, all, fin, m.mem, t);
      var (mem', t') := StepThread(m.mem, t);
      var m' := Step(m, k);
      TowardsKeepsMem(b, all, fin, m.mem, mem');
      forall i | 0 <= i < |m'.threads| ensures ThreadOk(b, all, fin, m'.mem, m'.threads[i]) {
        if i != k {
          TowardsKeeps(b, all, fin, m.mem, mem', m.threads[i]);
        }
      }
      StepKeepsDone(b, all, fin, m, k);
    }
  }

  lemma StepKeepsDone(b: seq<Complex>, all: seq<Op>, fin: seq<Complex>, m: Machine, k: nat)
    requires Invariant(b, all, fin, m) && k < |m.threads| && m.threads[k].todo != []
    ensures |Step(m, k).mem| == |fin| && DoneOk(all, fin, Step(m, k))
  {
    var t := m.threads[k];
    assert ThreadOk(b, all, fin, m.mem, t);
    StepKeepsThread(b, all, fin, m.mem, t);
    var (mem', t') := StepThread(m.mem, t);
    var m' := Step(m, k);
    forall op | op in all
      ensures mem'[op.pos] == fin[op.pos] || exists i :: 0 <= i < |m'.threads| && op in m'.threads[i].todo
    {
      if m.mem[op.pos] != fin[op.pos] {
        var i :| 0 <= i < |m.threads| && op in m.threads[i].todo;
        if i != k {
          assert op in m'.threads[i].todo;
        } else if t'.todo == t.todo {
          assert op in m'.threads[k].todo;
        } else if op != t.todo[0] {
          assert op in t.todo[1..];
          assert op in m'.threads[k].todo;
        }
      }
    }
  }

  lemma {:induction false} RunKeepsInvariant(b: seq<Complex>, all: seq<Op>, fin: seq<Complex>, m: Machine, schedule: seq<nat>)
    requires Invariant(b, all, fin, m)
    ensures Invariant(b, all, fin, Run(m, schedule))
    decreases |schedule|
  {
    if schedule != [] {
      RunKeepsInvariant(b, all, fin, m, schedule[..|schedule| - 1]);
      StepKeepsInvariant(b, all, fin, Run(m, schedule[..|schedule| - 1]), schedule[|schedule| - 1]);
    }
  }

  /** `all` is the list of the writes of all programs. */
  ghost predicate Gathers(all: seq<Op>, programs: seq<seq<Op>>) {
    forall op :: op in all <==> exists k :: 0 <= k < |programs| && op in programs[k]
  }

  /** Race-free programs leave the sequential result under every interleaving. */
  lemma EveryInterleavingAgrees(b: seq<Complex>, all: seq<Op>, programs: seq<seq<Op>>, schedule: seq<nat>)
    requires RaceFree(all) && AllInRange(all, |b|) && Gathers(all, programs)
    requires Finished(Run(Launch(b, programs), schedule))
    ensures Run(Launch(b, programs), schedule).mem == Apply(b, all)
  {
    var fin, m := Apply(b, all), Launch(b, programs);
    ApplyIsResult(b, all, all);
    forall op | op in all ensures exists k :: 0 <= k < |m.threads| && op in m.threads[k].todo {
      var k :| 0 <= k < |programs| && op in programs[k];
      assert op in m.threads[k].todo;
    }
    RunKeepsInvariant(b, all, fin, m, schedule);
    var r := Run(m, schedule);
    forall p | 0 <= p < |b| ensures r.mem[p] == fin[p] {
      if op :| op in all && op.pos == p {
        assert r.mem[op.pos] == fin[op.pos];
      }
    }
  }

  // ------------------------------------------------------ schedules that finish

  /** Steps a thread has left. */
  function Left(t: Thread): int {
    4 * |t.todo| - t.phase
  }

  /** Work is in range, and only a conjugate is ever part-way through. */
  ghost predicate Runnable(t: Thread, n: nat) {
    && AllInRange(t.todo, n)
    && (t.phase > 0 ==> t.phase <= 3 && t.todo != [] && t.todo[0].Conjugate?)
  }

  ghost predicate AllRunnable(m: Machine) {
    forall k :: 0 <= k < |m.threads| ==> Runnable(m.threads[k], |m.mem|)
  }

  function TotalLeft(threads: seq<Thread>): int {
    if threads == [] then 0 else Left(threads[0]) + TotalLeft(threads[1..])
  }

  lemma {:induction false} LeftUpdate(threads: seq<Thread>, k: nat, t: Thread)
    requires k < |threads|
    ensures TotalLeft(threads[k := t]) == TotalLeft(threads) - Left(threads[k]) + Left(t)
  {
    var u := threads[k := t];
    if k == 0 {
      assert u[1..] == threads[1..];
    } else {
      LeftUpdate(threads[1..], k - 1, t);
      assert u[1..] == threads[1..][k - 1 := t];
    }
  }

  lemma {:induction false} LeftNonNegative(threads: seq<Thread>, n: nat)
    requires forall k :: 0 <= k < |threads| ==> Runnable(threads[k], n)
    ensures TotalLeft(threads) >= 0
  {
    if threads != [] {
      assert Runnable(threads[0], n);
      LeftNonNegative(threads[1..], n);
    }
  }

  /** A step of a thread with work left reduces the work by something. */
  lemma StepReducesWork(m: Machine, k: nat)
    requires AllRunnable(m) && k < |m.threads| && m.threads[k].todo != []
    ensures AllRunnable(Step(m, k)) && TotalLeft(Step(m, k).threads) < TotalLeft(m.threads)
  {
    var t := m.threads[k];
    assert Runnable(t, |m.mem|);
    assert InRange(t.todo[0], |m.mem|);
    var (mem, t') := StepThread(m.mem, t);
    LeftUpdate(m.threads, k, t');
  }

  /** Every schedule can be continued until all threads are through. */
  lemma {:induction false} ScheduleFinishes(m: Machine, schedule: seq<nat>) returns (whole: seq<nat>)
    requires AllRunnable(Run(m, schedule))
    ensures schedule <= whole && Finished(Run(m, whole))
    decreases TotalLeft(Run(m, schedule).threads)
  {
    var r := Run(m, schedule);
    whole := schedule;
    if k :| 0 <= k < |r.threads| && r.threads[k].todo != [] {
      StepReducesWork(r, k);
      LeftNonNegative(Step(r, k).threads, |Step(r, k).mem|);
      assert (schedule + [k])[..|schedule|] == schedule;
      whole := ScheduleFinishes(m, schedule + [k]);
    }
  }

  lemma {:induction false} RunKeepsRunnable(m: Machine, schedule: seq<nat>)
    requires AllRunnable(m)
    ensures AllRunnable(Run(m, schedule))
    decreases |schedule|
  {
    if schedule != [] {
      var n := |schedule| - 1;
      var r := Run(m, schedule[..n]);
      RunKeepsRunnable(m, schedule[..n]);
      if schedule[n] < |r.threads| && r.threads[schedule[n]].todo != [] {
        StepReducesWork(r, schedule[n]);
      }
    }
  }

  lemma LaunchIsRunnable(b: seq<Complex>, all: seq<Op>, programs: seq<seq<Op>>)
    requires AllInRange(all, |b|) && Gathers(all, programs)
    ensures AllRunnable(Launch(b, programs))
  {
    forall k, op | 0 <= k < |programs| && op in programs[k] ensures InRange(op, |b|) {
      assert op in all;
    }
  }

  // ------------------------------------------------------------ the kernels

  lemma DivRoundingUpCovers(a: nat)
    ensures a <= DeviceGrids.DivRoundingUp(a, 8) * 8 < a + 8
    ensures DeviceGrids.DivRoundingUp(a, 8) > 0 <==> a > 0
  {
  }

  /** The write of step `i` of a line, if the line has that many. */
  function LineAt(c: bool, base: nat, s: nat, n: nat, i: nat): seq<Op>
    requires n > 0
  {
    if c && i < (n + 1) / 2 - 1 then [Conjugate(Place(base, n - (i + 1), s), Place(base, i + 1, s))] else []
  }

  /** The writes of thread (x, y) over the plane that starts at `b`: lines first, then the interior. */
  function PlaneThread(d: Spectrum, b: nat, x: nat, y: nat): seq<Op>
    requires d.nx > 0 && d.ny > 0
  {
    LineAt(x == 0, b, d.sy, d.ny, y) + LineAt(d.nx % 2 == 0 && x == 0, b + HalfX(d), d.sy, d.ny, y)
    + LineAt(y == 0, b, d.sx, d.nx, x) + LineAt(d.ny % 2 == 0 && y == 0, b + HalfY(d), d.sx, d.nx, x)
    + InteriorThread(d, b, x, y)
  }

  function InteriorThread(d: Spectrum, b: nat, x: nat, y: nat): seq<Op>
    requires d.nx > 0 && d.ny > 0
  {
    if x < (d.nx + 1) / 2 - 1 && y < d.ny - 1 then
      [Conjugate(Place(Place(b, d.nx - (x + 1), d.sx), d.ny - (y + 1), d.sy),
                 Place(Place(b, x + 1, d.sx), y + 1, d.sy))]
    else []
  }

  /** On the z-Nyquist plane the line along x comes first and is written twice for even ny. */
  function NyquistThread(d: Spectrum, c: nat, x: nat, y: nat): seq<Op>
    requires d.nx > 0 && d.ny > 0
  {
    LineAt(y == 0, c, d.sx, d.nx, x) + LineAt(d.ny % 2 == 0 && y == 0, c, d.sx, d.nx, x)
    + LineAt(x == 0, c, d.sy, d.ny, y) + LineAt(d.nx % 2 == 0 && x == 0, c + HalfX(d), d.sy, d.ny, y)
    + InteriorThread(d, c, x, y)
  }

  /** impose_hermitian_symmetry_interleaved_3D_kernel, for one thread. */
  function ThreadOps(d: Spectrum, ib: nat, x: nat, y: nat): seq<Op>
    requires d.nx > 0 && d.ny > 0
  {
    if ib >= d.nbatch then []
    else
      When(x == 0 && y == 0, CornerOps(d, Base(d, ib)))
      + PlaneThread(d, Base(d, ib), x, y)
      + When(d.nz % 2 == 0, NyquistThread(d, Base(d, ib) + HalfZ(d), x, y))
  }

  /**
   Threads along batch, x and y: generate_hermitian_gridDim times the block size.
   Up to 2^32 indices along an axis these are the numbers the kernels compute, as
   DeviceGrids.AxisIdsAreExact proves.
   */
  function GridThreads(d: Spectrum): seq<nat>
    requires d.nx > 0 && d.ny > 0
  {
    [DeviceGrids.DivRoundingUp(d.nbatch, DeviceGrids.DATA_GEN_THREADS) * DeviceGrids.DATA_GEN_THREADS,
     DeviceGrids.DivRoundingUp((d.nx + 1) / 2 - 1, DeviceGrids.DATA_GEN_THREADS) * DeviceGrids.DATA_GEN_THREADS,
     DeviceGrids.DivRoundingUp(d.ny - 1, DeviceGrids.DATA_GEN_THREADS) * DeviceGrids.DATA_GEN_THREADS]
  }

  /** The launch: one program per thread of the grid. */
  function Programs(d: Spectrum): (ps: seq<seq<Op>>)
    requires d.nx > 0 && d.ny > 0
    ensures |ps| == Product(GridThreads(d))
  {
    var g := GridThreads(d);
    seq(Product(g), q requires 0 <= q < Product(g) => var t := Unrank(q, g); ThreadOps(d, t[0], t[1], t[2]))
  }

  lemma ProgramOf(d: Spectrum, ib: nat, x: nat, y: nat) returns (q: nat)
    requires Proper(d) && InBox([ib, x, y], GridThreads(d))
    ensures q < |Programs(d)| && Programs(d)[q] == ThreadOps(d, ib, x, y)
  {
    var g, t := GridThreads(d), [ib, x, y];
    q := Rank(t, g);
    RankBound(t, g);
    RankInjective(t, Unrank(q, g), g);
  }

  lemma LineThreads(op: Op, base: nat, s: nat, n: nat)
    requires n > 0
    ensures op in LineOps(base, s, n) <==> exists i :: 0 <= i < (n + 1) / 2 - 1 && op in LineAt(true, base, s, n, i)
  {
    var ops := LineOps(base, s, n);
    if op in ops {
      var i :| 0 <= i < |ops| && ops[i] == op;
      assert op in LineAt(true, base, s, n, i);
    }
    if i :| 0 <= i < (n + 1) / 2 - 1 && op in LineAt(true, base, s, n, i) {
      assert ops[i] == op;
    }
  }

  lemma InteriorSound(op: Op, d: Spectrum, b: nat, x: nat, y: nat)
    requires Proper(d) && op in InteriorThread(d, b, x, y)
    ensures op in PlaneOps(b, (d.nx + 1) / 2 - 1, d.sx, d.nx, d.sy, d.ny)
  {
    PlaneMembers(op, b, (d.nx + 1) / 2 - 1, d.sx, d.nx, d.sy, d.ny);
    assert PlaneOp(op, x + 1, y + 1, b, (d.nx + 1) / 2 - 1, d.sx, d.nx, d.sy, d.ny);
  }

  lemma LineAtSound(op: Op, c: bool, base: nat, s: nat, n: nat, i: nat)
    requires n > 0 && op in LineAt(c, base, s, n, i)
    ensures c && op in LineOps(base, s, n)
  {
    LineThreads(op, base, s, n);
    assert op in LineAt(true, base, s, n, i);
  }

  /** Every write of a thread is one of the host's writes. */
  lemma PlaneThreadSound(op: Op, d: Spectrum, b: nat, x: nat, y: nat)
    requires Proper(d) && op in PlaneThread(d, b, x, y)
    ensures FloorMember(d, b, op)
  {
    if op in LineAt(x == 0, b, d.sy, d.ny, y) {
      LineAtSound(op, x == 0, b, d.sy, d.ny, y);
    } else if op in LineAt(d.nx % 2 == 0 && x == 0, b + HalfX(d), d.sy, d.ny, y) {
      LineAtSound(op, d.nx % 2 == 0 && x == 0, b + HalfX(d), d.sy, d.ny, y);
    } else if op in LineAt(y == 0, b, d.sx, d.nx, x) {
      LineAtSound(op, y == 0, b, d.sx, d.nx, x);
    } else if op in LineAt(d.ny % 2 == 0 && y == 0, b + HalfY(d), d.sx, d.nx, x) {
      LineAtSound(op, d.ny % 2 == 0 && y == 0, b + HalfY(d), d.sx, d.nx, x);
    } else {
      InteriorSound(op, d, b, x, y);
    }
  }

  lemma NyquistThreadSound(op: Op, d: Spectrum, c: nat, x: nat, y: nat)
    requires Proper(d) && op in NyquistThread(d, c, x, y)
    ensures NyquistMember(d, c, op)
  {
    if op in LineAt(y == 0, c, d.sx, d.nx, x) {
      LineAtSound(op, y == 0, c, d.sx, d.nx, x);
    } else if op in LineAt(d.ny % 2 == 0 && y == 0, c, d.sx, d.nx, x) {
      LineAtSound(op, d.ny % 2 == 0 && y == 0, c, d.sx, d.nx, x);
    } else if op in LineAt(x == 0, c, d.sy, d.ny, y) {
      LineAtSound(op, x == 0, c, d.sy, d.ny, y);
    } else if op in LineAt(d.nx % 2 == 0 && x == 0, c + HalfX(d), d.sy, d.ny, y) {
      LineAtSound(op, d.nx % 2 == 0 && x == 0, c + HalfX(d), d.sy, d.ny, y);
    } else {
      InteriorSound(op, d, c, x, y);
    }
  }

  /** Membership in a thread's program, part by part. */
  lemma InThread(op: Op, d: Spectrum, ib: nat, x: nat, y: nat)
    requires Proper(d)
    ensures op in ThreadOps(d, ib, x, y)
       <==> ib < d.nbatch
            && (|| (x == 0 && y == 0 && op in CornerOps(d, Base(d, ib)))
                || op in PlaneThread(d, Base(d, ib), x, y)
                || (d.nz % 2 == 0 && op in NyquistThread(d, Base(d, ib) + HalfZ(d), x, y)))
  {
    hide CornerOps, PlaneThread, NyquistThread;
    InThree(op, When(x == 0 && y == 0, CornerOps(d, Base(d, ib))), PlaneThread(d, Base(d, ib), x, y),
            When(d.nz % 2 == 0, NyquistThread(d, Base(d, ib) + HalfZ(d), x, y)));
  }

  lemma ThreadSound(op: Op, d: Spectrum, ib: nat, x: nat, y: nat)
    requires Proper(d) && op in ThreadOps(d, ib, x, y)
    ensures IsSymmetric(d, op)
  {
    InThread(op, d, ib, x, y);
    ThreadPartSound(op, d, ib, x, y);
    BatchSound(d, ib, op);
  }

  lemma ThreadPartSound(op: Op, d: Spectrum, ib: nat, x: nat, y: nat)
    requires Proper(d) && ib < d.nbatch
    requires || (x == 0 && y == 0 && op in CornerOps(d, Base(d, ib)))
             || op in PlaneThread(d, Base(d, ib), x, y)
             || (d.nz % 2 == 0 && op in NyquistThread(d, Base(d, ib) + HalfZ(d), x, y))
    ensures op in BatchOps(d, Base(d, ib))
  {
    hide PlaneThread, NyquistThread, CornerOps, BatchOps;
    InBatch(d, Base(d, ib), op);
    if op in PlaneThread(d, Base(d, ib), x, y) {
      PlaneThreadSound(op, d, Base(d, ib), x, y);
    } else if d.nz % 2 == 0 && op in NyquistThread(d, Base(d, ib) + HalfZ(d), x, y) {
      NyquistThreadSound(op, d, Base(d, ib) + HalfZ(d), x, y);
    }
  }

  lemma InteriorComplete(op: Op, d: Spectrum, b: nat) returns (x: nat, y: nat)
    requires Proper(d) && op in PlaneOps(b, (d.nx + 1) / 2 - 1, d.sx, d.nx, d.sy, d.ny)
    ensures x < (d.nx + 1) / 2 - 1 && y < d.ny - 1 && op in InteriorThread(d, b, x, y)
  {
    PlaneMembers(op, b, (d.nx + 1) / 2 - 1, d.sx, d.nx, d.sy, d.ny);
    var i: nat, j: nat :| PlaneOp(op, i, j, b, (d.nx + 1) / 2 - 1, d.sx, d.nx, d.sy, d.ny);
    x, y := i - 1, j - 1;
  }

  /** Every host write over a plane is made by a thread that exists. */
  lemma FloorComplete(op: Op, d: Spectrum, b: nat) returns (x: nat, y: nat)
    requires Proper(d) && FloorMember(d, b, op)
    ensures op in PlaneThread(d, b, x, y)
    ensures (x == 0 || x < (d.nx + 1) / 2 - 1) && (y == 0 || y < d.ny - 1)
  {
    LineThreads(op, b, d.sy, d.ny);
    LineThreads(op, b + HalfX(d), d.sy, d.ny);
    LineThreads(op, b, d.sx, d.nx);
    LineThreads(op, b + HalfY(d), d.sx, d.nx);
    x, y := 0, 0;
    if op in LineOps(b, d.sy, d.ny) {
      y :| y < (d.ny + 1) / 2 - 1 && op in LineAt(true, b, d.sy, d.ny, y);
    } else if d.nx % 2 == 0 && op in LineOps(b + HalfX(d), d.sy, d.ny) {
      y :| y < (d.ny + 1) / 2 - 1 && op in LineAt(true, b + HalfX(d), d.sy, d.ny, y);
    } else if op in LineOps(b, d.sx, d.nx) {
      x :| x < (d.nx + 1) / 2 - 1 && op in LineAt(true, b, d.sx, d.nx, x);
    } else if d.ny % 2 == 0 && op in LineOps(b + HalfY(d), d.sx, d.nx) {
      x :| x < (d.nx + 1) / 2 - 1 && op in LineAt(true, b + HalfY(d), d.sx, d.nx, x);
    } else {
      x, y := InteriorComplete(op, d, b);
    }
  }

  lemma NyquistComplete(op: Op, d: Spectrum, c: nat) returns (x: nat, y: nat)
    requires Proper(d) && NyquistMember(d, c, op)
    ensures op in NyquistThread(d, c, x, y)
    ensures (x == 0 || x < (d.nx + 1) / 2 - 1) && (y == 0 || y < d.ny - 1)
  {
    LineThreads(op, c, d.sx, d.nx);
    LineThreads(op, c, d.sy, d.ny);
    LineThreads(op, c + HalfX(d), d.sy, d.ny);
    x, y := 0, 0;
    if op in LineOps(c, d.sx, d.nx) {
      x :| x < (d.nx + 1) / 2 - 1 && op in LineAt(true, c, d.sx, d.nx, x);
    } else if op in LineOps(c, d.sy, d.ny) {
      y :| y < (d.ny + 1) / 2 - 1 && op in LineAt(true, c, d.sy, d.ny, y);
    } else if d.nx % 2 == 0 && op in LineOps(c + HalfX(d), d.sy, d.ny) {
      y :| y < (d.ny + 1) / 2 - 1 && op in LineAt(true, c + HalfX(d), d.sy, d.ny, y);
    } else {
      x, y := InteriorComplete(op, d, c);
    }
  }

  lemma ThreadComplete(op: Op, d: Spectrum, t: Site) returns (x: nat, y: nat)
    requires Proper(d) && Symmetric(d, op, t)
    ensures op in ThreadOps(d, t.b, x, y)
    ensures (x == 0 || x < (d.nx + 1) / 2 - 1) && (y == 0 || y < d.ny - 1)
  {
    hide ThreadOps, BatchOps, PlaneThread, NyquistThread, CornerOps;
    BatchComplete(d, op, t);
    x, y := ThreadPartComplete(op, d, t.b);
    InThread(op, d, t.b, x, y);
  }

  lemma ThreadPartComplete(op: Op, d: Spectrum, ib: nat) returns (x: nat, y: nat)
    requires Proper(d) && ib < d.nbatch && op in BatchOps(d, Base(d, ib))
    ensures || (x == 0 && y == 0 && op in CornerOps(d, Base(d, ib)))
            || op in PlaneThread(d, Base(d, ib), x, y)
            || (d.nz % 2 == 0 && op in NyquistThread(d, Base(d, ib) + HalfZ(d), x, y))
    ensures (x == 0 || x < (d.nx + 1) / 2 - 1) && (y == 0 || y < d.ny - 1)
  {
    hide PlaneThread, NyquistThread, CornerOps, BatchOps;
    InBatch(d, Base(d, ib), op);
    x, y := 0, 0;
    if FloorMember(d, Base(d, ib), op) {
      x, y := FloorComplete(op, d, Base(d, ib));
    } else if d.nz % 2 == 0 && NyquistMember(d, Base(d, ib) + HalfZ(d), op) {
      x, y := NyquistComplete(op, d, Base(d, ib) + HalfZ(d));
    }
  }

  lemma GridComplete(d: Spectrum, op: Op, t: Site) returns (k: nat)
    requires Proper(d) && d.nx >= 3 && d.ny >= 2 && Symmetric(d, op, t)
    ensures k < |Programs(d)| && op in Programs(d)[k]
  {
    DivRoundingUpCovers(d.nbatch);
    DivRoundingUpCovers((d.nx + 1) / 2 - 1);
    DivRoundingUpCovers(d.ny - 1);
    var x, y := ThreadComplete(op, d, t);
    hide ThreadOps;
    assert InBox([t.b, x, y], GridThreads(d));
    k := ProgramOf(d, t.b, x, y);
  }

  /** A grid with threads along every axis makes exactly the host's writes. */
  lemma GridMakesHostWrites(d: Spectrum)
    requires Proper(d) && d.nx >= 3 && d.ny >= 2
    ensures Gathers(HostOps(d), Programs(d))
  {
    HostLists(d);
    hide HostOps, ThreadOps;
    forall op
      ensures op in HostOps(d) <==> exists k :: 0 <= k < |Programs(d)| && op in Programs(d)[k]
    {
      if op in HostOps(d) {
        var t :| Symmetric(d, op, t);
        var k := GridComplete(d, op, t);
      }
      if k :| 0 <= k < |Programs(d)| && op in Programs(d)[k] {
        var u := Unrank(k, GridThreads(d));
        ThreadSound(op, d, u[0], u[1], u[2]);
      }
    }
  }

  /** Main result: any finished interleaving of the kernel leaves what the host loops leave. */
  lemma DeviceAgreesWithHost(d: Spectrum, b: seq<Complex>, schedule: seq<nat>)
    requires Proper(d) && Separate(d, |b|) && d.nx >= 3 && d.ny >= 2
    requires Finished(Run(Launch(b, Programs(d)), schedule))
    ensures Run(Launch(b, Programs(d)), schedule).mem == Apply(b, HostOps(d))
  {
    HostLists(d);
    SymmetricOpsAreRaceFree(d, |b|, HostOps(d));
    GridMakesHostWrites(d);
    EveryInterleavingAgrees(b, HostOps(d), Programs(d), schedule);
  }

  /** Any beginning of an execution of the kernel can be completed. */
  lemma KernelFinishes(d: Spectrum, b: seq<Complex>, begun: seq<nat>) returns (schedule: seq<nat>)
    requires Proper(d) && Separate(d, |b|) && d.nx >= 3 && d.ny >= 2
    ensures begun <= schedule && Finished(Run(Launch(b, Programs(d)), schedule))
  {
    HostLists(d);
    SymmetricOpsAreRaceFree(d, |b|, HostOps(d));
    GridMakesHostWrites(d);
    LaunchIsRunnable(b, HostOps(d), Programs(d));
    RunKeepsRunnable(Launch(b, Programs(d)), begun);
    schedule := ScheduleFinishes(Launch(b, Programs(d)), begun);
  }

  /** The grid has no threads at all exactly when some axis has nothing to do. */
  lemma EmptyGrid(d: Spectrum)
    requires Proper(d)
    ensures Product(GridThreads(d)) == 0 <==> d.nbatch == 0 || d.nx <= 2 || d.ny <= 1
  {
    var g := GridThreads(d);
    DivRoundingUpCovers(d.nbatch);
    DivRoundingUpCovers((d.nx + 1) / 2 - 1);
    DivRoundingUpCovers(d.ny - 1);
    assert Product(g[1..][1..]) == g[2] * Product(g[1..][1..][1..]);
    assert Product(g) == g[0] * (g[1] * g[2]);
    if g[0] > 0 && g[1] > 0 && g[2] > 0 {
      MulPositive(g[1], g[2]);
      MulPositive(g[0], g[1] * g[2]);
    }
  }

  /** Every finished interleaving, from every buffer of `n` elements, leaves what the host leaves. */
  ghost predicate AlwaysAgrees(programs: seq<seq<Op>>, ops: seq<Op>, n: nat) {
    forall b: seq<Complex>, schedule: seq<nat> ::
      |b| == n && Finished(Run(Launch(b, programs), schedule)) ==> Run(Launch(b, programs), schedule).mem == Apply(b, ops)
  }

  /** A buffer with no real entry, of which the host makes the origin real. */
  lemma HostChangesSomething(d: Spectrum, n: nat) returns (b: seq<Complex>)
    requires Proper(d) && Separate(d, n) && d.nbatch > 0
    ensures |b| == n && Apply(b, HostOps(d)) != b
  {
    b := seq(n, _ => Complex(0.0, 1.0));
    HostLists(d);
    var t := Site(0, 0, 0, 0);
    SymmetrisedEntry(d, b, HostOps(d), t);
    assert At(d, t) < n;
  }

  lemma NoThreadsNoChange(b: seq<Complex>)
    ensures Finished(Run(Launch(b, []), [])) && Run(Launch(b, []), []).mem == b
  {
  }

  lemma NothingToDo(d: Spectrum)
    requires Proper(d) && d.nbatch == 0
    ensures HostOps(d) == []
  {
  }

  /** Main result on agreement: kernel and host agree on all buffers exactly when there is no batch or a thread along x and y. */
  lemma DeviceAgreesWhen(d: Spectrum, n: nat)
    requires Proper(d) && Separate(d, n)
    ensures AlwaysAgrees(Programs(d), HostOps(d), n) <==> d.nbatch == 0 || (d.nx >= 3 && d.ny >= 2)
  {
    EmptyGrid(d);
    if d.nx >= 3 && d.ny >= 2 {
      forall b: seq<Complex>, schedule: seq<nat> | |b| == n && Finished(Run(Launch(b, Programs(d)), schedule))
        ensures Run(Launch(b, Programs(d)), schedule).mem == Apply(b, HostOps(d))
      {
        DeviceAgreesWithHost(d, b, schedule);
      }
    } else if d.nbatch == 0 {
      NothingToDo(d);
      assert Programs(d) == [];
      forall b: seq<Complex>, schedule: seq<nat> | |b| == n
        ensures Run(Launch(b, []), schedule).mem == b
      {
        IdleRun(b, schedule);
      }
    } else {
      assert Programs(d) == [];
      var b := HostChangesSomething(d, n);
      NoThreadsNoChange(b);
    }
  }

  lemma {:induction false} IdleRun(b: seq<Complex>, schedule: seq<nat>)
    ensures Run(Launch(b, []), schedule) == Launch(b, [])
    decreases |schedule|
  {
    if schedule != [] {
      IdleRun(b, schedule[..|schedule| - 1]);
    }
  }
}
