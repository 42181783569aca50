/**
 Half-spectrum buffers and the writes of the Hermitian symmetrisers, in the
 abstract: each symmetriser is a list of two kinds of writes, and a list whose
 sources are never written has the same effect in any order.
 */
module Spectra {

  datatype Complex = Complex(re: real, im: real)

  function Conj(c: Complex): Complex {
    Complex(c.re, -c.im)
  }

  /** `x[pos].imag(0)` and `x[pos] = conj(x[cpos])`. */
  datatype Op = ZeroIm(pos: nat) | Conjugate(pos: nat, cpos: nat)

  predicate InRange(op: Op, n: nat) {
    op.pos < n && (op.Conjugate? ==> op.cpos < n)
  }

  ghost predicate AllInRange(ops: seq<Op>, n: nat) {
    forall op :: op in ops ==> InRange(op, n)
  }

  /** The value a write stores, read from buffer `b`. */
  function Value(op: Op, b: seq<Complex>): Complex
    requires InRange(op, |b|)
  {
    match op
    case ZeroIm(pos) => Complex(b[pos].re, 0.0)
    case Conjugate(pos, cpos) => Conj(b[cpos])
  }

  /** One write; a place outside the buffer is left out. */
  function Write(b: seq<Complex>, op: Op): (r: seq<Complex>)
    ensures |r| == |b|
  {
    if InRange(op, |b|) then b[op.pos := Value(op, b)] else b
  }

  /** The buffer after the writes, one after the other. */
  function Apply(b: seq<Complex>, ops: seq<Op>): (r: seq<Complex>)
    ensures |r| == |b|
    decreases |ops|
  {
    if ops == [] then b else Write(Apply(b, ops[..|ops| - 1]), ops[|ops| - 1])
  }

  lemma ApplySnoc(b: seq<Complex>, ops: seq<Op>, op: Op)
    ensures Apply(b, ops + [op]) == Write(Apply(b, ops), op)
  {
    assert (ops + [op])[..|ops|] == ops;
  }

  lemma {:induction false} ApplyConcat(b: seq<Complex>, p: seq<Op>, q: seq<Op>)
    ensures Apply(b, p + q) == Apply(Apply(b, p), q)
    decreases |q|
  {
    if q == [] {
      assert p + q == p;
    } else {
      var k := |q| - 1;
      ApplyConcat(b, p, q[..k]);
      assert p + q == p + q[..k] + [q[k]];
      ApplySnoc(b, p + q[..k], q[k]);
    }
  }

  /** No source of a write is written, and writes to one place are the same write. */
  ghost predicate RaceFree(ops: seq<Op>) {
    && (forall v, w :: v in ops && w in ops && w.Conjugate? ==> v.pos != w.cpos)
    && (forall v, w :: v in ops && w in ops && v.pos == w.pos ==> v == w)
  }

  /** The buffer every order of race-free writes produces. */
  ghost predicate IsResult(b: seq<Complex>, ops: seq<Op>, r: seq<Complex>)
    requires AllInRange(ops, |b|)
  {
    && |r| == |b|
    && (forall op :: op in ops ==> r[op.pos] == Value(op, b))
    && (forall p :: 0 <= p < |b| && (forall op :: op in ops ==> op.pos != p) ==> r[p] == b[p])
  }

  /** Sources and real parts of real-valued entries keep their first value. */
  lemma ValueStays(b: seq<Complex>, ops: seq<Op>, r: seq<Complex>, op: Op, all: seq<Op>)
    requires RaceFree(all) && op in all && forall o :: o in ops ==> o in all
    requires AllInRange(all, |b|) && IsResult(b, ops, r)
    ensures Value(op, r) == Value(op, b)
  {
    match op
    case ZeroIm(pos) =>
      if o :| o in ops && o.pos == pos {
        assert o == op;
      }
    case Conjugate(pos, cpos) =>
      forall o | o in ops ensures o.pos != cpos {
      }
  }

  lemma {:induction false} ApplyIsResult(b: seq<Complex>, ops: seq<Op>, all: seq<Op>)
    requires RaceFree(all) && forall o :: o in ops ==> o in all
    requires AllInRange(all, |b|)
    ensures IsResult(b, ops, Apply(b, ops))
    decreases |ops|
  {
    if ops != [] {
      var k := |ops| - 1;
      var r := Apply(b, ops[..k]);
      ApplyIsResult(b, ops[..k], all);
      ValueStays(b, ops[..k], r, ops[k], all);
      assert ops == ops[..k] + [ops[k]];
      forall op | op in ops ensures Apply(b, ops)[op.pos] == Value(op, b) {
        if op.pos == ops[k].pos {
          assert op == ops[k];
        } else {
          assert op in ops[..k];
        }
      }
    }
  }

  /** Race-free writes may be reordered, repeated and regrouped at will. */
  lemma OrderIrrelevant(b: seq<Complex>, p: seq<Op>, q: seq<Op>)
    requires RaceFree(p) && AllInRange(p, |b|)
    requires forall op :: op in p <==> op in q
    ensures Apply(b, p) == Apply(b, q)
  {
    ApplyIsResult(b, p, p);
    ApplyIsResult(b, q, p);
    ResultUnique(b, p, Apply(b, p), Apply(b, q));
  }

  lemma ResultUnique(b: seq<Complex>, ops: seq<Op>, r: seq<Complex>, r': seq<Complex>)
    requires AllInRange(ops, |b|) && IsResult(b, ops, r) && IsResult(b, ops, r')
    ensures r == r'
  {
    forall p | 0 <= p < |b| ensures r[p] == r'[p] {
      if op :| op in ops && op.pos == p {
        assert r[op.pos] == r'[op.pos];
      }
    }
  }
}
