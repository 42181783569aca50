/**
 The row-major odometers of shared/increment.h: stepping a multi-index in place
 to the next element of a box.
 */
module Odometer {
  import opened Arith
  import opened Layouts

  /** The box an odometer really walks: a zero-length axis stays pinned at 0. */
  function Pin(l: seq<nat>): (r: seq<nat>)
    ensures |r| == |l| && forall k :: 0 <= k < |l| ==> r[k] == if l[k] == 0 then 1 else l[k]
  {
    seq(|l|, k requires 0 <= k < |l| => if l[k] == 0 then 1 else l[k])
  }

  lemma {:induction false} PinProductPositive(l: seq<nat>)
    ensures Product(Pin(l)) > 0
  {
    if l != [] {
      assert Pin(l)[1..] == Pin(l[1..]);
      PinProductPositive(l[1..]);
      MulPositive(Pin(l)[0], Product(Pin(l[1..])));
    }
  }

  lemma OneMoreRow(x: nat, p: nat)
    ensures (x + 1) * p == x * p + p
  {
  }

  /** The last multi-index of a box has the last rank. */
  lemma {:induction false} RankOfLast(x: seq<nat>, l: seq<nat>)
    requires |x| == |l| && forall k :: 0 <= k < |l| ==> x[k] + 1 == l[k]
    ensures Rank(x, l) + 1 == Product(l)
  {
    if x != [] {
      RankOfLast(x[1..], l[1..]);
      assert l[0] == x[0] + 1;
      OneMoreRow(x[0], Product(l[1..]));
    }
  }

  /** `x` with axis `j` advanced and every later axis reset. */
  function Carried(x: seq<nat>, j: nat): (y: seq<nat>)
    requires j < |x|
    ensures |y| == |x|
  {
    x[..j] + [x[j] + 1] + Zeros(|x| - j - 1)
  }

  /** A carry into axis `j` moves to the next rank. */
  lemma {:induction false} RankOfCarried(x: seq<nat>, l: seq<nat>, j: nat)
    requires |x| == |l| && j < |l|
    requires forall k :: j < k < |l| ==> x[k] + 1 == l[k]
    ensures Rank(Carried(x, j), l) == Rank(x, l) + 1
  {
    var y := Carried(x, j);
    if j == 0 {
      RankOfLast(x[1..], l[1..]);
      assert y[1..] == Zeros(|l[1..]|);
      RankZeros(l[1..]);
      OneMoreRow(x[0], Product(l[1..]));
    } else {
      assert y[1..] == Carried(x[1..], j - 1);
      RankOfCarried(x[1..], l[1..], j - 1);
    }
  }

  predicate AllZero(x: seq<nat>) {
    forall k :: 0 <= k < |x| ==> x[k] == 0
  }

  /** increment_rowmajor on vectors: one step of the enumeration of Pin(length). */
  method IncrementVector(index: array<nat>, length: seq<nat>) returns (more: bool)
    requires index.Length == |length| && InBox(index[..], Pin(length))
    modifies index
    ensures InBox(index[..], Pin(length))
    ensures more <==> Rank(old(index[..]), Pin(length)) + 1 < Product(Pin(length))
    ensures more ==> Rank(index[..], Pin(length)) == Rank(old(index[..]), Pin(length)) + 1
    ensures !more ==> index[..] == Zeros(|length|)
  {
    hide Rank, Product;
    var l := Pin(length);
    ghost var x := index[..];
    var idim := |length|;
    while idim > 0
      invariant 0 <= idim <= |length|
      invariant index[..] == x[..idim] + Zeros(|length| - idim)
      invariant forall k :: idim <= k < |length| ==> x[k] + 1 == l[k]
    {
      idim := idim - 1;
      assert index[idim] == x[idim];
      if index[idim] < length[idim] {
        index[idim] := index[idim] + 1;
        if index[idim] == length[idim] {
          index[idim] := 0;
        } else {
          assert index[..] == Carried(x, idim);
          RankOfCarried(x, l, idim);
          RankBound(index[..], l);
          return true;
        }
      }
      assert index[..] == x[..idim] + Zeros(|length| - idim);
    }
    RankOfLast(x, l);
    assert index[..] == Zeros(|length|);
    more := !AllZero(index[..]);
  }

  /**
   increment_base on one component of a tuple index; the length is at least 1
   wherever it is used, so `length - 1` does not wrap.
   */
  method IncrementBase(index: array<nat>, axis: nat, length: nat) returns (more: bool)
    requires axis < index.Length && length > 0
    modifies index
    ensures more <==> old(index[axis]) < length - 1
    ensures index[..] == old(index[..])[axis := if more then old(index[axis]) + 1 else 0]
  {
    if index[axis] < length - 1 {
      index[axis] := index[axis] + 1;
      return true;
    }
    index[axis] := 0;
    return false;
  }

  /** increment_rowmajor on scalars and on 2- and 3-tuples (any tuple size). */
  method IncrementTuple(index: array<nat>, length: seq<nat>) returns (more: bool)
    requires index.Length == |length| && InBox(index[..], length)
    modifies index
    ensures InBox(index[..], length)
    ensures more <==> Rank(old(index[..]), length) + 1 < Product(length)
    ensures more ==> Rank(index[..], length) == Rank(old(index[..]), length) + 1
    ensures !more ==> index[..] == Zeros(|length|)
  {
    ghost var x := index[..];
    var axis := |length|;
    while axis > 0
      invariant 0 <= axis <= |length|
      invariant index[..] == x[..axis] + Zeros(|length| - axis)
      invariant forall k :: axis <= k < |length| ==> x[k] + 1 == length[k]
    {
      axis := axis - 1;
      assert index[axis] == x[axis];
      var stepped := IncrementBase(index, axis, length[axis]);
      if stepped {
        assert index[..] == Carried(x, axis);
        RankOfCarried(x, length, axis);
        RankBound(index[..], length);
        return true;
      }
      assert index[..] == x[..axis] + Zeros(|length| - axis);
    }
    RankOfLast(x, length);
    assert index[..] == Zeros(|length|);
    return false;
  }
}
