/** shared/ptrdiff.h: how far a strided batch reaches into its buffer. */
module Ptrdiff {
  import opened Arith
  import opened Layouts
  import opened ArrayValidator
  import opened Partitions

  /** One past the farthest element of a batch of layouts. */
  function Reach(length: seq<nat>, stride: seq<nat>, nbatch: nat, dist: nat): nat
    requires |length| == |stride|
  {
    if length == [] || nbatch == 0 then 0 else 1 + MaxOffset(length, stride) + Times(nbatch - 1, dist)
  }

  /** A non-empty batch of non-empty boxes whose reach is a size_t. */
  ghost predicate Reaches(length: seq<nat>, stride: seq<nat>, nbatch: nat, dist: nat)
    requires |length| == |stride|
  {
    && nbatch > 0 && AllPositive(length)
    && Reach(length, stride, nbatch, dist) < TWO64
  }

  /** compute_ptrdiff; sizes are size_t and wrap. */
  method ComputePtrdiff(length: seq<nat>, stride: seq<nat>, nbatch: nat, dist: nat) returns (val: nat)
    requires |length| == |stride|
    ensures length == [] ==> val == 0
    ensures Reaches(length, stride, nbatch, dist) ==> val == Reach(length, stride, nbatch, dist)
  {
    val := 0;
    if |length| > 0 {
      ghost var usual := Reaches(length, stride, nbatch, dist);
      val := 1;
      for i := 0 to |length|
        invariant usual ==> val == 1 + MaxOffset(length[..i], stride[..i])
      {
        if usual {
          assert length[..i + 1] == length[..i] + [length[i]] && stride[..i + 1] == stride[..i] + [stride[i]];
          MaxOffsetSnoc(length[..i], stride[..i], length[i], stride[i]);
          PrefixReach(length, stride, i + 1);
          TermDoesNotWrap(length[i] - 1, stride[i]);
        }
        val := Wrap(val + Times(Wrap(length[i] as int - 1), stride[i]));
      }
      assert length[..|length|] == length && stride[..|stride|] == stride;
      if usual {
        TimesIsProduct(nbatch - 1, dist);
        TermDoesNotWrap(nbatch - 1, dist);
      }
      val := Wrap(val + Times(Wrap(nbatch as int - 1), dist));
    }
  }

  lemma TermDoesNotWrap(n: nat, s: nat)
    requires n * s < TWO64
    ensures Times(Wrap(n), s) == n * s
  {
    TimesIsProduct(Wrap(n), s);
    if s > 0 {
      MulPositive(n + 1, s);
      MulMono(1, s, n);
    }
  }

  lemma {:induction false} PrefixReach(length: seq<nat>, stride: seq<nat>, i: nat)
    requires |length| == |stride| && i <= |length|
    ensures MaxOffset(length[..i], stride[..i]) <= MaxOffset(length, stride)
  {
    if i > 0 {
      assert length[..i][1..] == length[1..][..i - 1] && stride[..i][1..] == stride[1..][..i - 1];
      PrefixReach(length[1..], stride[1..], i - 1);
    }
  }

  /** The last multi-index of the box. */
  function Last(length: seq<nat>): (x: seq<nat>)
    requires AllPositive(length)
    ensures InBox(x, length)
  {
    seq(|length|, k requires 0 <= k < |length| => length[k] - 1)
  }

  lemma {:induction false} LastIsFarthest(length: seq<nat>, stride: seq<nat>)
    requires |length| == |stride| && AllPositive(length)
    ensures Dot(Last(length), stride) == MaxOffset(length, stride)
  {
    if length != [] {
      assert Last(length)[1..] == Last(length[1..]);
      LastIsFarthest(length[1..], stride[1..]);
    }
  }

  /** A buffer holds every cell exactly when it is as large as compute_ptrdiff plus the offset. */
  lemma ReachIsExact(v: Shape, size: nat)
    requires WellShaped(v) && v.nbatch > 0
    ensures Inside(v, size) <==> Reach(v.length, v.stride, v.nbatch, v.dist) + v.offset <= size
  {
    LastIsFarthest(v.length, v.stride);
    var far := Place(v, v.nbatch - 1, Last(v.length));
    assert far + 1 == Reach(v.length, v.stride, v.nbatch, v.dist) + v.offset;
    forall b: nat, x | b < v.nbatch && InBox(x, v.length)
      ensures Place(v, b, x) < Reach(v.length, v.stride, v.nbatch, v.dist) + v.offset
    {
      DotAtMostMaxOffset(x, v.length, v.stride);
      TimesMono(b, v.nbatch - 1, v.dist);
    }
  }
}
