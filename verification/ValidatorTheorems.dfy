/**
 What the verdict of the layout checker means: exact for up to three long axes,
 a justified rejection for any number of axes, and for four or more axes exactly
 which collisions acceptance rules out.
 */
module ValidatorTheorems {
  import opened Arith
  import opened Layouts
  import opened Odometer
  import opened Collisions
  import opened ArrayValidator

  /** Arguments the checker is meant for: equal sizes and positive lengths. */
  ghost predicate Layout(length: seq<nat>, stride: seq<nat>) {
    |length| == |stride| && AllPositive(length)
  }

  lemma PinIsIdentity(l: seq<nat>)
    requires AllPositive(l)
    ensures Pin(l) == l
  {
  }

  /** A long axis with stride zero collides with itself. */
  lemma ZeroStrideCollides(l: seq<nat>, s: seq<nat>, k: nat)
    requires Layout(l, s) && k < |l| && l[k] > 1 && s[k] == 0
    ensures Collides(l, s)
  {
    var z := Zeros(|l| - 1);
    var x, y := Insert(z, k, 0), Insert(z, k, 1);
    DotInsert(z, s, k, 0);
    DotInsert(z, s, k, 1);
    assert x[k] != y[k];
    assert Clash(x, y, l, s);
  }

  /** Every rejection is justified by two multi-indices with the same offset. */
  lemma RejectionIsJustified(length: seq<nat>, stride: seq<nat>)
    requires Layout(length, stride) && !Accepts(length, stride)
    ensures Collides(length, stride)
  {
    KeepSizes(length, stride);
    if k :| 0 <= k < |length| && length[k] > 1 && stride[k] == 0 {
      ZeroStrideCollides(length, stride, k);
    } else {
      KeepIsAxes(length, stride);
      VisibleCollides(Keep(length, length), Keep(length, stride));
      ShortAxesIrrelevant(length, stride);
      PinIsIdentity(length);
    }
  }

  lemma ProductBelowInner(a: nat, b: nat, p: nat, q: nat)
    requires a > 0 && b > 0 && p > 0 && q > 0 && (a <= q || b <= p)
    ensures a * b < a * p + b * q
  {
    MulPositive(a, p);
    MulPositive(b, q);
    if a <= q {
      MulMono(a, q, b);
    } else {
      MulMono(b, p, a);
    }
  }

  lemma LongPairCollides(l0: nat, l1: nat, s0: nat, s1: nat)
    requires s0 > 0 && s1 > 0
    ensures PairCollides(l0, l1, s0, s1) || l0 <= s1 || l1 <= s0
  {
    if l0 > s1 && l1 > s0 {
      assert Meets(s1, s0, l0, l1, s0, s1);
    }
  }

  /** Two axes that passed the pair test have a product below their inner product. */
  lemma PairProductBelowInner(l: seq<nat>, s: seq<nat>)
    requires Axes(l, s) && |l| == 2 && !PairCollides(l[0], l[1], s[0], s[1])
    ensures Product(l) < Dot(l, s) < TWO32
  {
    InnerBound(l, s);
    Dot2(l, s);
    assert Product(l) == l[0] * l[1] by {
      assert Product(l[1..]) == l[1] * Product(l[1..][1..]);
    }
    LongPairCollides(l[0], l[1], s[0], s[1]);
    ProductBelowInner(l[0], l[1], s[0], s[1]);
  }

  lemma DropOfThree(v: seq<nat>)
    requires |v| == 3
    ensures Drop(v, 0) == [v[1], v[2]] && Drop(v, 1) == [v[0], v[2]] && Drop(v, 2) == [v[0], v[1]]
  {
  }

  /** With three axes whose pairs are clear the cut-off always wraps. */
  lemma ThreeAxesUntruncated(l: seq<nat>, s: seq<nat>, idx: nat)
    requires Axes(l, s) && |l| == 3 && !SomePair(l, s) && idx < 3
    ensures Cutoff(Drop(l, idx), Drop(s, idx)) >= TWO31
  {
    AxesDrop(l, s, idx);
    DropOfThree(l);
    DropOfThree(s);
    PairProductBelowInner(Drop(l, idx), Drop(s, idx));
    CutoffWraps(Drop(l, idx), Drop(s, idx));
  }

  /** Up to three long axes the checker sees every collision. */
  lemma UpToThreeAxesAllVisible(l: seq<nat>, s: seq<nat>)
    requires Axes(l, s) && |l| <= 3
    ensures Visible(l, s) <==> Collides(l, s)
  {
    if Visible(l, s) {
      VisibleCollides(l, s);
    }
    if Collides(l, s) {
      var x, y :| Clash(x, y, l, s);
      if |l| == 0 {
        assert false;
      } else if |l| == 1 {
        assert x[1..] == y[1..] == [];
        assert x[0] != y[0] by { assert x == [x[0]] + x[1..] && y == [y[0]] + y[1..]; }
        MulCancel(x[0], y[0], s[0]);
      } else if |l| == 2 {
        ClashOf2(x, y, l, s);
      } else if !SomePair(l, s) {
        ClashOf3(x, y, l, s);
        var idx, k, z :| 0 <= idx < |l| && AxisMeets(k, z, idx, l, s);
        ThreeAxesUntruncated(l, s, idx);
        AxesDrop(l, s, idx);
        MulMono(k, l[idx] - 1, s[idx]);
        assert AxisHit(idx, l, s);
      }
    }
  }

  /** Main result for up to three axes longer than 1: accepted exactly when collision-free. */
  lemma ExactUpToThreeLongAxes(length: seq<nat>, stride: seq<nat>)
    requires Layout(length, stride) && MaxOffset(length, stride) < TWO31 && |Keep(length, length)| <= 3
    ensures Accepts(length, stride) <==> !Collides(length, stride)
  {
    if !Accepts(length, stride) {
      RejectionIsJustified(length, stride);
    } else {
      KeepIsAxes(length, stride);
      UpToThreeAxesAllVisible(Keep(length, length), Keep(length, stride));
      ShortAxesIrrelevant(length, stride);
      PinIsIdentity(length);
    }
  }

  // ---------------------------------------------------- four or more axes

  /** No cut-off truncates: every axis faces fewer cells than its inner product. */
  ghost predicate Untruncated(l: seq<nat>, s: seq<nat>)
    requires |l| == |s|
  {
    forall idx :: 0 <= idx < |l| ==> Product(Drop(l, idx)) < Dot(Drop(l, idx), Drop(s, idx))
  }

  /** Position, after entry `k` is left out, of the entry at `p`. */
  function After(k: nat, p: nat): nat
    requires p != k
  {
    if p < k then p else p - 1
  }

  /** Leaving two entries out in either order. */
  lemma DropBoth(v: seq<nat>, a: nat, b: nat)
    requires a < |v| && b < |v| && a != b
    ensures Drop(v, a)[After(a, b)] == v[b]
    ensures Drop(Drop(v, a), After(a, b)) == Drop(Drop(v, b), After(b, a))
  {
  }

  /** A one-axis collision of a face is one of the whole. */
  lemma FaceAxisCollision(l: seq<nat>, s: seq<nat>, f: nat)
    requires Axes(l, s) && f < |l| && AxisCollides(Drop(l, f), Drop(s, f))
    ensures AxisCollides(l, s)
  {
    var i, k, x :| 0 <= i < |l| - 1 && AxisMeets(k, x, i, Drop(l, f), Drop(s, f));
    var axis := if i < f then i else i + 1;
    var p := After(axis, f);
    DropBoth(l, f, axis);
    DropBoth(s, f, axis);
    DropBoth(l, axis, f);
    assert After(f, axis) == i;
    DotInsert(x, Drop(s, axis), p, 0);
    InsertInBox(x, Drop(l, axis), p, 0);
    assert AxisMeets(k, Insert(x, p, 0), axis, l, s);
  }

  /** Whatever the checker sees is a collision of one axis with the rest. */
  lemma {:induction false} VisibleIsAxisCollision(l: seq<nat>, s: seq<nat>)
    requires Axes(l, s) && Visible(l, s)
    ensures AxisCollides(l, s)
    decreases |l|
  {
    if |l| <= 4 && SomePair(l, s) {
      var a, b :| 0 <= a < b < |l| && PairCollides(l[a], l[b], s[a], s[b]);
      var i, j :| Meets(i, j, l[a], l[b], s[a], s[b]);
      var x := PairIsAxis(l, s, a, b, i, j);
    } else if SomeAxis(l, s) {
      var idx :| 0 <= idx < |l| && AxisHit(idx, l, s);
      var k: nat, x :| AxisMeets(k, x, idx, l, s) && k * s[idx] <= Cutoff(Drop(l, idx), Drop(s, idx));
    } else {
      var idx :| 0 <= idx < |l| && Visible(Drop(l, idx), Drop(s, idx));
      AxesDrop(l, s, idx);
      VisibleIsAxisCollision(Drop(l, idx), Drop(s, idx));
      FaceAxisCollision(l, s, idx);
    }
  }

  /** Three or more axes: without truncation the checker sees exactly the one-axis collisions. */
  lemma UntruncatedSeesAxisCollisions(l: seq<nat>, s: seq<nat>)
    requires Axes(l, s) && |l| >= 3 && Untruncated(l, s)
    ensures Visible(l, s) <==> AxisCollides(l, s)
  {
    if Visible(l, s) {
      VisibleIsAxisCollision(l, s);
    }
    if AxisCollides(l, s) {
      var idx, k, x :| 0 <= idx < |l| && AxisMeets(k, x, idx, l, s);
      UntruncatedHit(l, s, idx, k, x);
      assert SomeAxis(l, s);
    }
  }

  lemma UntruncatedHit(l: seq<nat>, s: seq<nat>, idx: nat, k: nat, x: seq<nat>)
    requires Axes(l, s) && Untruncated(l, s) && idx < |l| && AxisMeets(k, x, idx, l, s)
    ensures AxisHit(idx, l, s)
  {
    hide Product, Dot, MaxOffset;
    AxesDrop(l, s, idx);
    InnerBound(Drop(l, idx), Drop(s, idx));
    CutoffWraps(Drop(l, idx), Drop(s, idx));
    MulMono(k, l[idx] - 1, s[idx]);
  }

  /** Acceptance always rules out collisions between two axes. */
  lemma {:induction false} AcceptedPairsAreClear(l: seq<nat>, s: seq<nat>, a: nat, b: nat)
    requires Axes(l, s) && !Visible(l, s) && a < b < |l|
    ensures !PairCollides(l[a], l[b], s[a], s[b])
    decreases |l|
  {
    if |l| >= 5 {
      var f := if 0 < a then 0 else if 1 < b then 1 else 2;
      AxesDrop(l, s, f);
      var a' := if a < f then a else a - 1;
      var b' := if b < f then b else b - 1;
      assert !Visible(Drop(l, f), Drop(s, f));
      assert Drop(l, f)[a'] == l[a] && Drop(l, f)[b'] == l[b] && Drop(s, f)[a'] == s[a] && Drop(s, f)[b'] == s[b];
      AcceptedPairsAreClear(Drop(l, f), Drop(s, f), a', b');
    } else if PairCollides(l[a], l[b], s[a], s[b]) {
      assert SomePair(l, s);
    }
  }

  // ------------------------------------- the verdict on four or more axes

  /** The entries that a mask keeps: the lengths or strides of a face. */
  function Select<T>(m: seq<bool>, v: seq<T>): (r: seq<T>)
    requires |m| == |v|
    ensures |r| == Selected(m)
  {
    if m == [] then [] else (if m[0] then [v[0]] else []) + Select(m[1..], v[1..])
  }

  function Selected(m: seq<bool>): nat {
    if m == [] then 0 else (if m[0] then 1 else 0) + Selected(m[1..])
  }

  /** The mask keeps at least four axes, and one of them hits the others of the face. */
  ghost predicate FaceSees(m: seq<bool>, l: seq<nat>, s: seq<nat>)
    requires |l| == |s|
  {
    |m| == |l| && Selected(m) >= 4 && SomeAxis(Select(m, l), Select(m, s))
  }

  function Everything(n: nat): (m: seq<bool>)
    ensures |m| == n && forall k :: 0 <= k < n ==> m[k]
  {
    seq(n, _ => true)
  }

  lemma {:induction false} SelectEverything<T>(m: seq<bool>, v: seq<T>)
    requires |m| == |v| && forall k :: 0 <= k < |m| ==> m[k]
    ensures Select(m, v) == v && Selected(m) == |v|
  {
    if m != [] {
      SelectEverything(m[1..], v[1..]);
    }
  }

  lemma {:induction false} SelectDropped<T>(m: seq<bool>, v: seq<T>, k: nat)
    requires |m| == |v| && k < |m| && !m[k]
    ensures Select(m, v) == Select(Drop(m, k), Drop(v, k)) && Selected(m) == Selected(Drop(m, k))
  {
    if k > 0 {
      SelectDropped(m[1..], v[1..], k - 1);
      assert Drop(m, k)[1..] == Drop(m[1..], k - 1) && Drop(v, k)[1..] == Drop(v[1..], k - 1);
    } else {
      assert Drop(m, 0) == m[1..] && Drop(v, 0) == v[1..];
    }
  }

  lemma {:induction false} SelectedAtMost(m: seq<bool>)
    ensures Selected(m) <= |m|
  {
    if m != [] {
      SelectedAtMost(m[1..]);
    }
  }

  lemma PairOfFace(l: seq<nat>, s: seq<nat>, f: nat)
    requires |l| == |s| && f < |l| && SomePair(Drop(l, f), Drop(s, f))
    ensures SomePair(l, s)
  {
    var a, b :| 0 <= a < b < |l| - 1 && PairCollides(Drop(l, f)[a], Drop(l, f)[b], Drop(s, f)[a], Drop(s, f)[b]);
    var a', b' := if a < f then a else a + 1, if b < f then b else b + 1;
    assert PairCollides(l[a'], l[b'], s[a'], s[b']);
  }

  lemma {:induction false} VisibleIsSeen(l: seq<nat>, s: seq<nat>)
    requires |l| == |s| && |l| >= 4 && Visible(l, s)
    ensures SomePair(l, s) || exists m :: FaceSees(m, l, s)
    decreases |l|
  {
    var all := Everything(|l|);
    SelectEverything(all, l);
    SelectEverything(all, s);
    if SomeAxis(l, s) {
      assert FaceSees(all, l, s);
    } else if |l| >= 5 {
      var f: nat :| f < |l| && Visible(Drop(l, f), Drop(s, f));
      VisibleIsSeen(Drop(l, f), Drop(s, f));
      if SomePair(Drop(l, f), Drop(s, f)) {
        PairOfFace(l, s, f);
      } else {
        var m :| FaceSees(m, Drop(l, f), Drop(s, f));
        MaskOfFace(m, l, s, f);
      }
    }
  }

  lemma MaskOfFace(m: seq<bool>, l: seq<nat>, s: seq<nat>, f: nat)
    requires |l| == |s| && f < |l| && FaceSees(m, Drop(l, f), Drop(s, f))
    ensures FaceSees(Insert(m, f, false), l, s)
  {
    var w := Insert(m, f, false);
    assert Drop(w, f) == m;
    SelectDropped(w, l, f);
    SelectDropped(w, s, f);
  }

  lemma {:induction false} SeenFaceIsVisible(m: seq<bool>, l: seq<nat>, s: seq<nat>)
    requires |l| == |s| && FaceSees(m, l, s)
    ensures Visible(l, s)
    decreases |l|
  {
    if k: nat :| k < |m| && !m[k] {
      SelectDropped(m, l, k);
      SelectDropped(m, s, k);
      SelectedAtMost(Drop(m, k));
      SeenFaceIsVisible(Drop(m, k), Drop(l, k), Drop(s, k));
    } else {
      SelectEverything(m, l);
      SelectEverything(m, s);
    }
  }

  /** What the checker can reject on: a pair, or an axis that hits the rest of a face of four axes or more. */
  ghost predicate Seen(l: seq<nat>, s: seq<nat>)
    requires |l| == |s|
  {
    SomePair(l, s) || exists m :: FaceSees(m, l, s)
  }

  /** The recursion over faces, unrolled: what the checker sees of four or more axes, truncating cut-offs included. */
  lemma VisibleIffSeen(l: seq<nat>, s: seq<nat>)
    requires Axes(l, s) && |l| >= 4
    ensures Visible(l, s) <==> Seen(l, s)
  {
    if Visible(l, s) {
      VisibleIsSeen(l, s);
    } else if SomePair(l, s) {
      var a, b :| 0 <= a < b < |l| && PairCollides(l[a], l[b], s[a], s[b]);
      AcceptedPairsAreClear(l, s, a, b);
    } else if m :| FaceSees(m, l, s) {
      SeenFaceIsVisible(m, l, s);
    }
  }

  /** The part of `x` above `y`, axis by axis. */
  function Excess(x: seq<nat>, y: seq<nat>): (r: seq<nat>)
    requires |x| == |y|
    ensures |r| == |x| && forall k :: 0 <= k < |x| ==> r[k] == Minus(x[k], y[k])
  {
    seq(|x|, k requires 0 <= k < |x| => Minus(x[k], y[k]))
  }

  lemma {:induction false} ExcessKeepsDifference(x: seq<nat>, y: seq<nat>, s: seq<nat>)
    requires |x| == |y| == |s|
    ensures Dot(x, s) + Dot(Excess(y, x), s) == Dot(y, s) + Dot(Excess(x, y), s)
  {
    if x != [] {
      ExcessKeepsDifference(x[1..], y[1..], s[1..]);
      assert Excess(x, y)[1..] == Excess(x[1..], y[1..]) && Excess(y, x)[1..] == Excess(y[1..], x[1..]);
      Distribute(x[0], y[0], s[0]);
    }
  }

  /** At least two axes of `x` are off 0. */
  ghost predicate TwoAxes(x: seq<nat>) {
    exists i, j :: 0 <= i < j < |x| && x[i] > 0 && x[j] > 0
  }

  /** `x` and `y` move along different axes, two or more each, and share an offset. */
  ghost predicate FacesMeet(x: seq<nat>, y: seq<nat>, l: seq<nat>, s: seq<nat>)
    requires |l| == |s|
  {
    && InBox(x, l) && InBox(y, l) && TwoAxes(x) && TwoAxes(y)
    && (forall k :: 0 <= k < |l| ==> x[k] == 0 || y[k] == 0)
    && Dot(x, s) == Dot(y, s)
  }

  ghost predicate FacesCollide(l: seq<nat>, s: seq<nat>)
    requires |l| == |s|
  {
    exists x, y :: FacesMeet(x, y, l, s)
  }

  lemma OnlyEntry(x: seq<nat>, i: nat)
    requires i < |x| && x[i] > 0 && !TwoAxes(x)
    ensures Drop(x, i) == Zeros(|x| - 1)
  {
    assert forall k :: 0 <= k < |x| && k != i ==> x[k] == 0;
  }

  /** The offset of an index, axis `i` taken apart. */
  lemma DotOfAxis(x: seq<nat>, s: seq<nat>, i: nat)
    requires |x| == |s| && i < |x|
    ensures Dot(x, s) == x[i] * s[i] + Dot(Drop(x, i), Drop(s, i))
  {
    DropThenInsert(x, i);
    DotInsert(Drop(x, i), s, i, x[i]);
  }

  /** An index that moves along one axis only. */
  lemma SingleAxisMeets(x: seq<nat>, y: seq<nat>, l: seq<nat>, s: seq<nat>, i: nat)
    requires |l| == |s| && InBox(x, l) && InBox(y, l) && Dot(x, s) == Dot(y, s)
    requires i < |l| && x[i] > 0 && y[i] == 0 && !TwoAxes(x)
    ensures AxisMeets(x[i], Drop(y, i), i, l, s)
  {
    OnlyEntry(x, i);
    hide TwoAxes, Dot;
    assert InBox(Drop(y, i), Drop(l, i));
    hide Drop;
    DotOfAxis(x, s, i);
    DotOfAxis(y, s, i);
    DotZeros(Drop(s, i));
  }

  lemma SomeEntry(x: seq<nat>, s: seq<nat>) returns (i: nat)
    requires |x| == |s| && Dot(x, s) > 0
    ensures i < |x| && x[i] > 0
  {
    if i' :| 0 <= i' < |x| && x[i'] > 0 {
      i := i';
    } else {
      assert x == Zeros(|s|);
      DotZeros(s);
    }
  }

  /** What is left of a clash when the common part is taken away. */
  lemma ClashParts(x: seq<nat>, y: seq<nat>, l: seq<nat>, s: seq<nat>) returns (i: nat, j: nat)
    requires Axes(l, s) && Clash(x, y, l, s)
    ensures var u, v := Excess(x, y), Excess(y, x);
      && InBox(u, l) && InBox(v, l) && Dot(u, s) == Dot(v, s)
      && i < |l| && u[i] > 0 && v[i] == 0 && j < |l| && v[j] > 0 && u[j] == 0
  {
    var u, v := Excess(x, y), Excess(y, x);
    var k :| 0 <= k < |x| && x[k] != y[k];
    ExcessKeepsDifference(x, y, s);
    if x[k] > y[k] {
      DotPositive(u, s, k);
    } else {
      DotPositive(v, s, k);
    }
    i := SomeEntry(u, s);
    j := SomeEntry(v, s);
  }

  lemma ClashIsOneOfTwo(x: seq<nat>, y: seq<nat>, l: seq<nat>, s: seq<nat>)
    requires Axes(l, s) && Clash(x, y, l, s)
    ensures AxisCollides(l, s) || FacesCollide(l, s)
  {
    var u, v := Excess(x, y), Excess(y, x);
    var i, j := ClashParts(x, y, l, s);
    hide Dot;
    if !TwoAxes(u) {
      SingleAxisMeets(u, v, l, s, i);
    } else if !TwoAxes(v) {
      SingleAxisMeets(v, u, l, s, j);
    } else {
      assert FacesMeet(u, v, l, s);
    }
  }

  /** The two kinds of collision: one axis against others, or two faces of two axes or more. */
  lemma CollisionKinds(l: seq<nat>, s: seq<nat>)
    requires Axes(l, s)
    ensures Collides(l, s) <==> AxisCollides(l, s) || FacesCollide(l, s)
  {
    if x, y :| Clash(x, y, l, s) {
      ClashIsOneOfTwo(x, y, l, s);
    }
    if AxisCollides(l, s) {
      var idx, k, x :| 0 <= idx < |l| && AxisMeets(k, x, idx, l, s);
      AxisMeetsIsClash(k, x, idx, l, s);
    }
    if x, y :| FacesMeet(x, y, l, s) {
      assert Clash(x, y, l, s);
    }
  }

  /** A meeting of one axis with the others that lies past their cut-off. */
  ghost predicate PastCutoff(k: nat, x: seq<nat>, idx: nat, l: seq<nat>, s: seq<nat>)
    requires |l| == |s| && idx < |l|
  {
    AxisMeets(k, x, idx, l, s) && k * s[idx] > Cutoff(Drop(l, idx), Drop(s, idx))
  }

  ghost predicate Hidden(l: seq<nat>, s: seq<nat>)
    requires |l| == |s|
  {
    exists idx, k: nat, x :: 0 <= idx < |l| && PastCutoff(k, x, idx, l, s)
  }

  /** The two defects: two faces collide, or a cut-off hides an axis collision, and nothing else is seen. */
  ghost predicate Missed(l: seq<nat>, s: seq<nat>)
    requires |l| == |s|
  {
    !Seen(l, s) && (FacesCollide(l, s) || Hidden(l, s))
  }

  lemma SomeAxisIsSeen(l: seq<nat>, s: seq<nat>)
    requires |l| == |s| && |l| >= 4 && SomeAxis(l, s)
    ensures Seen(l, s)
  {
    SelectEverything(Everything(|l|), l);
    SelectEverything(Everything(|l|), s);
    assert FaceSees(Everything(|l|), l, s);
  }

  /** An unseen collision of one axis is one that a cut-off hides. */
  lemma UnseenAxisIsHidden(l: seq<nat>, s: seq<nat>)
    requires |l| == |s| && !SomeAxis(l, s)
    ensures AxisCollides(l, s) <==> Hidden(l, s)
  {
    if AxisCollides(l, s) {
      var idx, k: nat, x :| 0 <= idx < |l| && AxisMeets(k, x, idx, l, s);
      assert !AxisHit(idx, l, s);
      assert PastCutoff(k, x, idx, l, s);
    }
  }

  lemma MissedWhen(l: seq<nat>, s: seq<nat>)
    requires |l| == |s| && |l| >= 4
    ensures Missed(l, s) <==> !Seen(l, s) && (AxisCollides(l, s) || FacesCollide(l, s))
  {
    hide Seen, AxisCollides, FacesCollide, Hidden, SomeAxis;
    if SomeAxis(l, s) {
      SomeAxisIsSeen(l, s);
    } else {
      UnseenAxisIsHidden(l, s);
    }
  }

  /** A long axis with stride zero, which is rejected at once. */
  ghost predicate Stuck(length: seq<nat>, stride: seq<nat>)
    requires |length| == |stride|
  {
    exists k :: 0 <= k < |length| && length[k] > 1 && stride[k] == 0
  }

  /** Main result for four or more axes longer than 1, whatever the cut-offs do: when the verdict is right. */
  lemma ExactIffSeenOrClear(length: seq<nat>, stride: seq<nat>)
    requires Layout(length, stride) && MaxOffset(length, stride) < TWO31 && |Keep(length, length)| >= 4
    ensures |Keep(length, stride)| == |Keep(length, length)|
    ensures var missed := Missed(Keep(length, length), Keep(length, stride));
            (Accepts(length, stride) <==> !Collides(length, stride)) <==> Stuck(length, stride) || !missed
  {
    var l, s := Keep(length, length), Keep(length, stride);
    KeepSizes(length, stride);
    if k :| 0 <= k < |length| && length[k] > 1 && stride[k] == 0 {
      ZeroStrideCollides(length, stride, k);
    } else {
      KeepIsAxes(length, stride);
      VisibleIffSeen(l, s);
      CollisionKinds(l, s);
      MissedWhen(l, s);
      ShortAxesIrrelevant(length, stride);
      PinIsIdentity(length);
      if !Accepts(length, stride) {
        RejectionIsJustified(length, stride);
      }
    }
  }

  /** Without truncation the verdict errs only on faces of two axes or more. */
  lemma ExactIffSingleAxisCollision(length: seq<nat>, stride: seq<nat>)
    requires Layout(length, stride) && MaxOffset(length, stride) < TWO31 && |Keep(length, length)| >= 4
    requires forall k :: 0 <= k < |length| && length[k] > 1 ==> stride[k] > 0
    requires |Keep(length, length)| == |Keep(length, stride)|
    requires Untruncated(Keep(length, length), Keep(length, stride))
    ensures var l, s := Keep(length, length), Keep(length, stride);
            (Accepts(length, stride) <==> !Collides(length, stride)) <==> AxisCollides(l, s) || !FacesCollide(l, s)
  {
    KeepIsAxes(length, stride);
    ExactIffSeenOrClear(length, stride);
    VisibleIffSeen(Keep(length, length), Keep(length, stride));
    UntruncatedSeesAxisCollisions(Keep(length, length), Keep(length, stride));
    MissedWhen(Keep(length, length), Keep(length, stride));
  }

  // ------------------------------------------------------- counterexamples

  lemma Dot4(x: seq<nat>, s: seq<nat>)
    requires |x| == |s| == 4
    ensures Dot(x, s) == x[0] * s[0] + x[1] * s[1] + x[2] * s[2] + x[3] * s[3]
  {
    Dot3(x[1..], s[1..]);
  }

  lemma Product3(l: seq<nat>)
    requires |l| == 3
    ensures Product(l) == l[0] * (l[1] * l[2])
  {
    assert Product(l[1..]) == l[1] * Product(l[1..][1..]);
    assert Product(l[1..][1..]) == l[2] * Product(l[1..][1..][1..]);
  }

  /** A meeting of one of four axes with the other three, written out. */
  lemma AxisMeets4(k: nat, x: seq<nat>, idx: nat, l: seq<nat>, s: seq<nat>)
    requires |l| == |s| == 4 && idx < 4 && AxisMeets(k, x, idx, l, s)
    ensures |x| == 3 && 1 <= k < l[idx]
    ensures x[0] < Drop(l, idx)[0] && x[1] < Drop(l, idx)[1] && x[2] < Drop(l, idx)[2]
    ensures k * s[idx] == x[0] * Drop(s, idx)[0] + x[1] * Drop(s, idx)[1] + x[2] * Drop(s, idx)[2]
  {
    Dot3(x, Drop(s, idx));
  }

  lemma MaxOffset4(l: seq<nat>, s: seq<nat>)
    requires |l| == |s| == 4 && forall k :: 0 <= k < 4 ==> l[k] > 0
    ensures MaxOffset(l, s) == (l[0] - 1) * s[0] + (l[1] - 1) * s[1] + (l[2] - 1) * s[2] + (l[3] - 1) * s[3]
  {
    assert MaxOffset(l[1..], s[1..]) == (l[1] - 1) * s[1] + MaxOffset(l[1..][1..], s[1..][1..]);
    assert MaxOffset(l[1..][1..], s[1..][1..])
        == (l[2] - 1) * s[2] + MaxOffset(l[1..][1..][1..], s[1..][1..][1..]);
    assert MaxOffset(l[1..][1..][1..], s[1..][1..][1..]) == (l[3] - 1) * s[3] + 0;
  }

  /** The six pairs of four axes. */
  lemma PairsOf4(l: seq<nat>, s: seq<nat>)
    requires |l| == |s| == 4 && SomePair(l, s)
    ensures PairCollides(l[0], l[1], s[0], s[1]) || PairCollides(l[0], l[2], s[0], s[2])
         || PairCollides(l[0], l[3], s[0], s[3]) || PairCollides(l[1], l[2], s[1], s[2])
         || PairCollides(l[1], l[3], s[1], s[3]) || PairCollides(l[2], l[3], s[2], s[3])
  {
    var a, b :| 0 <= a < b < 4 && PairCollides(l[a], l[b], s[a], s[b]);
    assert (a == 0 || a == 1 || a == 2) && (b == 1 || b == 2 || b == 3);
  }

  const FACE_LENGTH: seq<nat> := [2, 2, 2, 2]
  const FACE_STRIDE: seq<nat> := [10, 17, 13, 14]

  lemma ZeroOneSums(a: nat, b: nat, c: nat)
    requires a < 2 && b < 2 && c < 2
    ensures a * 17 + b * 13 + c * 14 != 10 && a * 10 + b * 13 + c * 14 != 17
    ensures a * 10 + b * 17 + c * 14 != 13 && a * 10 + b * 17 + c * 13 != 14
  {
  }

  lemma FaceExampleAxes(idx: nat, k: nat, x: seq<nat>)
    requires idx < 4
    ensures !AxisMeets(k, x, idx, FACE_LENGTH, FACE_STRIDE)
  {
    var l, s := FACE_LENGTH, FACE_STRIDE;
    DropOfFour(l);
    DropOfFour(s);
    if AxisMeets(k, x, idx, l, s) {
      AxisMeets4(k, x, idx, l, s);
      ZeroOneSums(x[0], x[1], x[2]);
      if idx == 0 {
        assert false;
      } else if idx == 1 {
        assert false;
      } else if idx == 2 {
        assert false;
      } else {
        assert false;
      }
    }
  }

  lemma FaceExampleIsLayout()
    ensures Axes(FACE_LENGTH, FACE_STRIDE) && Layout(FACE_LENGTH, FACE_STRIDE) && Fits(FACE_LENGTH, FACE_STRIDE)
    ensures Accepts(FACE_LENGTH, FACE_STRIDE) <==> !Visible(FACE_LENGTH, FACE_STRIDE)
  {
    MaxOffset4(FACE_LENGTH, FACE_STRIDE);
    AxesAreKept(FACE_LENGTH, FACE_STRIDE);
  }

  /** Two axes against two are never compared: 10 + 17 == 13 + 14 goes unnoticed. */
  lemma FacePairsGoUnnoticed()
    ensures Layout(FACE_LENGTH, FACE_STRIDE) && Fits(FACE_LENGTH, FACE_STRIDE)
    ensures Accepts(FACE_LENGTH, FACE_STRIDE) && Collides(FACE_LENGTH, FACE_STRIDE)
  {
    var l, s := FACE_LENGTH, FACE_STRIDE;
    FaceExampleIsLayout();
    forall idx, k: nat, x | 0 <= idx < 4 ensures !AxisMeets(k, x, idx, l, s) {
      FaceExampleAxes(idx, k, x);
    }
    if SomePair(l, s) {
      PairsOf4(l, s);
      assert false;
    }
    FaceExampleCollides();
  }

  lemma FaceExampleCollides()
    ensures Collides(FACE_LENGTH, FACE_STRIDE)
  {
    var x, y := [1, 1, 0, 0], [0, 0, 1, 1];
    Dot4(x, FACE_STRIDE);
    Dot4(y, FACE_STRIDE);
    assert x[0] != y[0];
    assert Clash(x, y, FACE_LENGTH, FACE_STRIDE);
  }

  const CUT_LENGTH: seq<nat> := [7, 7, 4, 8]
  const CUT_STRIDE: seq<nat> := [1, 17, 16, 18]

  lemma CutExampleIsLayout()
    ensures Axes(CUT_LENGTH, CUT_STRIDE) && Layout(CUT_LENGTH, CUT_STRIDE) && Fits(CUT_LENGTH, CUT_STRIDE)
    ensures Accepts(CUT_LENGTH, CUT_STRIDE) <==> !Visible(CUT_LENGTH, CUT_STRIDE)
  {
    MaxOffset4(CUT_LENGTH, CUT_STRIDE);
    AxesAreKept(CUT_LENGTH, CUT_STRIDE);
  }

  lemma CutExampleCutoff(idx: nat)
    requires idx == 1 || idx == 3
    ensures Cutoff(Drop(CUT_LENGTH, idx), Drop(CUT_STRIDE, idx)) == if idx == 1 then 9 else 6
  {
    var l, s := Drop(CUT_LENGTH, idx), Drop(CUT_STRIDE, idx);
    DropOfFour(CUT_LENGTH);
    DropOfFour(CUT_STRIDE);
    Dot3(l, s);
    Product3(l);
    assert Product(l) == if idx == 1 then 224 else 196;
    assert Dot(l, s) == if idx == 1 then 215 else 190;
  }

  lemma CutExampleAxes(idx: nat, k: nat, x: seq<nat>)
    requires idx < 4 && AxisMeets(k, x, idx, CUT_LENGTH, CUT_STRIDE)
    ensures (idx == 1 && k * 17 > 9) || (idx == 3 && k * 18 > 6)
  {
    DropOfFour(CUT_LENGTH);
    DropOfFour(CUT_STRIDE);
    AxisMeets4(k, x, idx, CUT_LENGTH, CUT_STRIDE);
    hide AxisMeets, Drop;
    if idx == 0 {
      FirstAxisIsFree(k, x[0], x[1], x[2]);
    } else if idx == 2 {
      ThirdAxisIsFree(k, x[0], x[1], x[2]);
    }
  }

  lemma FirstAxisIsFree(k: nat, a: nat, b: nat, c: nat)
    requires 1 <= k < 7
    ensures k * 1 != a * 17 + b * 16 + c * 18
  {
  }

  lemma ThirdAxisIsFree(k: nat, a: nat, b: nat, c: nat)
    requires 1 <= k < 4 && a < 7
    ensures k * 16 != a * 1 + b * 17 + c * 18
  {
  }

  lemma CutExamplePairs()
    ensures !SomePair(CUT_LENGTH, CUT_STRIDE)
  {
    if SomePair(CUT_LENGTH, CUT_STRIDE) {
      PairsOf4(CUT_LENGTH, CUT_STRIDE);
      assert false;
    }
  }

  lemma CutExampleNoHit(idx: nat)
    requires idx < 4
    ensures !AxisHit(idx, CUT_LENGTH, CUT_STRIDE)
  {
    var l, s := CUT_LENGTH, CUT_STRIDE;
    if k: nat, x :| AxisMeets(k, x, idx, l, s) && k * s[idx] <= Cutoff(Drop(l, idx), Drop(s, idx)) {
      CutExampleAxes(idx, k, x);
      CutExampleCutoff(idx);
      assert false;
    }
  }

  lemma CutExampleCollides()
    ensures AxisMeets(1, [1, 1, 0], 1, CUT_LENGTH, CUT_STRIDE)
  {
    var x: seq<nat> := [1, 1, 0];
    DropOfFour(CUT_LENGTH);
    DropOfFour(CUT_STRIDE);
    Dot3(x, Drop(CUT_STRIDE, 1));
    assert AxisMeets(1, x, 1, CUT_LENGTH, CUT_STRIDE);
  }

  /**
   The cut-off can hide even a one-axis collision: 17 == 1 + 16 goes unnoticed,
   because the first scan against axis 1 stops at 9.
   */
  lemma CutoffHidesAxisCollision()
    ensures Layout(CUT_LENGTH, CUT_STRIDE) && Fits(CUT_LENGTH, CUT_STRIDE)
    ensures Accepts(CUT_LENGTH, CUT_STRIDE) && Collides(CUT_LENGTH, CUT_STRIDE)
    ensures AxisMeets(1, [1, 1, 0], 1, CUT_LENGTH, CUT_STRIDE)
    ensures Cutoff(Drop(CUT_LENGTH, 1), Drop(CUT_STRIDE, 1)) == 9 < 1 * CUT_STRIDE[1]
  {
    CutExampleIsLayout();
    CutExamplePairs();
    CutExampleCollides();
    CutExampleCutoff(1);
    AxisMeetsIsClash(1, [1, 1, 0], 1, CUT_LENGTH, CUT_STRIDE);
    forall idx | 0 <= idx < 4 ensures !AxisHit(idx, CUT_LENGTH, CUT_STRIDE) {
      CutExampleNoHit(idx);
    }
  }

  lemma DropOfFour(v: seq<nat>)
    requires |v| == 4
    ensures Drop(v, 0) == [v[1], v[2], v[3]] && Drop(v, 1) == [v[0], v[2], v[3]]
    ensures Drop(v, 2) == [v[0], v[1], v[3]] && Drop(v, 3) == [v[0], v[1], v[2]]
  {
  }
}
