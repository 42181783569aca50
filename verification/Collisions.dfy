/**
 When do two multi-indices of a strided layout collide?  The arithmetic behind
 shared/array_validator.cpp, stated on index vectors and independently of the
 checker: pairs of axes, one axis against the rest, short axes, reordered axes.
 */
module Collisions {
  import opened Arith
  import opened Layouts
  import opened Odometer

  // ------------------------------------------------ least common multiple

  /** The least multiple `m * a`, m >= k, that `b` divides. */
  function LcmFrom(a: nat, b: nat, k: nat): (r: nat)
    requires a > 0 && b > 0 && 1 <= k <= b
    decreases b - k
  {
    if k == b || (k * a) % b == 0 then k * a else LcmFrom(a, b, k + 1)
  }

  /** std::lcm on positive arguments. */
  function Lcm(a: nat, b: nat): nat
    requires a > 0 && b > 0
  {
    LcmFrom(a, b, 1)
  }

  lemma {:induction false} LcmFromIsCommon(a: nat, b: nat, k: nat) returns (i: nat, j: nat)
    requires a > 0 && b > 0 && 1 <= k <= b
    ensures 1 <= i && 1 <= j && LcmFrom(a, b, k) == i * a == j * b
    decreases b - k
  {
    if k == b {
      return b, a;
    } else if (k * a) % b == 0 {
      MulPositive(k, a);
      return k, (k * a) / b;
    } else {
      i, j := LcmFromIsCommon(a, b, k + 1);
    }
  }

  lemma {:induction false} LcmFromIsLeast(a: nat, b: nat, k: nat, i: nat, j: nat)
    requires a > 0 && b > 0 && 1 <= k <= b && k <= i && i * a == j * b
    ensures LcmFrom(a, b, k) <= i * a
    decreases b - k
  {
    MulMono(k, i, a);
    if k != b && (k * a) % b != 0 {
      if i == k {
        DivModOf(j, 0, b);
      }
      LcmFromIsLeast(a, b, k + 1, i, j);
    }
  }

  // -------------------------------------------------------- pairs of axes

  /** Step `i` along one axis lands where step `j` along another does. */
  ghost predicate Meets(i: nat, j: nat, l0: nat, l1: nat, s0: nat, s1: nat) {
    1 <= i < l0 && 1 <= j < l1 && i * s0 == j * s1
  }

  ghost predicate PairCollides(l0: nat, l1: nat, s0: nat, s1: nat) {
    exists i, j :: Meets(i, j, l0, l1, s0, s1)
  }

  lemma ReachOfAxis(i: nat, l: nat, s: nat)
    requires i < l
    ensures i * s <= s * (l - 1)
  {
    MulMono(i, l - 1, s);
  }

  lemma MeetingReachesLcm(i: nat, j: nat, l0: nat, l1: nat, s0: nat, s1: nat)
    requires s0 > 0 && s1 > 0 && Meets(i, j, l0, l1, s0, s1)
    ensures s0 * (l0 - 1) >= Lcm(s0, s1) && s1 * (l1 - 1) >= Lcm(s0, s1)
  {
    LcmFromIsLeast(s0, s1, 1, i, j);
    hide LcmFrom;
    ReachOfAxis(i, l0, s0);
    ReachOfAxis(j, l1, s1);
  }

  lemma LcmIsMeeting(l0: nat, l1: nat, s0: nat, s1: nat)
    requires l0 >= 2 && l1 >= 2 && s0 > 0 && s1 > 0
    requires s0 * (l0 - 1) >= Lcm(s0, s1) && s1 * (l1 - 1) >= Lcm(s0, s1)
    ensures PairCollides(l0, l1, s0, s1)
  {
    var i, j := LcmFromIsCommon(s0, s1, 1);
    MulCancelLe(i, l0 - 1, s0);
    MulCancelLe(j, l1 - 1, s1);
    assert Meets(i, j, l0, l1, s0, s1);
  }

  /** Number-theoretic test: both axes reach the least common multiple. */
  lemma PairCollidesIffLcm(l0: nat, l1: nat, s0: nat, s1: nat)
    requires l0 >= 2 && l1 >= 2 && s0 > 0 && s1 > 0
    ensures PairCollides(l0, l1, s0, s1)
        <==> (s0 * (l0 - 1) >= Lcm(s0, s1) && s1 * (l1 - 1) >= Lcm(s0, s1))
  {
    if i, j :| Meets(i, j, l0, l1, s0, s1) {
      MeetingReachesLcm(i, j, l0, l1, s0, s1);
    } else if s0 * (l0 - 1) >= Lcm(s0, s1) && s1 * (l1 - 1) >= Lcm(s0, s1) {
      LcmIsMeeting(l0, l1, s0, s1);
    }
  }

  lemma MulCancelLe(a: nat, b: nat, p: nat)
    requires p > 0 && a * p <= p * b
    ensures a <= b
  {
    if b < a {
      MulStep(b, a, p);
    }
  }

  // -------------------------------------------- one axis against the rest

  /** Step `k` along axis `idx` lands where `x` does on the remaining axes. */
  ghost predicate AxisMeets(k: nat, x: seq<nat>, idx: nat, l: seq<nat>, s: seq<nat>)
    requires |l| == |s| && idx < |l|
  {
    1 <= k < l[idx] && InBox(x, Drop(l, idx)) && k * s[idx] == Dot(x, Drop(s, idx))
  }

  ghost predicate AxisCollides(l: seq<nat>, s: seq<nat>)
    requires |l| == |s|
  {
    exists idx, k, x :: 0 <= idx < |l| && AxisMeets(k, x, idx, l, s)
  }

  /** Any meeting of an axis with the rest is a collision of the layout. */
  lemma AxisMeetsIsClash(k: nat, x: seq<nat>, idx: nat, l: seq<nat>, s: seq<nat>)
    requires |l| == |s| && idx < |l| && AxisMeets(k, x, idx, l, s)
    requires AllPositive(l)
    ensures Collides(l, s)
  {
    var n := |l| - 1;
    var a, b := Insert(Zeros(n), idx, k), Insert(x, idx, 0);
    DotInsert(Zeros(n), s, idx, k);
    DotZeros(Drop(s, idx));
    DotInsert(x, s, idx, 0);
    assert a[idx] == k && b[idx] == 0;
    assert InBox(b, l) by { InsertInBox(x, l, idx, 0); }
    assert InBox(a, l) by { InsertInBox(Zeros(n), l, idx, k); }
    assert Clash(a, b, l, s);
  }

  lemma InsertInBox(x: seq<nat>, l: seq<nat>, idx: nat, e: nat)
    requires idx < |l| && InBox(x, Drop(l, idx)) && e < l[idx]
    ensures InBox(Insert(x, idx, e), l)
  {
    var y := Insert(x, idx, e);
    forall i | 0 <= i < |l| ensures y[i] < l[i] {
      if i < idx {
        assert x[i] < Drop(l, idx)[i];
      } else if i > idx {
        assert x[i - 1] < Drop(l, idx)[i - 1];
      }
    }
  }

  /** A collision of a sub-layout is a collision of the layout. */
  lemma FaceCollision(l: seq<nat>, s: seq<nat>, idx: nat)
    requires |l| == |s| && idx < |l| && l[idx] > 0
    requires Collides(Drop(l, idx), Drop(s, idx))
    ensures Collides(l, s)
  {
    var x, y :| Clash(x, y, Drop(l, idx), Drop(s, idx));
    var a, b := Insert(x, idx, 0), Insert(y, idx, 0);
    InsertInBox(x, l, idx, 0);
    InsertInBox(y, l, idx, 0);
    DotInsert(x, s, idx, 0);
    DotInsert(y, s, idx, 0);
    assert Drop(a, idx) == x && Drop(b, idx) == y;
    assert Clash(a, b, l, s);
  }

  /** A meeting of two axes is a meeting of the first with the rest. */
  lemma PairIsAxis(l: seq<nat>, s: seq<nat>, a: nat, b: nat, i: nat, j: nat) returns (x: seq<nat>)
    requires |l| == |s| && a < |l| && b < |l| && a != b
    requires AllPositive(l)
    requires Meets(i, j, l[a], l[b], s[a], s[b])
    ensures AxisMeets(i, x, a, l, s)
  {
    var p := if b < a then b else b - 1;
    var n := |l| - 1;
    x := Insert(Zeros(n - 1), p, j);
    assert Drop(l, a)[p] == l[b] && Drop(s, a)[p] == s[b];
    DotInsert(Zeros(n - 1), Drop(s, a), p, j);
    DotZeros(Drop(Drop(s, a), p));
  }

  // ------------------------------------------------------- up to three axes

  /** Cancelling the common part of two clashing indices. */
  function Minus(x: nat, y: nat): nat {
    if x > y then x - y else 0
  }

  lemma Dot2(x: seq<nat>, s: seq<nat>)
    requires |x| == |s| == 2
    ensures Dot(x, s) == x[0] * s[0] + x[1] * s[1]
  {
    assert Dot(x[1..], s[1..]) == x[1] * s[1] + Dot(x[1..][1..], s[1..][1..]);
  }

  lemma Dot3(x: seq<nat>, s: seq<nat>)
    requires |x| == |s| == 3
    ensures Dot(x, s) == x[0] * s[0] + x[1] * s[1] + x[2] * s[2]
  {
    Dot2(x[1..], s[1..]);
  }

  lemma Distribute(x: nat, y: nat, s: nat)
    ensures x * s - y * s == Minus(x, y) * s - Minus(y, x) * s
  {
  }

  lemma ClashOf2(x: seq<nat>, y: seq<nat>, l: seq<nat>, s: seq<nat>)
    requires |l| == |s| == 2 && s[0] > 0 && s[1] > 0 && Clash(x, y, l, s)
    ensures PairCollides(l[0], l[1], s[0], s[1])
  {
    assert x[0] != y[0] || x[1] != y[1];
    Dot2(x, s);
    Dot2(y, s);
    var a0, b0 := Minus(x[0], y[0]), Minus(y[0], x[0]);
    var a1, b1 := Minus(x[1], y[1]), Minus(y[1], x[1]);
    Distribute(x[0], y[0], s[0]);
    Distribute(x[1], y[1], s[1]);
    assert a0 * s[0] + a1 * s[1] == b0 * s[0] + b1 * s[1];
    SignsOf(a0, b0, s[0]);
    SignsOf(a1, b1, s[1]);
    if a0 > 0 {
      assert Meets(a0, b1, l[0], l[1], s[0], s[1]);
    } else {
      assert Meets(b0, a1, l[0], l[1], s[0], s[1]);
    }
  }

  lemma SignsOf(a: nat, b: nat, s: nat)
    requires s > 0
    ensures a > 0 ==> a * s > 0
    ensures b > 0 ==> b * s > 0
  {
  }

  /** With three axes some side of a clash moves along a single axis. */
  lemma ClashOf3(x: seq<nat>, y: seq<nat>, l: seq<nat>, s: seq<nat>)
    requires |l| == |s| == 3 && s[0] > 0 && s[1] > 0 && s[2] > 0 && Clash(x, y, l, s)
    ensures AxisCollides(l, s)
  {
    assert x[0] != y[0] || x[1] != y[1] || x[2] != y[2];
    Dot3(x, s);
    Dot3(y, s);
    var a0, b0 := Minus(x[0], y[0]), Minus(y[0], x[0]);
    var a1, b1 := Minus(x[1], y[1]), Minus(y[1], x[1]);
    var a2, b2 := Minus(x[2], y[2]), Minus(y[2], x[2]);
    Distribute(x[0], y[0], s[0]);
    Distribute(x[1], y[1], s[1]);
    Distribute(x[2], y[2], s[2]);
    SignsOf(a0, b0, s[0]);
    SignsOf(a1, b1, s[1]);
    SignsOf(a2, b2, s[2]);
    var a, b := [a0, a1, a2], [b0, b1, b2];
    assert a0 * s[0] + a1 * s[1] + a2 * s[2] == b0 * s[0] + b1 * s[1] + b2 * s[2];
    if a1 == 0 && a2 == 0 {
      SingleAxis(a, b, 0, l, s);
    } else if a0 == 0 && a2 == 0 {
      SingleAxis(a, b, 1, l, s);
    } else if a0 == 0 && a1 == 0 {
      SingleAxis(a, b, 2, l, s);
    } else if b1 == 0 && b2 == 0 {
      SingleAxis(b, a, 0, l, s);
    } else if b0 == 0 && b2 == 0 {
      SingleAxis(b, a, 1, l, s);
    } else {
      SingleAxis(b, a, 2, l, s);
    }
  }

  lemma SingleAxis(a: seq<nat>, b: seq<nat>, idx: nat, l: seq<nat>, s: seq<nat>)
    requires |a| == |b| == |l| == |s| == 3 && idx < 3
    requires InBox(a, l) && InBox(b, l)
    requires a[idx] > 0 && b[idx] == 0
    requires forall k :: 0 <= k < 3 && k != idx ==> a[k] == 0
    requires a[0] * s[0] + a[1] * s[1] + a[2] * s[2] == b[0] * s[0] + b[1] * s[1] + b[2] * s[2]
    ensures AxisCollides(l, s)
  {
    Dot2(Drop(b, idx), Drop(s, idx));
    assert AxisMeets(a[idx], Drop(b, idx), idx, l, s);
  }

  // ----------------------------------------------------- axes of length one

  /** The entries of `v` on the axes longer than 1. */
  function Keep(l: seq<nat>, v: seq<nat>): (r: seq<nat>)
    requires |l| == |v|
  {
    if l == [] then []
    else (if l[0] > 1 then [v[0]] else []) + Keep(l[1..], v[1..])
  }

  /** An index of the long axes as an index of all axes. */
  function Expand(l: seq<nat>, x: seq<nat>): (r: seq<nat>)
    requires |x| == |Keep(l, l)|
    ensures |r| == |l|
  {
    if l == [] then []
    else if l[0] > 1 then
      assert Keep(l, l)[1..] == Keep(l[1..], l[1..]);
      [x[0]] + Expand(l[1..], x[1..])
    else
      assert Keep(l, l) == Keep(l[1..], l[1..]);
      [0] + Expand(l[1..], x)
  }

  lemma {:induction false} KeepSizes(l: seq<nat>, v: seq<nat>)
    requires |l| == |v|
    ensures |Keep(l, v)| == |Keep(l, l)| <= |l|
  {
    if l != [] {
      KeepSizes(l[1..], v[1..]);
    }
  }

  lemma {:induction false} ExpandInBox(l: seq<nat>, x: seq<nat>)
    requires InBox(x, Keep(l, l))
    ensures InBox(Expand(l, x), Pin(l)) && Keep(l, Expand(l, x)) == x
  {
    if l != [] {
      assert Pin(l) == [Pin(l)[0]] + Pin(l[1..]);
      if l[0] > 1 {
        assert Keep(l, l)[1..] == Keep(l[1..], l[1..]);
        ExpandInBox(l[1..], x[1..]);
        assert Expand(l, x)[1..] == Expand(l[1..], x[1..]);
        assert [x[0]] + x[1..] == x;
      } else {
        assert Keep(l, l) == Keep(l[1..], l[1..]);
        ExpandInBox(l[1..], x);
        assert Expand(l, x)[1..] == Expand(l[1..], x);
      }
    }
  }

  lemma {:induction false} KeepInBox(l: seq<nat>, x: seq<nat>, k: nat)
    requires InBox(x, Pin(l)) && k < |Keep(l, l)|
    ensures |Keep(l, x)| == |Keep(l, l)| && Keep(l, x)[k] < Keep(l, l)[k]
  {
    KeepSizes(l, x);
    KeepSizes(l[1..], x[1..]);
    assert Pin(l)[1..] == Pin(l[1..]);
    assert x[0] < Pin(l)[0];
    if l[0] > 1 {
      if k > 0 {
        KeepInBox(l[1..], x[1..], k - 1);
      }
    } else {
      KeepInBox(l[1..], x[1..], k);
    }
  }

  /** Dropping the axes of length one does not change the offset. */
  lemma {:induction false} KeepDot(l: seq<nat>, s: seq<nat>, x: seq<nat>)
    requires |l| == |s| && InBox(x, Pin(l))
    ensures |Keep(l, x)| == |Keep(l, s)| && Dot(x, s) == Dot(Keep(l, x), Keep(l, s))
  {
    KeepSizes(l, s);
    KeepSizes(l, x);
    if l != [] {
      assert Pin(l)[1..] == Pin(l[1..]);
      assert InBox(x[1..], Pin(l[1..]));
      KeepDot(l[1..], s[1..], x[1..]);
      assert x[0] < Pin(l)[0];
      var x', s' := Keep(l[1..], x[1..]), Keep(l[1..], s[1..]);
      if l[0] > 1 {
        assert ([x[0]] + x')[1..] == x' && ([s[0]] + s')[1..] == s';
      } else {
        assert Keep(l, x) == x' && Keep(l, s) == s';
      }
    }
  }

  lemma ExpandOne(l: seq<nat>, x: seq<nat>)
    requires l != [] && |x| == |l| && x[0] < Pin(l)[0]
    requires |Keep(l[1..], x[1..])| == |Keep(l[1..], l[1..])| && Expand(l[1..], Keep(l[1..], x[1..])) == x[1..]
    ensures |Keep(l, x)| == |Keep(l, l)| && Expand(l, Keep(l, x)) == x
  {
    var x', l' := Keep(l[1..], x[1..]), Keep(l[1..], l[1..]);
    assert x == [x[0]] + x[1..];
    if l[0] > 1 {
      assert Keep(l, x) == [x[0]] + x' && ([x[0]] + x')[1..] == x';
      assert Keep(l, l) == [l[0]] + l';
    } else {
      assert Keep(l, x) == x' && Keep(l, l) == l';
    }
  }

  /** Nor does it lose anything of the index. */
  lemma {:induction false} ExpandKeep(l: seq<nat>, x: seq<nat>)
    requires InBox(x, Pin(l))
    ensures |Keep(l, x)| == |Keep(l, l)| && Expand(l, Keep(l, x)) == x
  {
    if l != [] {
      hide Keep, Expand;
      assert Pin(l)[1..] == Pin(l[1..]);
      assert InBox(x[1..], Pin(l[1..]));
      ExpandKeep(l[1..], x[1..]);
      assert x[0] < Pin(l)[0];
      ExpandOne(l, x);
    }
  }

  lemma ClashOfLong(l: seq<nat>, s: seq<nat>, x: seq<nat>, y: seq<nat>)
    requires |l| == |s| && Clash(x, y, Pin(l), s)
    ensures |Keep(l, l)| == |Keep(l, s)| && Clash(Keep(l, x), Keep(l, y), Keep(l, l), Keep(l, s))
  {
    hide Dot, Pin, Keep;
    KeepSizes(l, s);
    KeepDot(l, s, x);
    KeepDot(l, s, y);
    ExpandKeep(l, x);
    ExpandKeep(l, y);
    forall k | 0 <= k < |Keep(l, l)| ensures Keep(l, x)[k] < Keep(l, l)[k] && Keep(l, y)[k] < Keep(l, l)[k] {
      KeepInBox(l, x, k);
      KeepInBox(l, y, k);
    }
  }

  lemma ClashOfAll(l: seq<nat>, s: seq<nat>, x: seq<nat>, y: seq<nat>)
    requires |l| == |s| && |Keep(l, l)| == |Keep(l, s)| && Clash(x, y, Keep(l, l), Keep(l, s))
    ensures Clash(Expand(l, x), Expand(l, y), Pin(l), s)
  {
    hide Dot, Pin, Keep, Expand;
    ExpandInBox(l, x);
    ExpandInBox(l, y);
    KeepDot(l, s, Expand(l, x));
    KeepDot(l, s, Expand(l, y));
  }

  /** Strides of axes of length one are irrelevant. */
  lemma ShortAxesIrrelevant(l: seq<nat>, s: seq<nat>)
    requires |l| == |s|
    ensures |Keep(l, l)| == |Keep(l, s)|
    ensures Collides(Pin(l), s) <==> Collides(Keep(l, l), Keep(l, s))
  {
    hide Clash;
    KeepSizes(l, s);
    if x, y :| Clash(x, y, Pin(l), s) {
      ClashOfLong(l, s, x, y);
    }
    if x, y :| Clash(x, y, Keep(l, l), Keep(l, s)) {
      ClashOfAll(l, s, x, y);
    }
  }

  // -------------------------------------------------------- reordered axes

  type Axis = (nat, nat)  // length, stride

  function Firsts(ls: seq<Axis>): (r: seq<nat>)
    ensures |r| == |ls| && forall k :: 0 <= k < |ls| ==> r[k] == ls[k].0
  {
    seq(|ls|, k requires 0 <= k < |ls| => ls[k].0)
  }

  function Seconds(ls: seq<Axis>): (r: seq<nat>)
    ensures |r| == |ls| && forall k :: 0 <= k < |ls| ==> r[k] == ls[k].1
  {
    seq(|ls|, k requires 0 <= k < |ls| => ls[k].1)
  }

  lemma DropMultiset<T>(v: seq<T>, k: nat)
    requires k < |v|
    ensures multiset(Drop(v, k)) == multiset(v) - multiset{v[k]}
  {
    assert v == v[..k] + [v[k]] + v[k + 1..];
  }

  lemma WithoutAxis(ls: seq<Axis>, k: nat, x: seq<nat>)
    requires k < |ls| && InBox(x, Pin(Firsts(ls)))
    ensures InBox(Drop(x, k), Pin(Firsts(Drop(ls, k))))
    ensures Dot(x, Seconds(ls)) == x[k] * ls[k].1 + Dot(Drop(x, k), Seconds(Drop(ls, k)))
  {
    forall i | 0 <= i < |ls| - 1
      ensures Drop(x, k)[i] < Pin(Firsts(Drop(ls, k)))[i]
    {
      var j := if i < k then i else i + 1;
      assert x[j] < Pin(Firsts(ls))[j];
    }
    assert Drop(Seconds(ls), k) == Seconds(Drop(ls, k));
    DropThenInsert(x, k);
    DotInsert(Drop(x, k), Seconds(ls), k, x[k]);
  }

  lemma WithAxis(rs: seq<Axis>, q: nat, u: seq<nat>)
    requires rs != [] && q < Pin(Firsts(rs))[0] && InBox(u, Pin(Firsts(rs[1..])))
    ensures InBox([q] + u, Pin(Firsts(rs)))
    ensures Dot([q] + u, Seconds(rs)) == q * rs[0].1 + Dot(u, Seconds(rs[1..]))
  {
    assert Pin(Firsts(rs))[1..] == Pin(Firsts(rs[1..]));
    assert Seconds(rs)[1..] == Seconds(rs[1..]);
    assert ([q] + u)[1..] == u;
  }

  /** An index moved along with axis `k` to the front. */
  lemma MoveAxis(ls: seq<Axis>, rs: seq<Axis>, k: nat, x: seq<nat>, u: seq<nat>)
    requires k < |ls| && rs != [] && ls[k] == rs[0]
    requires InBox(x, Pin(Firsts(ls))) && InBox(u, Pin(Firsts(rs[1..])))
    requires |Drop(x, k)| == |Drop(ls, k)| && Dot(u, Seconds(rs[1..])) == Dot(Drop(x, k), Seconds(Drop(ls, k)))
    ensures InBox([x[k]] + u, Pin(Firsts(rs)))
    ensures Dot([x[k]] + u, Seconds(rs)) == Dot(x, Seconds(ls))
  {
    WithoutAxis(ls, k, x);
    hide Dot;
    assert x[k] < Pin(Firsts(ls))[k];
    WithAxis(rs, x[k], u);
  }

  lemma SameIffSamePieces(x: seq<nat>, y: seq<nat>, k: nat, u: seq<nat>, v: seq<nat>)
    requires |x| == |y| && k < |x| && (Drop(x, k) == Drop(y, k) <==> u == v)
    ensures x == y <==> [x[k]] + u == [y[k]] + v
  {
    DropThenInsert(x, k);
    DropThenInsert(y, k);
    assert ([x[k]] + u)[1..] == u && ([y[k]] + v)[1..] == v;
    assert ([x[k]] + u)[0] == x[k] && ([y[k]] + v)[0] == y[k];
  }

  /** Two indices carried along any reordering of the axes keep their offsets. */
  lemma {:induction false} ReorderPair(ls: seq<Axis>, rs: seq<Axis>, x: seq<nat>, y: seq<nat>)
    returns (x': seq<nat>, y': seq<nat>)
    requires multiset(ls) == multiset(rs)
    requires InBox(x, Pin(Firsts(ls))) && InBox(y, Pin(Firsts(ls)))
    ensures InBox(x', Pin(Firsts(rs))) && InBox(y', Pin(Firsts(rs)))
    ensures Dot(x', Seconds(rs)) == Dot(x, Seconds(ls))
    ensures Dot(y', Seconds(rs)) == Dot(y, Seconds(ls))
    ensures x == y <==> x' == y'
    decreases |ls|
  {
    assert |ls| == |multiset(ls)| == |multiset(rs)| == |rs|;
    if ls == [] {
      return [], [];
    }
    assert rs[0] in multiset(ls);
    var k :| 0 <= k < |ls| && ls[k] == rs[0];
    DropMultiset(ls, k);
    DropMultiset(rs, 0);
    assert Drop(rs, 0) == rs[1..];
    WithoutAxis(ls, k, x);
    WithoutAxis(ls, k, y);
    var u, v := ReorderPair(Drop(ls, k), rs[1..], Drop(x, k), Drop(y, k));
    x', y' := [x[k]] + u, [y[k]] + v;
    hide Dot, Pin, Firsts, Seconds, InBox;
    MoveAxis(ls, rs, k, x, u);
    MoveAxis(ls, rs, k, y, v);
    SameIffSamePieces(x, y, k, u, v);
  }

  lemma ReorderKeepsCollisions(ls: seq<Axis>, rs: seq<Axis>)
    requires multiset(ls) == multiset(rs)
    requires Collides(Pin(Firsts(ls)), Seconds(ls))
    ensures Collides(Pin(Firsts(rs)), Seconds(rs))
  {
    var x, y :| Clash(x, y, Pin(Firsts(ls)), Seconds(ls));
    var x', y' := ReorderPair(ls, rs, x, y);
    assert Clash(x', y', Pin(Firsts(rs)), Seconds(rs));
  }

  // -------------------------------------------- strides that leave room

  ghost predicate SortedByStride(ls: seq<Axis>) {
    forall i, j :: 0 <= i < j < |ls| ==> ls[i].1 <= ls[j].1
  }

  /** Each stride is at least the previous length times the previous stride. */
  ghost predicate Nested(ls: seq<Axis>) {
    forall k :: 0 < k < |ls| ==> ls[k].1 >= ls[k - 1].0 * ls[k - 1].1
  }

  lemma {:induction false} DotSnoc(x: seq<nat>, s: seq<nat>)
    requires |x| == |s| > 0
    ensures Dot(x, s) == Dot(x[..|x| - 1], s[..|s| - 1]) + x[|x| - 1] * s[|s| - 1]
  {
    var n := |x| - 1;
    assert Insert(x[..n], n, x[n]) == x && Drop(s, n) == s[..n];
    DotInsert(x[..n], s, n, x[n]);
  }

  /** No offset of nested axes reaches past the last of them. */
  lemma {:induction false} NestedReach(ls: seq<Axis>, x: seq<nat>)
    requires SortedByStride(ls) && Nested(ls) && InBox(x, Pin(Firsts(ls)))
    ensures Dot(x, Seconds(ls)) == 0
         || (ls != [] && Dot(x, Seconds(ls)) < ls[|ls| - 1].0 * ls[|ls| - 1].1)
         || (ls != [] && Dot(x, Seconds(ls)) < ls[|ls| - 1].1)
  {
    if ls != [] {
      var n := |ls| - 1;
      NestedReach(ls[..n], x[..n]);
      DotSnoc(x, Seconds(ls));
      assert Seconds(ls)[..n] == Seconds(ls[..n]);
      var d := Dot(x[..n], Seconds(ls[..n]));
      if n > 0 {
        assert ls[n - 1].1 <= ls[n].1;
      }
      assert d == 0 || d < ls[n].1;
      assert x[n] < Pin(Firsts(ls))[n];
      if ls[n].0 > 0 {
        MulStep(x[n], ls[n].0, ls[n].1);
      }
    }
  }

  /** Offsets of the smaller axes stay below the stride of the last one. */
  lemma NestedBelow(ls: seq<Axis>, x: seq<nat>)
    requires ls != [] && SortedByStride(ls) && Nested(ls) && ls[|ls| - 1].1 > 0
    requires InBox(x, Pin(Firsts(ls[..|ls| - 1])))
    ensures Dot(x, Seconds(ls[..|ls| - 1])) < ls[|ls| - 1].1
  {
    var n := |ls| - 1;
    NestedReach(ls[..n], x);
    if n > 0 {
      assert ls[n - 1].1 <= ls[n].1;
      assert ls[n].1 >= ls[n - 1].0 * ls[n - 1].1;
    }
  }

  /** Equal offsets of nested axes are equal at the last axis and below it. */
  lemma LastAxisAgrees(ls: seq<Axis>, x: seq<nat>, y: seq<nat>)
    requires ls != [] && SortedByStride(ls) && Nested(ls) && (ls[|ls| - 1].0 > 1 ==> ls[|ls| - 1].1 > 0)
    requires InBox(x, Pin(Firsts(ls))) && InBox(y, Pin(Firsts(ls)))
    requires Dot(x, Seconds(ls)) == Dot(y, Seconds(ls))
    ensures var n := |ls| - 1;
      && x[n] == y[n] && InBox(x[..n], Pin(Firsts(ls[..n]))) && InBox(y[..n], Pin(Firsts(ls[..n])))
      && Dot(x[..n], Seconds(ls[..n])) == Dot(y[..n], Seconds(ls[..n]))
  {
    hide Dot, SortedByStride, Nested;
    var n := |ls| - 1;
    DotSnoc(x, Seconds(ls));
    DotSnoc(y, Seconds(ls));
    assert Seconds(ls)[..n] == Seconds(ls[..n]);
    assert Pin(Firsts(ls))[..n] == Pin(Firsts(ls[..n]));
    assert InBox(x[..n], Pin(Firsts(ls[..n]))) && InBox(y[..n], Pin(Firsts(ls[..n])));
    assert x[n] < Pin(Firsts(ls))[n] && y[n] < Pin(Firsts(ls))[n];
    if ls[n].0 > 1 {
      NestedBelow(ls, x[..n]);
      NestedBelow(ls, y[..n]);
      DigitsUnique(x[n], Dot(x[..n], Seconds(ls[..n])), y[n], Dot(y[..n], Seconds(ls[..n])), ls[n].1);
    }
  }

  lemma {:induction false} NestedHasNoClash(ls: seq<Axis>, x: seq<nat>, y: seq<nat>)
    requires SortedByStride(ls) && Nested(ls)
    requires forall k :: 0 <= k < |ls| && ls[k].0 > 1 ==> ls[k].1 > 0
    requires InBox(x, Pin(Firsts(ls))) && InBox(y, Pin(Firsts(ls)))
    requires Dot(x, Seconds(ls)) == Dot(y, Seconds(ls))
    ensures x == y
  {
    if ls != [] {
      var n := |ls| - 1;
      LastAxisAgrees(ls, x, y);
      hide Dot, Pin;
      NestedHasNoClash(ls[..n], x[..n], y[..n]);
      assert x == x[..n] + [x[n]] && y == y[..n] + [y[n]];
    }
  }
}
