/**
 What the norms of a strided batch are in terms of its values: the square sum starts
 at zero and changes with each value by the difference of the squares, and the
 maximum is the largest absolute value.
 */
module NormValues {
  import opened Arith
  import opened Layouts
  import opened Partitions
  import opened Spectra
  import opened Norms

  // ------------------------------------------------- sums and maxima of cells

  /** Cell `k` of batch `c` comes before (b, r). */
  predicate Earlier(c: nat, k: nat, n: nat, b: nat, r: nat) {
    (c < b && k < n) || (c == b && k < r)
  }

  lemma {:induction false} SumOfZeros(f: (nat, nat) -> real, n: nat, b: nat, r: nat)
    requires forall c: nat, k: nat :: f(c, k) == 0.0
    ensures SumTo(f, n, b, r) == 0.0
    decreases b, r
  {
    if r > 0 {
      SumOfZeros(f, n, b, r - 1);
    } else if b > 0 {
      SumOfZeros(f, n, b - 1, n);
    }
  }

  /** Sums of two functions that differ at one cell only. */
  lemma {:induction false} SumChanges(f: (nat, nat) -> real, g: (nat, nat) -> real, n: nat, b: nat, r: nat, c: nat, k: nat)
    requires forall c': nat, k': nat :: c' != c || k' != k ==> f(c', k') == g(c', k')
    ensures SumTo(g, n, b, r) == SumTo(f, n, b, r) + if Earlier(c, k, n, b, r) then g(c, k) - f(c, k) else 0.0
    decreases b, r
  {
    if r > 0 {
      SumChanges(f, g, n, b, r - 1, c, k);
    } else if b > 0 {
      SumChanges(f, g, n, b - 1, n, c, k);
    }
  }

  lemma {:induction false} MaxBounds(f: (nat, nat) -> real, n: nat, b: nat, r: nat, c: nat, k: nat)
    requires Earlier(c, k, n, b, r)
    ensures f(c, k) <= MaxTo(f, n, b, r)
    decreases b, r
  {
    if r > 0 {
      if Earlier(c, k, n, b, r - 1) {
        MaxBounds(f, n, b, r - 1, c, k);
      }
    } else {
      MaxBounds(f, n, b - 1, n, c, k);
    }
  }

  lemma {:induction false} MaxIsMet(f: (nat, nat) -> real, n: nat, b: nat, r: nat) returns (c: nat, k: nat)
    ensures MaxTo(f, n, b, r) == 0.0 || (Earlier(c, k, n, b, r) && MaxTo(f, n, b, r) == f(c, k))
    decreases b, r
  {
    c, k := 0, 0;
    if r > 0 {
      c, k := MaxIsMet(f, n, b, r - 1);
      if MaxTo(f, n, b, r - 1) < f(b, r - 1) {
        c, k := b, r - 1;
      }
    } else if b > 0 {
      c, k := MaxIsMet(f, n, b - 1, n);
    }
  }

  // ---------------------------------------------------------- parts of a cell

  lemma {:induction false} PeakBounds(p: seq<real>, k: nat, i: nat)
    requires i < k <= |p|
    ensures p[i] <= Peak(p, k) && -p[i] <= Peak(p, k)
  {
    if i < k - 1 {
      PeakBounds(p, k - 1, i);
    }
  }

  lemma {:induction false} PeakIsMet(p: seq<real>, k: nat) returns (i: nat)
    requires k <= |p|
    ensures Peak(p, k) == 0.0 || (i < k && (Peak(p, k) == p[i] || Peak(p, k) == -p[i]))
  {
    i := 0;
    if k > 0 {
      i := PeakIsMet(p, k - 1);
      if Peak(p, k - 1) < Abs(p[k - 1]) {
        i := k - 1;
      }
    }
  }

  // ---------------------------------------------------------------- square sum

  /** Replacing the value of one cell changes the parts of that cell only. */
  lemma OtherCellsStay<T>(a: seq<T>, parts: T -> seq<real>, v: Shape, c: nat, x: seq<nat>, w: T)
    requires WellShaped(v) && Inside(v, |a|) && Distinct(v) && Cell(v, c, x)
    ensures forall b: nat, r: nat :: b != c || r != Rank(x, v.length) ==>
      CellParts(a, parts, v, b, r) == CellParts(a[Place(v, c, x) := w], parts, v, b, r)
  {
    forall b: nat, r: nat | b != c || r != Rank(x, v.length)
      ensures CellParts(a, parts, v, b, r) == CellParts(a[Place(v, c, x) := w], parts, v, b, r)
    {
      if b < v.nbatch && r < Product(v.length) {
        assert Cell(v, b, Unrank(r, v.length));
      }
    }
  }

  lemma SquareSumChanges<T>(a: seq<T>, parts: T -> seq<real>, v: Shape, c: nat, x: seq<nat>, w: T)
    requires WellShaped(v) && Inside(v, |a|) && Distinct(v) && Cell(v, c, x)
    ensures var p, q := parts(a[Place(v, c, x)]), parts(w);
            SquareSum(a[Place(v, c, x) := w], parts, v) == SquareSum(a, parts, v) + Power(q, |q|) - Power(p, |p|)
  {
    var b := a[Place(v, c, x) := w];
    OtherCellsStay(a, parts, v, c, x, w);
    CellAt(a, parts, v, c, x);
    CellAt(b, parts, v, c, x);
    RankBound(x, v.length);
    hide CellParts, Place, Inside, Distinct, Power;
    SumChanges(PowerCell(a, parts, v), PowerCell(b, parts, v), Product(v.length), v.nbatch, 0, c, Rank(x, v.length));
  }

  lemma PowerOfOne(p: seq<real>)
    requires |p| == 1
    ensures Power(p, |p|) == p[0] * p[0]
  {
    assert Power(p, 1) == Power(p, 0) + Square(Abs(p[0]));
  }

  lemma PowerOfTwo(p: seq<real>)
    requires |p| == 2
    ensures Power(p, |p|) == p[0] * p[0] + p[1] * p[1]
  {
    assert Power(p, 2) == Power(p, 1) + Square(Abs(p[1])) && Power(p, 1) == Power(p, 0) + Square(Abs(p[0]));
  }

  /** A real value that is replaced changes the square sum by the difference of the squares. */
  lemma RealSquareSum(a: seq<real>, v: Shape, c: nat, x: seq<nat>, w: real)
    requires WellShaped(v) && Inside(v, |a|) && Distinct(v) && Cell(v, c, x)
    ensures var u := a[Place(v, c, x)];
            SquareSum(a[Place(v, c, x) := w], RealParts(), v) == SquareSum(a, RealParts(), v) + w * w - u * u
  {
    SquareSumChanges(a, RealParts(), v, c, x, w);
    PowerOfOne([w]);
    PowerOfOne([a[Place(v, c, x)]]);
    hide Place, SquareSum, Power, Inside;
  }

  /** A complex value, by those of both parts. */
  lemma ComplexSquareSum(a: seq<Complex>, v: Shape, c: nat, x: seq<nat>, w: Complex)
    requires WellShaped(v) && Inside(v, |a|) && Distinct(v) && Cell(v, c, x)
    ensures var u := a[Place(v, c, x)];
            SquareSum(a[Place(v, c, x) := w], ComplexParts(), v) ==
            SquareSum(a, ComplexParts(), v) + (w.re * w.re + w.im * w.im) - (u.re * u.re + u.im * u.im)
  {
    SquareSumChanges(a, ComplexParts(), v, c, x, w);
    var u := a[Place(v, c, x)];
    PowerOfTwo([w.re, w.im]);
    PowerOfTwo([u.re, u.im]);
    hide Place, SquareSum, Power, Inside;
  }

  lemma {:induction false} PowerOfZeros(p: seq<real>, k: nat)
    requires k <= |p| && forall i :: 0 <= i < |p| ==> p[i] == 0.0
    ensures Power(p, k) == 0.0
  {
    if k > 0 {
      PowerOfZeros(p, k - 1);
    }
  }

  /** Data whose parts are all zero have the square sum zero. */
  lemma ZerosHaveNoSquares<T>(a: seq<T>, parts: T -> seq<real>, v: Shape)
    requires WellShaped(v) && Inside(v, |a|)
    requires forall p, i :: 0 <= p < |a| && 0 <= i < |parts(a[p])| ==> parts(a[p])[i] == 0.0
    ensures SquareSum(a, parts, v) == 0.0
  {
    forall b: nat, r: nat ensures PowerCell(a, parts, v)(b, r) == 0.0 {
      var p := CellParts(a, parts, v, b, r);
      PowerOfZeros(p, |p|);
    }
    SumOfZeros(PowerCell(a, parts, v), Product(v.length), v.nbatch, 0);
  }

  // ------------------------------------------------------------------ maximum

  /** No part of a cell exceeds the maximum in absolute value. */
  lemma LargestBounds<T>(a: seq<T>, parts: T -> seq<real>, v: Shape, c: nat, x: seq<nat>, i: nat)
    requires WellShaped(v) && Inside(v, |a|) && Cell(v, c, x) && i < |parts(a[Place(v, c, x)])|
    ensures var p := parts(a[Place(v, c, x)]); p[i] <= Largest(a, parts, v) && -p[i] <= Largest(a, parts, v)
  {
    var p := parts(a[Place(v, c, x)]);
    CellAt(a, parts, v, c, x);
    RankBound(x, v.length);
    hide CellParts, Place, Inside;
    PeakBounds(p, |p|, i);
    MaxBounds(PeakCell(a, parts, v), Product(v.length), v.nbatch, 0, c, Rank(x, v.length));
  }

  /** The maximum is 0 or the absolute value of some part of a cell. */
  lemma LargestIsMet<T>(a: seq<T>, parts: T -> seq<real>, v: Shape) returns (c: nat, x: seq<nat>, i: nat)
    requires WellShaped(v) && Inside(v, |a|)
    ensures var m := Largest(a, parts, v);
            m == 0.0 || (Cell(v, c, x) && i < |parts(a[Place(v, c, x)])|
                         && (m == parts(a[Place(v, c, x)])[i] || m == -parts(a[Place(v, c, x)])[i]))
  {
    var k;
    c, k := MaxIsMet(PeakCell(a, parts, v), Product(v.length), v.nbatch, 0);
    x, i := [], 0;
    if Earlier(c, k, Product(v.length), v.nbatch, 0) {
      x := Unrank(k, v.length);
      var p := CellParts(a, parts, v, c, k);
      i := PeakIsMet(p, |p|);
    }
  }
}
