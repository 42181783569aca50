/**
 partition_colmajor of shared/fft_params.h, walked with the row-major odometer of
 shared/increment.h as the complex distance does: which cells each piece visits.
 */
module ColumnPartitions {
  import opened Arith
  import opened Layouts
  import opened Odometer
  import opened Partitions

  /** The whole length with the rightmost axis cut at `e`. */
  function CutLast(e: nat, length: seq<nat>): (r: seq<nat>)
    requires length != []
    ensures |r| == |length|
  {
    length[..|length| - 1] + [e]
  }

  function Leading(v: seq<nat>): seq<nat>
    requires v != []
  {
    v[..|v| - 1]
  }

  lemma {:induction false} RankSnoc(x: seq<nat>, l: seq<nat>, a: nat, m: nat)
    requires |x| == |l|
    ensures Rank(x + [a], l + [m]) == Rank(x, l) * m + a
  {
    if x == [] {
      assert ([a])[1..] == [] && ([m])[1..] == [];
      assert x + [a] == [a] && l + [m] == [m];
    } else {
      RankSnoc(x[1..], l[1..], a, m);
      assert (x + [a])[1..] == x[1..] + [a] && (l + [m])[1..] == l[1..] + [m];
      ProductSnoc(l[1..] + [m]);
      assert (l[1..] + [m])[..|l| - 1] == l[1..];
      CarryOut(x[0], Product(l[1..]), m, Rank(x[1..], l[1..]));
    }
  }

  lemma CarryOut(x: nat, p: nat, m: nat, r: nat)
    ensures x * (m * p) + r * m == (x * p + r) * m
  {
  }

  /** The cells of `l` of rank `s` on, in order. */
  ghost predicate Listed(visited: seq<seq<nat>>, s: nat, l: seq<nat>) {
    s + |visited| <= Product(l) &&
    forall r :: 0 <= r < |visited| ==> visited[r] == Unrank(s + r, l)
  }

  lemma ListOne(visited: seq<seq<nat>>, s: nat, l: seq<nat>, x: seq<nat>)
    requires Listed(visited, s, l) && InBox(x, l) && Rank(x, l) == s + |visited|
    ensures Listed(visited + [x], s, l)
  {
    hide Rank, Product, Unrank;
    RankBound(x, l);
    RankInjective(x, Unrank(Rank(x, l), l), l);
  }

  /** The do-while walk over the piece from `s` to `e` of the rightmost axis. */
  method WalkPiece(length: seq<nat>, s: nat, e: nat) returns (visited: seq<seq<nat>>)
    requires length != [] && s < e && AllPositive(length)
    ensures s + |visited| == Product(CutLast(e, length)) && Listed(visited, s, CutLast(e, length))
  {
    var l, n := CutLast(e, length), |length|;
    var index := new nat[n](_ => 0);
    index[n - 1] := s;
    assert index[..] == Zeros(n - 1) + [s];
    RankSnoc(Zeros(n - 1), Leading(length), s, e);
    RankZeros(Leading(length));
    RankBound(index[..], l);
    visited := [];
    var more := true;
    hide CutLast, Rank, Product, Listed;
    while more
      invariant Listed(visited, s, l)
      invariant more ==> InBox(index[..], l) && Rank(index[..], l) == s + |visited|
      invariant !more ==> s + |visited| == Product(l)
      decreases Product(l) - |visited|, more
    {
      RankBound(index[..], l);
      ListOne(visited, s, l, index[..]);
      visited := visited + [index[..]];
      more := IncrementTuple(index, l);
    }
  }

  /** The walk over the piece reaches `x`. */
  ghost predicate Visits(p: Piece, x: seq<nat>, length: seq<nat>)
    requires length != []
  {
    InBox(x, CutLast(p.1, length)) && Rank(x, CutLast(p.1, length)) >= p.0
  }

  /** One walk reaches exactly these cells, each once. */
  lemma WalkVisits(visited: seq<seq<nat>>, p: Piece, length: seq<nat>, x: seq<nat>)
    requires length != [] && p.0 + |visited| == Product(CutLast(p.1, length))
    requires Listed(visited, p.0, CutLast(p.1, length))
    ensures x in visited <==> Visits(p, x, length)
    ensures forall i, j :: 0 <= i < j < |visited| ==> visited[i] != visited[j]
  {
    var l := CutLast(p.1, length);
    if Visits(p, x, length) {
      RankBound(x, l);
      RankInjective(x, Unrank(Rank(x, l), l), l);
      assert visited[Rank(x, l) - p.0] == x;
    }
    forall i, j | 0 <= i < j < |visited| ensures visited[i] != visited[j] {
      assert Rank(visited[i], l) == p.0 + i && Rank(visited[j], l) == p.0 + j;
    }
  }

  /** Once past the first row, a walk restarts every row at 0. */
  lemma VisitsWhen(p: Piece, x: seq<nat>, length: seq<nat>)
    requires length != [] && InBox(x, length) && p.0 < p.1
    ensures Visits(p, x, length) <==>
            x[|x| - 1] < p.1 && (p.0 <= x[|x| - 1] || Rank(Leading(x), Leading(length)) > 0)
  {
    var n := |length| - 1;
    var lead := Rank(Leading(x), Leading(length));
    assert x == Leading(x) + [x[n]];
    RankSnoc(Leading(x), Leading(length), x[n], p.1);
    if lead > 0 {
      MulMono(1, lead, p.1);
    }
    assert InBox(x, CutLast(p.1, length)) <==> x[n] < p.1;
  }

  lemma {:induction false} TilesInOrder(pieces: seq<Piece>, length: nat, i: nat, j: nat)
    requires Tiles(pieces, length) && i < j < |pieces|
    ensures pieces[i].1 <= pieces[j].0
    decreases j
  {
    if i + 1 < j {
      TilesInOrder(pieces, length, i, j - 1);
    }
  }

  lemma {:induction false} TileOf(pieces: seq<Piece>, length: nat, e: nat, k: nat) returns (i: nat)
    requires Tiles(pieces, length) && k < |pieces| && e < pieces[k].1
    ensures i <= k && pieces[i].0 <= e < pieces[i].1
  {
    if pieces[k].0 <= e {
      i := k;
    } else {
      i := TileOf(pieces, length, e, k - 1);
    }
  }

  /** No cell is missed. */
  lemma EveryCellIsVisited(pieces: seq<Piece>, length: seq<nat>, x: seq<nat>) returns (i: nat)
    requires length != [] && InBox(x, length) && Tiles(pieces, length[|length| - 1])
    ensures i < |pieces| && Visits(pieces[i], x, length)
  {
    i := TileOf(pieces, length[|length| - 1], x[|x| - 1], |pieces| - 1);
    VisitsWhen(pieces[i], x, length);
  }

  /** Two pieces visit a cell. */
  ghost predicate Repeated(pieces: seq<Piece>, length: seq<nat>, x: seq<nat>, i: nat, j: nat)
    requires length != []
  {
    i < j < |pieces| && InBox(x, length) && Visits(pieces[i], x, length) && Visits(pieces[j], x, length)
  }

  /** The pieces visit some cell twice exactly when there are several pieces and several rows. */
  lemma CellsAreRepeated(pieces: seq<Piece>, length: seq<nat>)
    requires length != [] && Tiles(pieces, length[|length| - 1]) && AllPositive(length)
    ensures (exists x, i: nat, j: nat :: Repeated(pieces, length, x, i, j)) <==> |pieces| > 1 && Product(Leading(length)) > 1
  {
    var n := |length| - 1;
    if |pieces| > 1 && Product(Leading(length)) > 1 {
      var lead := Unrank(1, Leading(length));
      var x := lead + [0];
      assert Leading(x) == lead && InBox(x, length);
      VisitsWhen(pieces[0], x, length);
      VisitsWhen(pieces[1], x, length);
      assert Repeated(pieces, length, x, 0, 1);
    }
    if x, i: nat, j: nat :| Repeated(pieces, length, x, i, j) {
      VisitsWhen(pieces[i], x, length);
      VisitsWhen(pieces[j], x, length);
      TilesInOrder(pieces, length[n], i, j);
      assert InBox(Leading(x), Leading(length));
      RankBound(Leading(x), Leading(length));
    }
  }

  // --------------------------------------------------- accumulated values

  /** Sum of `g` over the ranks from `a` up to `b`. */
  ghost function RangeSum(g: nat -> real, a: nat, b: nat): real
    decreases b
  {
    if b <= a then 0.0 else RangeSum(g, a, b - 1) + g(b - 1)
  }

  /** Largest of 0 and the values of `g` over these ranks. */
  ghost function RangeMax(g: nat -> real, a: nat, b: nat): real
    decreases b
  {
    if b <= a then 0.0 else Max(RangeMax(g, a, b - 1), g(b - 1))
  }

  /** The value of the cell of rank `r`. */
  ghost function CellValue(f: seq<nat> -> real, l: seq<nat>): nat -> real {
    (r: nat) => if r < Product(l) then f(Unrank(r, l)) else 0.0
  }

  /** What a walk over one piece accumulates: the cells of the cut box from the piece's start on. */
  ghost function PieceSum(f: seq<nat> -> real, length: seq<nat>, p: Piece): real
    requires length != []
  {
    RangeSum(CellValue(f, CutLast(p.1, length)), p.0, Product(CutLast(p.1, length)))
  }

  ghost function PieceMax(f: seq<nat> -> real, length: seq<nat>, p: Piece): real
    requires length != []
  {
    RangeMax(CellValue(f, CutLast(p.1, length)), p.0, Product(CutLast(p.1, length)))
  }

  /** The pieces' sums added up, and the largest of their maxima. */
  ghost function WalkSum(f: seq<nat> -> real, length: seq<nat>, pieces: seq<Piece>, n: nat): real
    requires length != [] && n <= |pieces|
  {
    if n == 0 then 0.0 else WalkSum(f, length, pieces, n - 1) + PieceSum(f, length, pieces[n - 1])
  }

  ghost function WalkMax(f: seq<nat> -> real, length: seq<nat>, pieces: seq<Piece>, n: nat): real
    requires length != [] && n <= |pieces|
  {
    if n == 0 then 0.0 else Max(WalkMax(f, length, pieces, n - 1), PieceMax(f, length, pieces[n - 1]))
  }

  ghost function BoxSum(f: seq<nat> -> real, length: seq<nat>): real {
    RangeSum(CellValue(f, length), 0, Product(length))
  }

  ghost function BoxMax(f: seq<nat> -> real, length: seq<nat>): real {
    RangeMax(CellValue(f, length), 0, Product(length))
  }

  // Maxima.

  lemma {:induction false} RangeMaxBounds(g: nat -> real, a: nat, b: nat, r: nat)
    requires a <= r < b
    ensures g(r) <= RangeMax(g, a, b)
    decreases b
  {
    if r < b - 1 {
      RangeMaxBounds(g, a, b - 1, r);
    }
  }

  lemma {:induction false} RangeMaxAtMost(g: nat -> real, a: nat, b: nat, m: real)
    requires 0.0 <= m && forall r: nat :: a <= r < b ==> g(r) <= m
    ensures 0.0 <= RangeMax(g, a, b) <= m
    decreases b
  {
    if a < b {
      RangeMaxAtMost(g, a, b - 1, m);
    }
  }

  lemma {:induction false} WalkMaxBounds(f: seq<nat> -> real, length: seq<nat>, pieces: seq<Piece>, n: nat, i: nat)
    requires length != [] && i < n <= |pieces|
    ensures PieceMax(f, length, pieces[i]) <= WalkMax(f, length, pieces, n)
  {
    if i < n - 1 {
      WalkMaxBounds(f, length, pieces, n - 1, i);
    }
  }

  lemma {:induction false} WalkMaxAtMost(f: seq<nat> -> real, length: seq<nat>, pieces: seq<Piece>, n: nat, m: real)
    requires length != [] && n <= |pieces| && 0.0 <= m
    requires forall i :: 0 <= i < n ==> PieceMax(f, length, pieces[i]) <= m
    ensures 0.0 <= WalkMax(f, length, pieces, n) <= m
  {
    if n > 0 {
      WalkMaxAtMost(f, length, pieces, n - 1, m);
    }
  }

  /** A cell of the cut box is one of the box. */
  lemma CutCell(f: seq<nat> -> real, length: seq<nat>, e: nat, r: nat)
    requires length != [] && e <= length[|length| - 1] && r < Product(CutLast(e, length))
    ensures var x := Unrank(r, CutLast(e, length));
            InBox(x, length) && Rank(x, length) < Product(length) && CellValue(f, length)(Rank(x, length)) == f(x)
  {
    var x := Unrank(r, CutLast(e, length));
    forall k | 0 <= k < |length| ensures x[k] < length[k] {
      assert x[k] < CutLast(e, length)[k];
    }
    RankBound(x, length);
    RankInjective(x, Unrank(Rank(x, length), length), length);
  }

  lemma PieceMaxAtMost(f: seq<nat> -> real, length: seq<nat>, p: Piece)
    requires length != [] && p.1 <= length[|length| - 1]
    ensures PieceMax(f, length, p) <= BoxMax(f, length)
  {
    var l, g, m := CutLast(p.1, length), CellValue(f, CutLast(p.1, length)), BoxMax(f, length);
    RangeMaxNonNegative(CellValue(f, length), 0, Product(length));
    forall r: nat | p.0 <= r < Product(l) ensures g(r) <= m {
      CutCell(f, length, p.1, r);
      RangeMaxBounds(CellValue(f, length), 0, Product(length), Rank(Unrank(r, l), length));
    }
    RangeMaxAtMost(g, p.0, Product(l), m);
  }

  lemma {:induction false} RangeMaxNonNegative(g: nat -> real, a: nat, b: nat)
    ensures RangeMax(g, a, b) >= 0.0
    decreases b
  {
    if a < b {
      RangeMaxNonNegative(g, a, b - 1);
    }
  }

  lemma BoxCellIsWalked(f: seq<nat> -> real, length: seq<nat>, pieces: seq<Piece>, r: nat)
    requires length != [] && Tiles(pieces, length[|length| - 1]) && r < Product(length)
    ensures CellValue(f, length)(r) <= WalkMax(f, length, pieces, |pieces|)
  {
    var x := Unrank(r, length);
    var i := EveryCellIsVisited(pieces, length, x);
    var l := CutLast(pieces[i].1, length);
    RankBound(x, l);
    RankInjective(x, Unrank(Rank(x, l), l), l);
    RangeMaxBounds(CellValue(f, l), pieces[i].0, Product(l), Rank(x, l));
    WalkMaxBounds(f, length, pieces, |pieces|, i);
  }

  /** Maxima over the pieces are exact, for any values. */
  lemma WalkMaxIsExact(f: seq<nat> -> real, length: seq<nat>, pieces: seq<Piece>)
    requires length != [] && Tiles(pieces, length[|length| - 1])
    ensures WalkMax(f, length, pieces, |pieces|) == BoxMax(f, length)
  {
    var n, m := |pieces|, WalkMax(f, length, pieces, |pieces|);
    RangeMaxNonNegative(CellValue(f, length), 0, Product(length));
    forall i | 0 <= i < n ensures PieceMax(f, length, pieces[i]) <= BoxMax(f, length) {
      PieceMaxAtMost(f, length, pieces[i]);
    }
    WalkMaxAtMost(f, length, pieces, n, BoxMax(f, length));
    forall r: nat | 0 <= r < Product(length) ensures CellValue(f, length)(r) <= m {
      BoxCellIsWalked(f, length, pieces, r);
    }
    RangeMaxAtMost(CellValue(f, length), 0, Product(length), m);
  }

  // Sums.

  lemma {:induction false} RangeSumSplit(g: nat -> real, a: nat, c: nat, b: nat)
    requires a <= c <= b
    ensures RangeSum(g, a, b) == RangeSum(g, a, c) + RangeSum(g, c, b)
    decreases b
  {
    if c < b {
      RangeSumSplit(g, a, c, b - 1);
    }
  }

  lemma {:induction false} RangeSumsAgree(g: nat -> real, h: nat -> real, a: nat, b: nat)
    requires forall r: nat :: a <= r < b ==> g(r) == h(r)
    ensures RangeSum(g, a, b) == RangeSum(h, a, b)
    decreases b
  {
    if a < b {
      RangeSumsAgree(g, h, a, b - 1);
    }
  }

  /** With one row, the rank is the last entry. */
  lemma OnlyRow(x: seq<nat>, lead: seq<nat>, m: nat)
    requires |x| == |lead| + 1 && InBox(Leading(x), lead) && Product(lead) == 1
    ensures Rank(x, lead + [m]) == x[|lead|]
  {
    hide Rank, Product, InBox;
    assert x == Leading(x) + [x[|lead|]];
    RankBound(Leading(x), lead);
    RankSnoc(Leading(x), lead, x[|lead|], m);
  }

  lemma OneRowCell(f: seq<nat> -> real, length: seq<nat>, e: nat, r: nat)
    requires length != [] && Product(Leading(length)) == 1
    requires e <= length[|length| - 1] && r < Product(CutLast(e, length))
    ensures CellValue(f, CutLast(e, length))(r) == CellValue(f, length)(r)
  {
    hide Rank, Product, Unrank;
    var n, x := |length| - 1, Unrank(r, CutLast(e, length));
    CutCell(f, length, e, r);
    assert length == Leading(length) + [length[n]];
    assert InBox(Leading(x), Leading(length));
    OnlyRow(x, Leading(length), e);
    OnlyRow(x, Leading(length), length[n]);
  }

  /** With one row, the cut boxes are the beginnings of the box. */
  lemma OneRow(f: seq<nat> -> real, length: seq<nat>, p: Piece)
    requires length != [] && Product(Leading(length)) == 1 && p.1 <= length[|length| - 1]
    ensures Product(CutLast(p.1, length)) == p.1
    ensures PieceSum(f, length, p) == RangeSum(CellValue(f, length), p.0, p.1)
  {
    hide CellValue, Unrank, Rank;
    var l := CutLast(p.1, length);
    ProductSnoc(l);
    assert l[..|l| - 1] == Leading(length);
    forall r: nat | p.0 <= r < p.1 ensures CellValue(f, l)(r) == CellValue(f, length)(r) {
      OneRowCell(f, length, p.1, r);
    }
    RangeSumsAgree(CellValue(f, l), CellValue(f, length), p.0, p.1);
  }

  lemma {:induction false} OneRowSum(f: seq<nat> -> real, length: seq<nat>, pieces: seq<Piece>, n: nat)
    requires Positive(length) && Product(Leading(length)) == 1
    requires Tiles(pieces, length[|length| - 1]) && 0 < n <= |pieces|
    ensures WalkSum(f, length, pieces, n) == RangeSum(CellValue(f, length), 0, pieces[n - 1].1)
  {
    OneRow(f, length, pieces[n - 1]);
    if n > 1 {
      OneRowSum(f, length, pieces, n - 1);
      assert pieces[n - 2].1 == pieces[n - 1].0;
      RangeSumSplit(CellValue(f, length), 0, pieces[n - 1].0, pieces[n - 1].1);
    } else {
      assert WalkSum(f, length, pieces, 0) == 0.0;
    }
  }

  /** 1 at `x` and 0 everywhere else. */
  ghost function Mark(x: seq<nat>): seq<nat> -> real {
    (y: seq<nat>) => if y == x then 1.0 else 0.0
  }

  lemma {:induction false} MarkedSum(g: nat -> real, a: nat, b: nat, k: nat)
    requires forall r: nat :: a <= r < b ==> g(r) == if r == k then 1.0 else 0.0
    ensures RangeSum(g, a, b) == if a <= k < b then 1.0 else 0.0
    decreases b
  {
    if a < b {
      MarkedSum(g, a, b - 1, k);
    }
  }

  lemma MarkedBox(x: seq<nat>, l: seq<nat>, a: nat)
    requires |x| == |l|
    ensures InBox(x, l) ==> RangeSum(CellValue(Mark(x), l), a, Product(l)) == if a <= Rank(x, l) then 1.0 else 0.0
    ensures RangeSum(CellValue(Mark(x), l), a, Product(l)) >= 0.0
  {
    var g := CellValue(Mark(x), l);
    if InBox(x, l) {
      RankBound(x, l);
      forall r: nat | a <= r < Product(l) ensures g(r) == if r == Rank(x, l) then 1.0 else 0.0 {
        if Unrank(r, l) != x && r == Rank(x, l) {
          RankInjective(x, Unrank(r, l), l);
        }
      }
      MarkedSum(g, a, Product(l), Rank(x, l));
    } else {
      RangeSumNonNegative(g, a, Product(l));
    }
  }

  lemma {:induction false} RangeSumNonNegative(g: nat -> real, a: nat, b: nat)
    requires forall r: nat :: a <= r < b ==> g(r) >= 0.0
    ensures RangeSum(g, a, b) >= 0.0
    decreases b
  {
    if a < b {
      RangeSumNonNegative(g, a, b - 1);
    }
  }

  /** A piece's walk counts the marked cell if it visits it. */
  lemma MarkedPiece(x: seq<nat>, length: seq<nat>, p: Piece)
    requires length != [] && |x| == |length|
    ensures PieceSum(Mark(x), length, p) >= 0.0
    ensures Visits(p, x, length) ==> PieceSum(Mark(x), length, p) == 1.0
  {
    MarkedBox(x, CutLast(p.1, length), p.0);
  }

  /** How many of two given pieces come before `n`. */
  lemma {:induction false} MarkedTwice(x: seq<nat>, length: seq<nat>, pieces: seq<Piece>, n: nat, i: nat, j: nat)
    requires length != [] && |x| == |length| && n <= |pieces| && i < j < |pieces|
    requires Visits(pieces[i], x, length) && Visits(pieces[j], x, length)
    ensures WalkSum(Mark(x), length, pieces, n) >= (if i < n then 1.0 else 0.0) + if j < n then 1.0 else 0.0
  {
    if n > 0 {
      MarkedTwice(x, length, pieces, n - 1, i, j);
      MarkedPiece(x, length, pieces[n - 1]);
    }
  }

  /** The sum over the pieces is right for all values. */
  ghost predicate SumsAreExact(length: seq<nat>, pieces: seq<Piece>)
    requires length != []
  {
    forall f: seq<nat> -> real :: WalkSum(f, length, pieces, |pieces|) == BoxSum(f, length)
  }

  /** Main result: sums over the pieces are exact, for all values, exactly for one piece or one row. */
  lemma SumsAreExactWhen(length: seq<nat>, pieces: seq<Piece>)
    requires Positive(length) && Tiles(pieces, length[|length| - 1])
    ensures SumsAreExact(length, pieces) <==> |pieces| == 1 || Product(Leading(length)) == 1
  {
    var n := |length| - 1;
    assert length == CutLast(length[n], length);
    CellsAreRepeated(pieces, length);
    if |pieces| == 1 {
      forall f: seq<nat> -> real ensures WalkSum(f, length, pieces, 1) == BoxSum(f, length) {
        assert WalkSum(f, length, pieces, 0) == 0.0;
      }
    } else if Product(Leading(length)) == 1 {
      OneRow(_ => 0.0, length, (0, length[n]));
      forall f: seq<nat> -> real ensures WalkSum(f, length, pieces, |pieces|) == BoxSum(f, length) {
        OneRowSum(f, length, pieces, |pieces|);
      }
    } else {
      LeadingPositive(length);
      var x, i: nat, j: nat :| Repeated(pieces, length, x, i, j);
      MarkedTwice(x, length, pieces, |pieces|, i, j);
      MarkedBox(x, length, 0);
      assert WalkSum(Mark(x), length, pieces, |pieces|) != BoxSum(Mark(x), length);
    }
  }

  lemma LeadingPositive(length: seq<nat>)
    requires Positive(length)
    ensures Product(Leading(length)) > 0
  {
    PositiveProduct(Leading(length));
  }
}
