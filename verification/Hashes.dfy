/**
 The buffer hashes of shared/fft_hash.h: sums modulo 2^64, by pieces, over all cells
 of a strided batch.
 */
module Hashes {
  import opened Arith
  import opened Layouts
  import opened Partitions
  import opened Spectra

  /** Sum of the hash contributions of the cells before (b, r). */
  ghost function HashTo(f: (nat, nat) -> nat, n: nat, b: nat, r: nat): nat
    decreases b, r
  {
    if r > 0 then HashTo(f, n, b, r - 1) + f(b, r - 1)
    else if b > 0 then HashTo(f, n, b - 1, n) else 0
  }

  /** What hash_value adds for one cell: a hash of its counter, of the largest counter and of its value. */
  ghost function HashAt<T>(input: seq<T>, part: T -> real, v: Shape, h: (nat, nat, real) -> nat, b: nat, x: seq<nat>): nat
    requires WellShaped(v) && Inside(v, |input|) && b < v.nbatch && InBox(x, v.length)
  {
    h(Counter(v, b, x), Times(Product(v.length), v.nbatch), part(input[Place(v, b, x)]))
  }

  ghost function HashCell<T>(input: seq<T>, part: T -> real, v: Shape, h: (nat, nat, real) -> nat): (nat, nat) -> nat
    requires WellShaped(v) && Inside(v, |input|)
  {
    (b: nat, r: nat) =>
      if b < v.nbatch && r < Product(v.length) then HashAt(input, part, v, h, b, Unrank(r, v.length)) else 0
  }

  /**
   compute_index with all strides 1, plus one: the sum of the index entries and the
   batch offset, so cells on one diagonal of a batch share it.
   */
  function Counter(v: Shape, b: nat, x: seq<nat>): nat {
    Total(x) + Times(b, v.dist) + 1
  }

  function Total(x: seq<nat>): nat {
    if x == [] then 0 else x[0] + Total(x[1..])
  }

  /** The hash of one part of all elements. */
  ghost function HashSum<T>(input: seq<T>, part: T -> real, v: Shape, h: (nat, nat, real) -> nat): nat
    requires WellShaped(v) && Inside(v, |input|)
  {
    HashTo(HashCell(input, part, v, h), Product(v.length), v.nbatch, 0) % TWO64
  }

  function Itself(): real -> real {
    (v: real) => v
  }

  function Re(): Complex -> real {
    (c: Complex) => c.re
  }

  function Im(): Complex -> real {
    (c: Complex) => c.im
  }

  /** `acc` is, modulo 2^64, the sum over the cells before (b, r). */
  ghost predicate Hashed<T>(input: seq<T>, part: T -> real, v: Shape, h: (nat, nat, real) -> nat, b: nat, r: nat, acc: nat)
    requires WellShaped(v) && Inside(v, |input|)
  {
    acc % TWO64 == HashTo(HashCell(input, part, v, h), Product(v.length), b, r) % TWO64
  }

  lemma HashCellAt<T>(input: seq<T>, part: T -> real, v: Shape, h: (nat, nat, real) -> nat, b: nat, x: seq<nat>)
    requires WellShaped(v) && Inside(v, |input|) && b < v.nbatch && InBox(x, v.length)
    ensures HashCell(input, part, v, h)(b, Rank(x, v.length)) == HashAt(input, part, v, h, b, x)
  {
    hide HashAt, Inside, Place;
    RankBound(x, v.length);
    RankInjective(x, Unrank(Rank(x, v.length), v.length), v.length);
  }

  lemma HashStep(f: (nat, nat) -> nat, n: nat, b: nat, r: nat, rest: nat, acc: nat)
    requires (rest + acc) % TWO64 == HashTo(f, n, b, r) % TWO64
    ensures (rest + (acc + f(b, r)) % TWO64) % TWO64 == HashTo(f, n, b, r + 1) % TWO64
  {
    AddModulo(rest, acc, f(b, r), HashTo(f, n, b, r));
  }

  lemma HashOne<T>(input: seq<T>, part: T -> real, v: Shape, h: (nat, nat, real) -> nat, b: nat, x: seq<nat>, rest: nat, acc: nat)
    requires WellShaped(v) && Inside(v, |input|) && b < v.nbatch && InBox(x, v.length)
    requires Hashed(input, part, v, h, b, Rank(x, v.length), rest + acc)
    ensures Hashed(input, part, v, h, b, Rank(x, v.length) + 1, rest + (acc + HashAt(input, part, v, h, b, x)) % TWO64)
  {
    hide HashTo, HashCell, HashAt, Inside, Rank, Product;
    HashCellAt(input, part, v, h, b, x);
    HashStep(HashCell(input, part, v, h), Product(v.length), b, Rank(x, v.length), rest, acc);
  }

  lemma AddModulo(rest: nat, acc: nat, add: nat, sum: nat)
    requires (rest + acc) % TWO64 == sum % TWO64
    ensures (rest + (acc + add) % TWO64) % TWO64 == (sum + add) % TWO64
  {
    SameRemainder(rest + (acc + add) % TWO64, rest + acc + add, -((acc + add) / TWO64));
    SameRemainder(rest + acc + add, sum + add, (rest + acc) / TWO64 - sum / TWO64);
  }

  lemma SameRemainder(a: int, b: int, k: int)
    requires a == b + k * TWO64
    ensures a % TWO64 == b % TWO64
  {
  }

  method HashOneCell<T>(input: seq<T>, part: T -> real, v: Shape, h: (nat, nat, real) -> nat, maxCounter: nat,
                     b: nat, base: nat, x: seq<nat>, acc0: nat, ghost rest: nat)
    returns (acc: nat)
    requires WellShaped(v) && Inside(v, |input|) && b < v.nbatch && InBox(x, v.length)
    requires base == Times(b, v.dist) && maxCounter == Times(Product(v.length), v.nbatch)
    requires Hashed(input, part, v, h, b, Rank(x, v.length), rest + acc0)
    ensures Hashed(input, part, v, h, b, Rank(x, v.length) + 1, rest + acc)
  {
    hide Hashed;
    assert Place(v, b, x) == Dot(x, v.stride) + base + v.offset;
    var i := Dot(x, v.stride) + base + v.offset;
    var counter := Total(x) + base + 1;
    HashOne(input, part, v, h, b, x, rest, acc0);
    acc := (acc0 + h(counter, maxCounter, part(input[i]))) % TWO64;
  }

  /** One piece of one batch: the do-while loop of compute_real_buffer_hash. */
  method HashPiece<T>(input: seq<T>, part: T -> real, v: Shape, h: (nat, nat, real) -> nat, maxCounter: nat,
                   b: nat, s: nat, e: nat, base: nat, acc0: nat, ghost rest: nat)
    returns (acc: nat)
    requires WellShaped(v) && Inside(v, |input|) && b < v.nbatch && s < e <= v.length[0]
    requires base == Times(b, v.dist) && maxCounter == Times(Product(v.length), v.nbatch)
    requires Hashed(input, part, v, h, b, Rows(s, v.length), rest + acc0)
    ensures Hashed(input, part, v, h, b, Rows(e, v.length), rest + acc)
  {
    hide Hashed, Rank, Times;
    var index := StartIndex(s, e, v.length);
    acc := acc0;
    var more := true;
    while more
      invariant InBox(index[..], CutAt(e, v.length))
      invariant Hashed(input, part, v, h, b, if more then Rank(index[..], v.length) else Rows(e, v.length), rest + acc)
      decreases more, Rows(e, v.length) - Rank(index[..], v.length)
    {
      CutRank(e, v.length, index[..]);
      acc := HashOneCell(input, part, v, h, maxCounter, b, base, index[..], acc, rest);
      more := NextIndex(index, e, v.length);
    }
  }

  lemma {:induction false} TotalOfUpdate(x: seq<nat>, i: nat, e: nat)
    requires i < |x|
    ensures Total(x[i := e]) + x[i] == Total(x) + e
  {
    if i > 0 {
      assert x[i := e][1..] == x[1..][i - 1 := e];
      TotalOfUpdate(x[1..], i - 1, e);
    } else {
      assert x[0 := e][1..] == x[1..];
    }
  }

  /** The loop over the pieces of one batch, each with its own accumulator. */
  method HashBatch<T>(input: seq<T>, part: T -> real, v: Shape, h: (nat, nat, real) -> nat, maxCounter: nat,
                      pieces: seq<Piece>, b: nat, base: nat, hashes0: seq<nat>)
    returns (hashes: seq<nat>)
    requires WellShaped(v) && Inside(v, |input|) && b < v.nbatch && Tiles(pieces, v.length[0])
    requires base == Times(b, v.dist) && maxCounter == Times(Product(v.length), v.nbatch)
    requires |hashes0| == |pieces| && Hashed(input, part, v, h, b, 0, Total(hashes0))
    ensures |hashes| == |pieces| && Hashed(input, part, v, h, b, Product(v.length), Total(hashes))
  {
    assert Rows(0, v.length) == 0 && Rows(v.length[0], v.length) == Product(v.length);
    hide Hashed, Total, Times, Rows, Product;
    hashes := hashes0;
    for k := 0 to |pieces|
      invariant |hashes| == |pieces|
      invariant Hashed(input, part, v, h, b, Rows(if k < |pieces| then pieces[k].0 else v.length[0], v.length), Total(hashes))
    {
      ghost var rest := Total(hashes[k := 0]);
      TotalOfUpdate(hashes, k, 0);
      var acc := HashPiece(input, part, v, h, maxCounter, b, pieces[k].0, pieces[k].1, base, hashes[k], rest);
      TotalOfUpdate(hashes, k, acc);
      hashes := hashes[k := acc];
    }
  }

  /** The loops over batches and pieces that all hashes share, for one part of the elements. */
  method HashPart<T>(input: seq<T>, part: T -> real, v: Shape, h: (nat, nat, real) -> nat, pieceCount: nat) returns (hash: nat)
    requires WellShaped(v) && Inside(v, |input|) && pieceCount > 0
    ensures hash == HashSum(input, part, v, h)
  {
    var pieces := PartitionBase(v.length[0], pieceCount);
    var maxCounter := Times(Product(v.length), v.nbatch);
    var hashes := Zeros(|pieces|);
    TotalOfZeros(|pieces|);
    var base := 0;
    hide Inside, Product, Total;
    for b := 0 to v.nbatch
      invariant base == Times(b, v.dist) && |hashes| == |pieces|
      invariant Hashed(input, part, v, h, b, 0, Total(hashes))
    {
      hashes := HashBatch(input, part, v, h, maxCounter, pieces, b, base, hashes);
      TimesStep(b, v.dist);
      base := base + v.dist;
    }
    hash := Total(hashes) % TWO64;
  }

  /** compute_real_buffer_hash. */
  method HashReal(input: seq<real>, v: Shape, h: (nat, nat, real) -> nat, pieceCount: nat) returns (re: nat, im: nat)
    requires WellShaped(v) && Inside(v, |input|) && pieceCount > 0
    ensures re == HashSum(input, Itself(), v, h) && im == 0
  {
    re := HashPart(input, Itself(), v, h, pieceCount);
    im := 0;
  }

  /** compute_planar_buffer_hash. */
  method HashPlanar(ire: seq<real>, iim: seq<real>, v: Shape, h: (nat, nat, real) -> nat, pieceCount: nat)
    returns (re: nat, im: nat)
    requires WellShaped(v) && Inside(v, |ire|) && Inside(v, |iim|) && pieceCount > 0
    ensures re == HashSum(ire, Itself(), v, h) && im == HashSum(iim, Itself(), v, h)
  {
    re := HashPart(ire, Itself(), v, h, pieceCount);
    im := HashPart(iim, Itself(), v, h, pieceCount);
  }

  /** compute_interleaved_buffer_hash. */
  method HashInterleaved(input: seq<Complex>, v: Shape, h: (nat, nat, real) -> nat, pieceCount: nat)
    returns (re: nat, im: nat)
    requires WellShaped(v) && Inside(v, |input|) && pieceCount > 0
    ensures re == HashSum(input, Re(), v, h) && im == HashSum(input, Im(), v, h)
  {
    re := HashPart(input, Re(), v, h, pieceCount);
    im := HashPart(input, Im(), v, h, pieceCount);
  }

  /** The parts agree on every cell. */
  ghost predicate SamePart<S, T>(a: seq<S>, p: S -> real, b: seq<T>, q: T -> real, v: Shape)
    requires WellShaped(v) && Inside(v, |a|) && Inside(v, |b|)
  {
    forall c: nat, x :: c < v.nbatch && InBox(x, v.length) ==> p(a[Place(v, c, x)]) == q(b[Place(v, c, x)])
  }

  lemma {:induction false} SameCells(f: (nat, nat) -> nat, g: (nat, nat) -> nat, n: nat, b: nat, r: nat)
    requires forall c: nat, k: nat :: f(c, k) == g(c, k)
    ensures HashTo(f, n, b, r) == HashTo(g, n, b, r)
    decreases b, r
  {
    if r > 0 {
      SameCells(f, g, n, b, r - 1);
    } else if b > 0 {
      SameCells(f, g, n, b - 1, n);
    }
  }

  /** Buffers with the same contents have the same hash, however they store them: planar and interleaved agree. */
  lemma SameContentsSameHash<S, T>(a: seq<S>, p: S -> real, b: seq<T>, q: T -> real, v: Shape, h: (nat, nat, real) -> nat)
    requires WellShaped(v) && Inside(v, |a|) && Inside(v, |b|) && SamePart(a, p, b, q, v)
    ensures HashSum(a, p, v, h) == HashSum(b, q, v, h)
  {
    SameCells(HashCell(a, p, v, h), HashCell(b, q, v, h), Product(v.length), v.nbatch, 0);
  }

  lemma {:induction false} TotalOfZeros(n: nat)
    ensures Total(Zeros(n)) == 0
  {
    if n > 0 {
      assert Zeros(n)[1..] == Zeros(n - 1);
      TotalOfZeros(n - 1);
    }
  }
}
