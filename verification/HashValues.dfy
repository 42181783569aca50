/**
 What the buffer hash of a strided batch is in terms of its cells: which counter each
 one has, and how the hash changes with one value.
 */
module HashValues {
  import opened Arith
  import opened Layouts
  import opened Partitions
  import opened Spectra
  import opened Hashes
  import opened NormValues

  function Ones(n: nat): (s: seq<nat>)
    ensures |s| == n
  {
    seq(n, _ => 1)
  }

  lemma {:induction false} DotOnes(x: seq<nat>)
    ensures Dot(x, Ones(|x|)) == Total(x)
  {
    if x != [] {
      DotOnes(x[1..]);
      assert Ones(|x|)[1..] == Ones(|x[1..]|);
    }
  }

  /** The counter of a cell is one more than its offset under strides 1 in its batch. */
  lemma CounterOfCell(v: Shape, b: nat, x: seq<nat>)
    ensures Counter(v, b, x) == Dot(x, Ones(|x|)) + b * v.dist + 1
  {
    DotOnes(x);
    TimesIsProduct(b, v.dist);
  }

  /** Sums of two functions that differ at one cell only. */
  lemma {:induction false} HashToChanges(f: (nat, nat) -> nat, g: (nat, nat) -> nat, n: nat, b: nat, r: nat, c: nat, k: nat)
    requires forall c': nat, k': nat :: c' != c || k' != k ==> f(c', k') == g(c', k')
    ensures Earlier(c, k, n, b, r) ==> HashTo(g, n, b, r) + f(c, k) == HashTo(f, n, b, r) + g(c, k)
    ensures !Earlier(c, k, n, b, r) ==> HashTo(g, n, b, r) == HashTo(f, n, b, r)
    decreases b, r
  {
    if r > 0 {
      HashToChanges(f, g, n, b, r - 1, c, k);
    } else if b > 0 {
      HashToChanges(f, g, n, b - 1, n, c, k);
    }
  }

  lemma OtherHashesStay<T>(a: seq<T>, part: T -> real, v: Shape, h: (nat, nat, real) -> nat, c: nat, x: seq<nat>, w: T)
    requires WellShaped(v) && Inside(v, |a|) && Distinct(v) && Cell(v, c, x)
    ensures forall b: nat, r: nat :: b != c || r != Rank(x, v.length) ==>
      HashCell(a, part, v, h)(b, r) == HashCell(a[Place(v, c, x) := w], part, v, h)(b, r)
  {
    forall b: nat, r: nat | b != c || r != Rank(x, v.length)
      ensures HashCell(a, part, v, h)(b, r) == HashCell(a[Place(v, c, x) := w], part, v, h)(b, r)
    {
      if b < v.nbatch && r < Product(v.length) {
        assert Cell(v, b, Unrank(r, v.length));
      }
    }
  }

  lemma HashSumChanges<T>(a: seq<T>, part: T -> real, v: Shape, h: (nat, nat, real) -> nat, c: nat, x: seq<nat>, w: T)
    requires WellShaped(v) && Inside(v, |a|) && Distinct(v) && Cell(v, c, x)
    ensures var b := a[Place(v, c, x) := w];
      && (HashSum(b, part, v, h) + HashAt(a, part, v, h, c, x)) % TWO64
         == (HashSum(a, part, v, h) + HashAt(b, part, v, h, c, x)) % TWO64
  {
    var b := a[Place(v, c, x) := w];
    OtherHashesStay(a, part, v, h, c, x, w);
    HashCellAt(a, part, v, h, c, x);
    HashCellAt(b, part, v, h, c, x);
    RankBound(x, v.length);
    var f, g, n := HashCell(a, part, v, h), HashCell(b, part, v, h), Product(v.length);
    hide HashCell, HashTo, HashAt, Inside, Distinct, Place, Rank, Product;
    HashToChanges(f, g, n, v.nbatch, 0, c, Rank(x, v.length));
    SameSums(HashTo(g, n, v.nbatch, 0), f(c, Rank(x, v.length)), HashTo(f, n, v.nbatch, 0), g(c, Rank(x, v.length)));
  }

  /** What one value adds to the hash: its contribution under the cell's counter and the number of all cells. */
  lemma HashChanges<T>(a: seq<T>, part: T -> real, v: Shape, h: (nat, nat, real) -> nat, c: nat, x: seq<nat>, w: T)
    requires WellShaped(v) && Inside(v, |a|) && Distinct(v) && Cell(v, c, x)
    ensures var u, n, k := a[Place(v, c, x)], Product(v.length) * v.nbatch, Dot(x, Ones(|x|)) + c * v.dist + 1;
      && (HashSum(a[Place(v, c, x) := w], part, v, h) + h(k, n, part(u))) % TWO64
         == (HashSum(a, part, v, h) + h(k, n, part(w))) % TWO64
  {
    hide HashSum, Product, Dot, Counter, Place, Distinct;
    HashSumChanges(a, part, v, h, c, x, w);
    CounterOfCell(v, c, x);
    TimesIsProduct(Product(v.length), v.nbatch);
  }

  lemma SameSums(s: nat, p: nat, t: nat, q: nat)
    requires s + p == t + q
    ensures (s % TWO64 + p) % TWO64 == (t % TWO64 + q) % TWO64
  {
    SameRemainder(s % TWO64 + p, t % TWO64 + q, t / TWO64 - s / TWO64);
  }

  lemma {:induction false} HashOfNothing(f: (nat, nat) -> nat, n: nat, b: nat, r: nat)
    requires forall c: nat, k: nat :: f(c, k) == 0
    ensures HashTo(f, n, b, r) == 0
    decreases b, r
  {
    if r > 0 {
      HashOfNothing(f, n, b, r - 1);
    } else if b > 0 {
      HashOfNothing(f, n, b - 1, n);
    }
  }

  /** Cells that contribute nothing leave the hash at 0. */
  lemma NothingHashesToZero<T>(a: seq<T>, part: T -> real, v: Shape, h: (nat, nat, real) -> nat)
    requires WellShaped(v) && Inside(v, |a|)
    requires forall k: nat, n: nat, p :: 0 <= p < |a| ==> h(k, n, part(a[p])) == 0
    ensures HashSum(a, part, v, h) == 0
  {
    HashOfNothing(HashCell(a, part, v, h), Product(v.length), v.nbatch, 0);
  }

  /** A real value is hashed as it is. */
  lemma RealHashChanges(a: seq<real>, v: Shape, h: (nat, nat, real) -> nat, c: nat, x: seq<nat>, w: real)
    requires WellShaped(v) && Inside(v, |a|) && Distinct(v) && Cell(v, c, x)
    ensures var u, n, k := a[Place(v, c, x)], Product(v.length) * v.nbatch, Dot(x, Ones(|x|)) + c * v.dist + 1;
      && (HashSum(a[Place(v, c, x) := w], Itself(), v, h) + h(k, n, u)) % TWO64
         == (HashSum(a, Itself(), v, h) + h(k, n, w)) % TWO64
  {
    HashChanges(a, Itself(), v, h, c, x, w);
  }

  /** An interleaved buffer hashes like the planar pair with its real and imaginary parts. */
  lemma InterleavedHashesLikePlanar(a: seq<Complex>, re: seq<real>, im: seq<real>, v: Shape, h: (nat, nat, real) -> nat)
    requires WellShaped(v) && Inside(v, |a|) && Inside(v, |re|) && Inside(v, |im|)
    requires forall c: nat, x :: Cell(v, c, x) ==>
      a[Place(v, c, x)].re == re[Place(v, c, x)] && a[Place(v, c, x)].im == im[Place(v, c, x)]
    ensures HashSum(a, Re(), v, h) == HashSum(re, Itself(), v, h)
    ensures HashSum(a, Im(), v, h) == HashSum(im, Itself(), v, h)
  {
    forall c: nat, x | c < v.nbatch && InBox(x, v.length)
      ensures Re()(a[Place(v, c, x)]) == Itself()(re[Place(v, c, x)]) && Im()(a[Place(v, c, x)]) == Itself()(im[Place(v, c, x)])
    {
      assert Cell(v, c, x);
    }
    SameContentsSameHash(a, Re(), re, Itself(), v, h);
    SameContentsSameHash(a, Im(), im, Itself(), v, h);
  }
}
