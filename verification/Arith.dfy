/** Machine integers, and the nonlinear facts that the index arithmetic rests on. */
module Arith {

  const TWO31: nat := 0x8000_0000
  const TWO32: nat := 0x1_0000_0000
  const TWO64: nat := 0x1_0000_0000_0000_0000

  /** size_t arithmetic. */
  function Wrap(n: int): (r: nat)
    ensures r < TWO64 && (0 <= n < TWO64 ==> r == n)
  {
    n % TWO64
  }

  /** Conversion of a size_t to int. */
  function Narrow(n: nat): (r: int)
    ensures n < TWO31 ==> r == n
  {
    var m := n % TWO32;
    if m < TWO31 then m else m - TWO32
  }

  /** The larger of two reals. */
  function Max(a: real, b: real): real {
    if a < b then b else a
  }

  /**
   Multiplication as repeated addition, for index arithmetic that needs no more
   than equal factors giving equal products.
   */
  function Times(a: nat, b: nat): nat {
    if a == 0 then 0 else b + Times(a - 1, b)
  }

  lemma {:induction false} TimesIsProduct(a: nat, b: nat)
    ensures Times(a, b) == a * b
  {
    if a > 0 {
      TimesIsProduct(a - 1, b);
      assert a * b == (a - 1) * b + b;
    }
  }

  lemma MulMono(a: nat, b: nat, p: nat)
    requires a <= b
    ensures a * p <= b * p
  {
  }

  lemma MulStep(a: nat, b: nat, p: nat)
    requires a < b
    ensures a * p + p <= b * p
  {
    MulMono(a + 1, b, p);
  }

  lemma MulPositive(a: nat, b: nat)
    requires a > 0 && b > 0
    ensures a * b >= a && a * b >= b
  {
    MulMono(1, a, b);
    MulMono(1, b, a);
  }

  /** A quotient and remainder are unique. */
  lemma DigitsUnique(a: nat, u: nat, b: nat, v: nat, p: nat)
    requires u < p && v < p && a * p + u == b * p + v
    ensures a == b && u == v
  {
    if a < b {
      MulStep(a, b, p);
    } else if b < a {
      MulStep(b, a, p);
    }
  }

  /** Division of `a * p + u` by `p`, for a remainder `u`. */
  lemma DivModOf(a: nat, u: nat, p: nat)
    requires u < p
    ensures (a * p + u) / p == a && (a * p + u) % p == u
  {
    var n := a * p + u;
    DigitsUnique(a, u, n / p, n % p, p);
  }

  /** Multiplication cancels. */
  lemma MulCancel(a: nat, b: nat, p: nat)
    requires p > 0 && a * p == b * p
    ensures a == b
  {
    DigitsUnique(a, 0, b, 0, p);
  }

  /** The quotient and remainder of `r` in a box of `n` rows of `p`. */
  lemma DivModParts(r: nat, n: nat, p: nat)
    requires r < n * p
    ensures p > 0 && r / p < n && r % p < p && (r / p) * p + r % p == r
  {
    if p > 0 && r / p >= n {
      MulMono(n, r / p, p);
    }
  }

  function Quot(i: nat, a: nat): nat
    requires a > 0
  {
    i / a
  }

  function Rem(i: nat, a: nat): (r: nat)
    requires a > 0
    ensures r < a
  {
    i % a
  }

  lemma QuotRemParts(r: nat, n: nat, p: nat)
    requires r < n * p
    ensures p > 0 && Quot(r, p) < n && Quot(r, p) * p + Rem(r, p) == r
  {
    DivModParts(r, n, p);
  }

  lemma TimesStep(a: nat, b: nat)
    ensures Times(a + 1, b) == Times(a, b) + b
  {
  }

  lemma TimesMono(a: nat, b: nat, p: nat)
    requires a <= b
    ensures Times(a, p) <= Times(b, p)
  {
    TimesIsProduct(a, p);
    TimesIsProduct(b, p);
    MulMono(a, b, p);
  }

  lemma TimesBelow(a: nat, b: nat, p: nat)
    requires a < b
    ensures Times(a, p) + p <= Times(b, p)
  {
    TimesStep(a, p);
    TimesMono(a + 1, b, p);
  }

  /** As many pieces of the rounded-down size fit into the length. */
  lemma WholePieces(length: nat, count: nat)
    requires count > 0
    ensures Times(count, length / count) <= length && (count <= length ==> length / count >= 1)
  {
    assert length == (length / count) * count + length % count;
    TimesIsProduct(count, length / count);
  }
}
