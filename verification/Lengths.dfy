/**
 generate_lengths of shared/params_gen.h: all combinations of lengths, by walking
 the vector odometer of shared/increment.h, sorting, and erasing duplicates.
 */
module Lengths {
  import opened Arith
  import opened Layouts
  import opened Odometer

  // --------------------------------------------------- lexicographic order

  /** The order of std::vector. */
  predicate LexLess(a: seq<nat>, b: seq<nat>) {
    b != [] && (a == [] || a[0] < b[0] || (a[0] == b[0] && LexLess(a[1..], b[1..])))
  }

  predicate LexLeq(a: seq<nat>, b: seq<nat>) {
    a == b || LexLess(a, b)
  }

  lemma {:induction false} LexTotal(a: seq<nat>, b: seq<nat>)
    ensures a == b || LexLess(a, b) || LexLess(b, a)
    ensures !(LexLess(a, b) && LexLess(b, a))
    ensures !LexLess(a, a)
  {
    if a != [] && b != [] {
      LexTotal(a[1..], b[1..]);
      assert a == [a[0]] + a[1..] && b == [b[0]] + b[1..];
    }
    if a != [] {
      LexTotal(a[1..], a[1..]);
    }
  }

  lemma {:induction false} LexTransitive(a: seq<nat>, b: seq<nat>, c: seq<nat>)
    requires LexLess(a, b) && LexLess(b, c)
    ensures LexLess(a, c)
  {
    if a != [] && a[0] == b[0] == c[0] {
      LexTransitive(a[1..], b[1..], c[1..]);
    }
  }

  /** The odometer's order of a box is the lexicographic one. */
  lemma {:induction false} RankIsLexicographic(x: seq<nat>, y: seq<nat>, l: seq<nat>)
    requires InBox(x, l) && InBox(y, l)
    ensures Rank(x, l) < Rank(y, l) <==> LexLess(x, y)
  {
    if x != [] {
      var p := Product(l[1..]);
      RankBound(x[1..], l[1..]);
      RankBound(y[1..], l[1..]);
      RankIsLexicographic(x[1..], y[1..], l[1..]);
      if x[0] < y[0] {
        MulStep(x[0], y[0], p);
      } else if y[0] < x[0] {
        MulStep(y[0], x[0], p);
      }
    }
  }

  ghost predicate Ascending(v: seq<seq<nat>>) {
    forall i, j :: 0 <= i < j < |v| ==> LexLeq(v[i], v[j])
  }

  ghost predicate StrictlyAscending(v: seq<seq<nat>>) {
    forall i, j :: 0 <= i < j < |v| ==> LexLess(v[i], v[j])
  }

  // ----------------------------------------------------------- the odometer

  /**
   The vector odometer from zeros: it visits all of its box, once and in
   lexicographic order, and stops. Zero-length axes stay at 0.
   */
  method Walk(length: seq<nat>) returns (visited: seq<seq<nat>>)
    ensures |visited| == Product(Pin(length))
    ensures forall r :: 0 <= r < |visited| ==> visited[r] == Unrank(r, Pin(length))
  {
    var l := Pin(length);
    PinProductPositive(length);
    var index := new nat[|length|](_ => 0);
    assert index[..] == Zeros(|l|);
    RankZeros(l);
    visited := [];
    var more := true;
    while more
      invariant more ==> InBox(index[..], l) && Rank(index[..], l) == |visited| < Product(l)
      invariant !more ==> |visited| == Product(l)
      invariant |visited| <= Product(l)
      invariant forall r :: 0 <= r < |visited| ==> visited[r] == Unrank(r, l)
      decreases Product(l) - |visited|, more
    {
      RankInjective(index[..], Unrank(|visited|, l), l);
      visited := visited + [index[..]];
      more := IncrementVector(index, length);
    }
  }

  /** Every multi-index of the box is visited at its rank, hence exactly once. */
  lemma WalkVisitsOnce(visited: seq<seq<nat>>, l: seq<nat>)
    requires |visited| == Product(l) && forall r :: 0 <= r < |visited| ==> visited[r] == Unrank(r, l)
    ensures forall x :: InBox(x, l) <==> x in visited
    ensures StrictlyAscending(visited)
  {
    forall x | InBox(x, l) ensures x in visited {
      RankBound(x, l);
      RankInjective(x, Unrank(Rank(x, l), l), l);
      assert visited[Rank(x, l)] == x;
    }
    forall i, j | 0 <= i < j < |visited| ensures LexLess(visited[i], visited[j]) {
      RankIsLexicographic(visited[i], visited[j], l);
    }
  }

  // ------------------------------------------------------------ combinations

  function Sizes(lists: seq<seq<nat>>): (r: seq<nat>)
    ensures |r| == |lists|
  {
    seq(|lists|, k requires 0 <= k < |lists| => |lists[k]|)
  }

  /** One entry of each list. */
  function Pick(lists: seq<seq<nat>>, index: seq<nat>): (v: seq<nat>)
    requires InBox(index, Sizes(lists))
    ensures |v| == |lists|
  {
    seq(|lists|, k requires 0 <= k < |lists| => EntryAt(lists, index, k))
  }

  function EntryAt(lists: seq<seq<nat>>, index: seq<nat>, k: nat): nat
    requires InBox(index, Sizes(lists)) && k < |lists|
  {
    assert index[k] < Sizes(lists)[k];
    lists[k][index[k]]
  }

  /** `v` is a member of the Cartesian product of the lists. */
  ghost predicate Combines(v: seq<nat>, lists: seq<seq<nat>>) {
    |v| == |lists| && forall k :: 0 <= k < |lists| ==> v[k] in lists[k]
  }

  ghost predicate NonEmpty(lists: seq<seq<nat>>) {
    forall k :: 0 <= k < |lists| ==> lists[k] != []
  }

  lemma PickCombines(lists: seq<seq<nat>>, index: seq<nat>)
    requires InBox(index, Sizes(lists))
    ensures Combines(Pick(lists, index), lists)
  {
  }

  lemma EveryCombinationIsPicked(v: seq<nat>, lists: seq<seq<nat>>) returns (index: seq<nat>)
    requires Combines(v, lists)
    ensures InBox(index, Sizes(lists)) && Pick(lists, index) == v
  {
    index := [];
    for k := 0 to |lists|
      invariant |index| == k
      invariant forall i :: 0 <= i < k ==> index[i] < |lists[i]| && lists[i][index[i]] == v[i]
    {
      var e: nat :| e < |lists[k]| && lists[k][e] == v[k];
      index := index + [e];
    }
  }

  /** The combinations in the order of the odometer. */
  ghost function Combinations(lists: seq<seq<nat>>): (r: seq<seq<nat>>)
    ensures |r| == Product(Sizes(lists))
  {
    seq(Product(Sizes(lists)), r requires 0 <= r < Product(Sizes(lists)) => Pick(lists, Unrank(r, Sizes(lists))))
  }

  lemma CombinationsAreAll(lists: seq<seq<nat>>, v: seq<nat>)
    ensures v in Combinations(lists) <==> Combines(v, lists)
  {
    if v in Combinations(lists) {
      var r :| 0 <= r < |Combinations(lists)| && Combinations(lists)[r] == v;
      PickCombines(lists, Unrank(r, Sizes(lists)));
    }
    if Combines(v, lists) {
      var index := EveryCombinationIsPicked(v, lists);
      RankBound(index, Sizes(lists));
      RankInjective(index, Unrank(Rank(index, Sizes(lists)), Sizes(lists)), Sizes(lists));
      assert Combinations(lists)[Rank(index, Sizes(lists))] == v;
    }
  }

  lemma NextCombination(lists: seq<seq<nat>>, index: seq<nat>, n: nat)
    requires InBox(index, Sizes(lists)) && Rank(index, Sizes(lists)) == n
    ensures n < |Combinations(lists)| && Combinations(lists)[..n + 1] == Combinations(lists)[..n] + [Pick(lists, index)]
  {
    RankBound(index, Sizes(lists));
    RankInjective(index, Unrank(n, Sizes(lists)), Sizes(lists));
  }

  /** The do-while loop that appends every combination to the output. */
  method AppendCombinations(lists: seq<seq<nat>>, output0: seq<seq<nat>>) returns (output: seq<seq<nat>>)
    requires NonEmpty(lists)
    ensures output == output0 + Combinations(lists)
  {
    var dim := |lists|;
    var l := Sizes(lists);
    assert Pin(l) == l;
    PinProductPositive(l);
    var index := new nat[dim](_ => 0);
    assert index[..] == Zeros(dim);
    RankZeros(l);
    output := output0;
    ghost var n: nat := 0;
    var more := true;
    hide Combinations, Rank, Product, Pick;
    while more
      invariant n <= Product(l)
      invariant more ==> InBox(index[..], l) && Rank(index[..], l) == n < Product(l)
      invariant !more ==> n == Product(l)
      invariant output == output0 + Combinations(lists)[..n]
      decreases Product(l) - n, more
    {
      NextCombination(lists, index[..], n);
      var length := Pick(lists, index[..]);
      output := output + [length];
      more := IncrementVector(index, l);
      n := n + 1;
    }
  }

  // --------------------------------------------------------- sort and unique

  lemma LexLeqTransitive(a: seq<nat>, b: seq<nat>, c: seq<nat>)
    requires LexLeq(a, b) && LexLeq(b, c)
    ensures LexLeq(a, c)
  {
    if a != b && b != c {
      LexTransitive(a, b, c);
    }
  }

  /** Puts `e` in front of the first larger element of a sorted list. */
  method InsertSorted(v: seq<seq<nat>>, e: seq<nat>) returns (r: seq<seq<nat>>)
    requires Ascending(v)
    ensures Ascending(r) && multiset(r) == multiset(v) + multiset{e}
  {
    var k := 0;
    while k < |v| && LexLeq(v[k], e)
      invariant 0 <= k <= |v|
      invariant forall i :: 0 <= i < k ==> LexLeq(v[i], e)
    {
      k := k + 1;
    }
    forall i | k <= i < |v| ensures LexLeq(e, v[i]) {
      LexTotal(v[k], e);
      if i > k {
        LexLeqTransitive(e, v[k], v[i]);
      }
    }
    r := v[..k] + [e] + v[k..];
    assert v == v[..k] + v[k..];
  }

  /** std::sort. */
  method Sort(v: seq<seq<nat>>) returns (r: seq<seq<nat>>)
    ensures Ascending(r) && multiset(r) == multiset(v)
  {
    r := [];
    for i := 0 to |v|
      invariant Ascending(r) && multiset(r) == multiset(v[..i])
    {
      assert v[..i + 1] == v[..i] + [v[i]];
      r := InsertSorted(r, v[i]);
    }
    assert v[..|v|] == v;
  }

  /** std::unique and erase: keeps the first of every run of equal elements. */
  method Unique(v: seq<seq<nat>>) returns (r: seq<seq<nat>>)
    requires Ascending(v)
    ensures StrictlyAscending(r) && forall e :: e in r <==> e in v
  {
    r := [];
    for i := 0 to |v|
      invariant StrictlyAscending(r) && (forall e :: e in r <==> e in v[..i])
      invariant if i == 0 then r == [] else r != [] && r[|r| - 1] == v[i - 1]
    {
      assert v[..i + 1] == v[..i] + [v[i]];
      if r == [] || r[|r| - 1] != v[i] {
        assert i > 0 ==> LexLeq(v[i - 1], v[i]);
        forall k | 0 <= k < |r| ensures LexLess(r[k], v[i]) {
          if k < |r| - 1 {
            LexTransitive(r[k], r[|r| - 1], v[i]);
          }
        }
        r := r + [v[i]];
      }
    }
    assert v[..|v|] == v;
  }

  /** generate_lengths: exactly the Cartesian product of the lists, sorted and without duplicates. */
  method GenerateLengths(inlengths: seq<seq<nat>>) returns (output: seq<seq<nat>>)
    requires NonEmpty(inlengths)
    ensures inlengths == [] ==> output == []
    ensures StrictlyAscending(output)
    ensures inlengths != [] ==> forall v :: v in output <==> Combines(v, inlengths)
  {
    output := [];
    if |inlengths| == 0 {
      return;
    }
    for idx := 0 to |inlengths|
      invariant forall v :: v in output ==> v in Combinations(inlengths)
      invariant idx > 0 ==> forall v :: v in Combinations(inlengths) ==> v in output
    {
      output := AppendCombinations(inlengths, output);
    }
    var sorted := Sort(output);
    forall v ensures v in sorted <==> v in output {
      assert v in multiset(sorted) <==> v in multiset(output);
    }
    output := Unique(sorted);
    forall v ensures v in Combinations(inlengths) <==> Combines(v, inlengths) {
      CombinationsAreAll(inlengths, v);
    }
  }
}
