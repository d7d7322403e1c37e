/** The exact two-sided sign-flip test on block sums, over the reals. */
module SignFlip {
  import opened Prelude

  /** The slack the comparison allows for rounding. */
  const TOLERANCE := 0.000000000001
  const MAX_BLOCKS := 20

  function Abs(x: real): real {
    if x < 0.0 then -x else x
  }

  function Sum(xs: seq<real>): real {
    if xs == [] then 0.0 else xs[0] + Sum(xs[1..])
  }

  // ---------------------------------------------------------- sign vectors

  datatype Sign = Minus | Plus

  function Value(s: Sign): real {
    if s == Plus then 1.0 else -1.0
  }

  predicate AllOfLength(vectors: seq<seq<Sign>>, n: nat) {
    forall i :: 0 <= i < |vectors| ==> |vectors[i]| == n
  }

  function Prefixed(s: Sign, tails: seq<seq<Sign>>): seq<seq<Sign>> {
    if tails == [] then [] else [[s] + tails[0]] + Prefixed(s, tails[1..])
  }

  lemma {:induction false} PrefixedAt(s: Sign, tails: seq<seq<Sign>>, i: nat)
    requires i < |tails|
    ensures |Prefixed(s, tails)| == |tails| && Prefixed(s, tails)[i] == [s] + tails[i]
    decreases i
  {
    PrefixedSize(s, tails);
    if i > 0 {
      PrefixedAt(s, tails[1..], i - 1);
    }
  }

  lemma {:induction false} PrefixedSize(s: Sign, tails: seq<seq<Sign>>)
    ensures |Prefixed(s, tails)| == |tails|
  {
    if tails != [] {
      PrefixedSize(s, tails[1..]);
    }
  }

  lemma {:induction false} PrefixedLengths(s: Sign, tails: seq<seq<Sign>>, n: nat)
    requires AllOfLength(tails, n)
    ensures AllOfLength(Prefixed(s, tails), n + 1)
  {
    PrefixedSize(s, tails);
    forall i | 0 <= i < |tails|
      ensures |Prefixed(s, tails)[i]| == n + 1
    {
      PrefixedAt(s, tails, i);
    }
  }

  /** All sign vectors of length `k`, in lexicographic order. */
  function Product(k: nat): seq<seq<Sign>> {
    if k == 0 then [[]] else Prefixed(Minus, Product(k - 1)) + Prefixed(Plus, Product(k - 1))
  }

  function Power2(k: nat): (n: nat)
    ensures n >= 1
  {
    if k == 0 then 1 else 2 * Power2(k - 1)
  }

  /** The list holds 2^k vectors of length k. */
  lemma {:induction false} ProductSizes(k: nat)
    ensures |Product(k)| == Power2(k)
    ensures AllOfLength(Product(k), k)
  {
    if k > 0 {
      ProductSizes(k - 1);
      PrefixedSize(Minus, Product(k - 1));
      PrefixedSize(Plus, Product(k - 1));
      forall i | 0 <= i < |Product(k)|
        ensures |Product(k)[i]| == k
      {
        ProductElement(k, i);
      }
    }
  }

  lemma ProductElement(k: nat, i: nat)
    requires k > 0 && i < |Product(k)|
    ensures var tails := Product(k - 1);
            && |Product(k)| == 2 * |tails|
            && Product(k)[i] == if i < |tails| then [Minus] + tails[i] else [Plus] + tails[i - |tails|]
  {
    var tails := Product(k - 1);
    PrefixedSize(Minus, tails);
    PrefixedSize(Plus, tails);
    if i < |tails| { PrefixedAt(Minus, tails, i); } else { PrefixedAt(Plus, tails, i - |tails|); }
  }

  /** No vector is listed twice. */
  lemma {:induction false} ProductIsDistinct(k: nat, i: nat, j: nat)
    requires i < j < |Product(k)|
    ensures Product(k)[i] != Product(k)[j]
    decreases k
  {
    if k > 0 {
      var half := |Product(k - 1)|;
      ProductElement(k, i);
      ProductElement(k, j);
      var tails := Product(k - 1);
      var m, n := if i < half then i else i - half, if j < half then j else j - half;
      if !(i < half <= j) {
        ProductIsDistinct(k - 1, m, n);
      }
      DifferInHeadOrTail(if i < half then Minus else Plus, if j < half then Minus else Plus, tails[m], tails[n]);
    }
  }

  lemma DifferInHeadOrTail(s: Sign, t: Sign, a: seq<Sign>, b: seq<Sign>)
    requires s != t || a != b
    ensures [s] + a != [t] + b
  {
    assert ([s] + a)[0] == s && ([t] + b)[0] == t;
    assert ([s] + a)[1..] == a && ([t] + b)[1..] == b;
  }

  lemma {:induction false} EveryVectorIsListed(signs: seq<Sign>)
    ensures signs in Product(|signs|)
  {
    if signs == [] {
      assert Product(0)[0] == signs;
    } else {
      EveryVectorIsListed(signs[1..]);
      LongerIsListed(signs);
    }
  }

  lemma LongerIsListed(signs: seq<Sign>)
    requires signs != [] && signs[1..] in Product(|signs| - 1)
    ensures signs in Product(|signs|)
  {
    hide Product;
    var n := |signs|;
    var i: nat :| i < |Product(n - 1)| && Product(n - 1)[i] == signs[1..];
    var k := if signs[0] == Minus then i else i + |Product(n - 1)|;
    ProductSizes(n);
    ProductSizes(n - 1);
    assert |Product(n)| == 2 * |Product(n - 1)|;
    ProductElement(n, k);
    assert Product(n)[k] == [signs[0]] + signs[1..] == signs;
  }

  /** The signed sum of the values. */
  function Signed(signs: seq<Sign>, values: seq<real>): real
    requires |signs| == |values|
  {
    if values == [] then 0.0 else Value(signs[0]) * values[0] + Signed(signs[1..], values[1..])
  }

  // ----------------------------------------------------------------- test

  /** How many of the listed vectors reach the threshold. */
  function Extreme(vectors: seq<seq<Sign>>, values: seq<real>, threshold: real): (n: nat)
    requires AllOfLength(vectors, |values|)
    ensures n <= |vectors|
  {
    if vectors == [] then 0
    else (if Abs(Signed(vectors[0], values)) >= threshold then 1 else 0)
         + Extreme(vectors[1..], values, threshold)
  }

  function NonZero(xs: seq<real>): seq<real> {
    if xs == [] then []
    else (if xs[0] != 0.0 then [xs[0]] else []) + NonZero(xs[1..])
  }

  function BlockSums(groups: seq<seq<real>>): seq<real> {
    if groups == [] then [] else [Sum(groups[0])] + BlockSums(groups[1..])
  }

  predicate Accepted(groups: seq<seq<real>>) {
    0 < |groups| <= MAX_BLOCKS && forall i :: 0 <= i < |groups| ==> groups[i] != []
  }

  datatype FlipError = InvalidBlocks

  /** The p-value of a list of block sums: the share of extreme vectors over `values`. */
  function Share(values: seq<real>, observed: real): real {
    ProductSizes(|values|);
    Extreme(Product(|values|), values, observed - TOLERANCE) as real / Power2(|values|) as real
  }

  function PValue(sums: seq<real>): real {
    var nonzero := NonZero(sums);
    if nonzero == [] then 1.0 else Share(nonzero, Abs(Sum(sums)))
  }

  function ExactSignFlip(groups: seq<seq<real>>): Result<real, FlipError> {
    if !Accepted(groups) then Err(InvalidBlocks) else Ok(PValue(BlockSums(groups)))
  }

  // ------------------------------------------------- counting, by recursion

  /** The vectors that reach the threshold from a running sum, counted block by block. */
  function Count(values: seq<real>, sum: real, threshold: real): nat {
    if values == [] then (if Abs(sum) >= threshold then 1 else 0)
    else Count(values[1..], sum - values[0], threshold) + Count(values[1..], sum + values[0], threshold)
  }

  function Reaching(vectors: seq<seq<Sign>>, values: seq<real>, sum: real, threshold: real): nat
    requires AllOfLength(vectors, |values|)
  {
    if vectors == [] then 0
    else (if Abs(sum + Signed(vectors[0], values)) >= threshold then 1 else 0)
         + Reaching(vectors[1..], values, sum, threshold)
  }

  lemma {:induction false} ReachingAppend(
      a: seq<seq<Sign>>, b: seq<seq<Sign>>, values: seq<real>, sum: real, threshold: real)
    requires AllOfLength(a, |values|)
    requires AllOfLength(b, |values|)
    ensures Reaching(a + b, values, sum, threshold)
            == Reaching(a, values, sum, threshold) + Reaching(b, values, sum, threshold)
  {
    if a == [] {
      assert a + b == b;
    } else {
      ReachingAppend(a[1..], b, values, sum, threshold);
      assert (a + b)[1..] == a[1..] + b;
    }
  }

  lemma {:induction false} ReachingPrefixed(
      s: Sign, tails: seq<seq<Sign>>, values: seq<real>, sum: real, threshold: real)
    requires values != [] && AllOfLength(tails, |values| - 1)
    ensures AllOfLength(Prefixed(s, tails), |values|)
    ensures Reaching(Prefixed(s, tails), values, sum, threshold)
            == Reaching(tails, values[1..], sum + Value(s) * values[0], threshold)
  {
    PrefixedLengths(s, tails, |values| - 1);
    if tails != [] {
      ReachingPrefixed(s, tails[1..], values, sum, threshold);
      PrefixedAt(s, tails, 0);
      var v := [s] + tails[0];
      assert v[1..] == tails[0];
      assert Signed(v, values) == Value(s) * values[0] + Signed(tails[0], values[1..]);
      assert Prefixed(s, tails)[1..] == Prefixed(s, tails[1..]);
    }
  }

  lemma {:induction false} CountIsReaching(values: seq<real>, sum: real, threshold: real)
    ensures AllOfLength(Product(|values|), |values|)
    ensures Reaching(Product(|values|), values, sum, threshold) == Count(values, sum, threshold)
  {
    ProductSizes(|values|);
    if values != [] {
      var tails := Product(|values| - 1);
      ProductSizes(|values| - 1);
      PrefixedLengths(Minus, tails, |values| - 1);
      PrefixedLengths(Plus, tails, |values| - 1);
      ReachingAppend(Prefixed(Minus, tails), Prefixed(Plus, tails), values, sum, threshold);
      ReachingPrefixed(Minus, tails, values, sum, threshold);
      ReachingPrefixed(Plus, tails, values, sum, threshold);
      CountIsReaching(values[1..], sum - values[0], threshold);
      CountIsReaching(values[1..], sum + values[0], threshold);
    } else {
      assert Product(0) == [[]];
      assert Signed([], []) == 0.0;
    }
  }

  lemma {:induction false} ExtremeIsReaching(vectors: seq<seq<Sign>>, values: seq<real>, threshold: real)
    requires AllOfLength(vectors, |values|)
    ensures Extreme(vectors, values, threshold) == Reaching(vectors, values, 0.0, threshold)
  {
    if vectors != [] {
      ExtremeIsReaching(vectors[1..], values, threshold);
      assert 0.0 + Signed(vectors[0], values) == Signed(vectors[0], values);
    }
  }

  lemma ShareIsCount(values: seq<real>, observed: real)
    ensures Share(values, observed) == Count(values, 0.0, observed - TOLERANCE) as real / Power2(|values|) as real
  {
    ProductSizes(|values|);
    ExtremeIsReaching(Product(|values|), values, observed - TOLERANCE);
    CountIsReaching(values, 0.0, observed - TOLERANCE);
  }

  // ----------------------------------------------------------- zero blocks

  lemma {:induction false} SumOfNonZero(xs: seq<real>)
    ensures Sum(NonZero(xs)) == Sum(xs)
  {
    if xs != [] {
      SumOfNonZero(xs[1..]);
      if xs[0] != 0.0 {
        assert ([xs[0]] + NonZero(xs[1..]))[1..] == NonZero(xs[1..]);
      } else {
        assert [] + NonZero(xs[1..]) == NonZero(xs[1..]);
      }
    }
  }

  /** Each zero block doubles the count and the number of vectors. */
  lemma OneBlockMore(xs: seq<real>, sum: real, threshold: real)
    requires xs != []
    ensures Count(xs, sum, threshold)
            == Count(xs[1..], sum - xs[0], threshold) + Count(xs[1..], sum + xs[0], threshold)
    ensures Power2(|xs|) == 2 * Power2(|xs[1..]|)
  {
  }

  lemma NonZeroStep(xs: seq<real>)
    requires xs != []
    ensures if xs[0] == 0.0 then NonZero(xs) == NonZero(xs[1..])
            else NonZero(xs) != [] && NonZero(xs)[0] == xs[0] && NonZero(xs)[1..] == NonZero(xs[1..])
  {
    assert [] + NonZero(xs[1..]) == NonZero(xs[1..]);
  }

  /** Dropping the zeros halves the number of vectors with each zero, and the count with it. */
  ghost predicate ZerosDouble(xs: seq<real>, sum: real, threshold: real) {
    Count(xs, sum, threshold) * Power2(|NonZero(xs)|) == Count(NonZero(xs), sum, threshold) * Power2(|xs|)
  }

  lemma ZerosDoubleStep(xs: seq<real>, sum: real, threshold: real)
    requires xs != []
    requires ZerosDouble(xs[1..], sum - xs[0], threshold) && ZerosDouble(xs[1..], sum + xs[0], threshold)
    ensures ZerosDouble(xs, sum, threshold)
  {
    hide Count, Power2, NonZero;
    var rest := xs[1..];
    var kept := NonZero(rest);
    NonZeroStep(xs);
    OneBlockMore(xs, sum, threshold);
    var a, b := Count(rest, sum - xs[0], threshold), Count(rest, sum + xs[0], threshold);
    var c, d := Count(kept, sum - xs[0], threshold), Count(kept, sum + xs[0], threshold);
    if xs[0] == 0.0 {
      DoublingOne(a, c, Power2(|kept|), Power2(|rest|));
    } else {
      OneBlockMore(NonZero(xs), sum, threshold);
      Doubling(a, b, c, d, Power2(|kept|), Power2(|rest|));
    }
  }

  lemma {:induction false} ZerosOnlyDouble(xs: seq<real>, sum: real, threshold: real)
    ensures ZerosDouble(xs, sum, threshold)
    decreases |xs|
  {
    if xs != [] {
      ZerosOnlyDouble(xs[1..], sum - xs[0], threshold);
      ZerosOnlyDouble(xs[1..], sum + xs[0], threshold);
      ZerosDoubleStep(xs, sum, threshold);
    }
  }

  lemma DoublingOne(a: nat, c: nat, few: nat, many: nat)
    requires a * few == c * many
    ensures (a + a) * few == c * (2 * many)
  {
    assert (a + a) * few == 2 * (a * few);
    assert c * (2 * many) == 2 * (c * many);
  }

  lemma Doubling(a: nat, b: nat, c: nat, d: nat, few: nat, many: nat)
    requires a * few == c * many && b * few == d * many
    ensures (a + b) * (2 * few) == (c + d) * (2 * many)
  {
    assert (a + b) * (2 * few) == 2 * (a * few) + 2 * (b * few);
    assert (c + d) * (2 * many) == 2 * (c * many) + 2 * (d * many);
  }

  lemma SameRatio(a: nat, b: nat, few: nat, many: nat)
    requires few > 0 && many > 0 && a * few == b * many
    ensures a as real / many as real == b as real / few as real
  {
    assert (a * few) as real == a as real * few as real;
    assert (b * many) as real == b as real * many as real;
    assert a as real / many as real == (a as real * few as real) / (many as real * few as real);
    assert b as real / few as real == (b as real * many as real) / (few as real * many as real);
  }

  /** Dropping the zero blocks leaves the share over all sign vectors unchanged. */
  lemma ZeroBlocksDropOut(sums: seq<real>)
    requires sums != []
    ensures PValue(sums) == Share(sums, Abs(Sum(sums)))
  {
    var nonzero := NonZero(sums);
    var observed := Abs(Sum(sums));
    SumOfNonZero(sums);
    ShareIsCount(sums, observed);
    ShareIsCount(nonzero, observed);
    ZerosOnlyDouble(sums, 0.0, observed - TOLERANCE);
    var a := Count(sums, 0.0, observed - TOLERANCE);
    var b := Count(nonzero, 0.0, observed - TOLERANCE);
    SameRatio(a, b, Power2(|nonzero|), Power2(|sums|));
    if nonzero == [] {
      assert observed == 0.0 && b == 1;
    }
  }

  // ---------------------------------------------------------------- bounds

  lemma {:induction false} CountAtMost(values: seq<real>, sum: real, threshold: real)
    ensures Count(values, sum, threshold) <= Power2(|values|)
  {
    if values != [] {
      CountAtMost(values[1..], sum - values[0], threshold);
      CountAtMost(values[1..], sum + values[0], threshold);
    }
  }

  lemma {:induction false} AllPlusCounts(values: seq<real>, sum: real, threshold: real)
    requires Abs(sum + Sum(values)) >= threshold
    ensures Count(values, sum, threshold) >= 1
  {
    if values != [] {
      AllPlusCounts(values[1..], sum + values[0], threshold);
    }
  }

  lemma {:induction false} AllMinusCounts(values: seq<real>, sum: real, threshold: real)
    requires Abs(sum - Sum(values)) >= threshold
    ensures Count(values, sum, threshold) >= 1
  {
    if values != [] {
      AllMinusCounts(values[1..], sum - values[0], threshold);
    }
  }

  lemma Quotient(a: nat, b: nat, n: nat)
    requires n > 0 && b <= a <= n
    ensures b as real / n as real <= a as real / n as real <= 1.0
  {
    Dividing(b as real, a as real, n as real);
    Dividing(a as real, n as real, n as real);
  }

  lemma Dividing(x: real, y: real, n: real)
    requires n > 0.0 && x <= y
    ensures x / n <= y / n
  {
    assert y / n - x / n == (y - x) / n;
  }

  /** With `k` nonzero blocks the p-value is at least 2/2^k and at most one. */
  lemma PValueBounds(sums: seq<real>)
    requires NonZero(sums) != []
    ensures 2.0 / Power2(|NonZero(sums)|) as real <= PValue(sums) <= 1.0
  {
    var values := NonZero(sums);
    var threshold := Abs(Sum(sums)) - TOLERANCE;
    SumOfNonZero(sums);
    ShareIsCount(values, Abs(Sum(sums)));
    CountAtMost(values, 0.0, threshold);
    AllPlusCounts(values[1..], 0.0 + values[0], threshold);
    AllMinusCounts(values[1..], 0.0 - values[0], threshold);
    Quotient(Count(values, 0.0, threshold), 2, Power2(|values|));
  }

  // ------------------------------------------------------------ invariance

  /** Moving one block to the front changes nothing. */
  lemma {:induction false} MoveToFront(a: seq<real>, x: real, b: seq<real>, sum: real, threshold: real)
    ensures Count(a + [x] + b, sum, threshold) == Count([x] + (a + b), sum, threshold)
    decreases |a|
  {
    if a == [] {
      assert a + [x] + b == [x] + (a + b);
    } else {
      var y, rest := a[0], a[1..];
      assert (a + [x] + b)[1..] == rest + [x] + b;
      assert (a + b)[1..] == rest + b && (a + b)[0] == y;
      assert ([x] + (a + b))[1..] == a + b;
      assert ([x] + (rest + b))[1..] == rest + b;
      MoveToFront(rest, x, b, sum - y, threshold);
      MoveToFront(rest, x, b, sum + y, threshold);
      assert sum - y - x == sum - x - y && sum - y + x == sum + x - y;
      assert sum + y - x == sum - x + y && sum + y + x == sum + x + y;
    }
  }

  lemma {:induction false} SumMove(a: seq<real>, x: real, b: seq<real>)
    ensures Sum(a + [x] + b) == x + Sum(a + b)
  {
    if a == [] {
      assert a + [x] + b == [x] + b && a + b == b;
    } else {
      SumMove(a[1..], x, b);
      assert (a + [x] + b)[1..] == a[1..] + [x] + b;
      assert (a + b)[1..] == a[1..] + b;
    }
  }

  lemma {:induction false} CountIgnoresOrder(xs: seq<real>, ys: seq<real>, sum: real, threshold: real)
    requires multiset(xs) == multiset(ys)
    ensures Count(xs, sum, threshold) == Count(ys, sum, threshold)
    ensures Sum(xs) == Sum(ys) && |xs| == |ys|
    decreases |xs|
  {
    assert |multiset(xs)| == |xs| && |multiset(ys)| == |ys|;
    if xs != [] {
      var x, rest := xs[0], xs[1..];
      assert xs == [x] + rest;
      var a, b := SplitAt(x, rest, ys);
      MoveToFront(a, x, b, sum, threshold);
      SumMove(a, x, b);
      CountIgnoresOrder(rest, a + b, sum - x, threshold);
      CountIgnoresOrder(rest, a + b, sum + x, threshold);
      assert ([x] + (a + b))[1..] == a + b;
    }
  }

  lemma SameRemainder(m: multiset<real>, n: multiset<real>, x: real)
    requires multiset{x} + m == multiset{x} + n
    ensures m == n
  {
    assert m == (multiset{x} + m) - multiset{x};
    assert n == (multiset{x} + n) - multiset{x};
  }

  lemma SplitAt(x: real, rest: seq<real>, ys: seq<real>) returns (a: seq<real>, b: seq<real>)
    requires multiset([x] + rest) == multiset(ys)
    ensures ys == a + [x] + b && multiset(rest) == multiset(a + b)
  {
    assert x in multiset(ys);
    var i :| 0 <= i < |ys| && ys[i] == x;
    a, b := ys[..i], ys[i + 1..];
    assert ys == a + [x] + b;
    SameRemainder(multiset(rest), multiset(a + b), x);
  }

  /** Reordering the blocks leaves the p-value unchanged. */
  lemma OrderDoesNotMatter(sums: seq<real>, others: seq<real>)
    requires sums != [] && multiset(sums) == multiset(others)
    ensures PValue(sums) == PValue(others)
  {
    var threshold := Abs(Sum(sums)) - TOLERANCE;
    hide PValue, Count, Product, Extreme, NonZero, Power2, Abs, Sum, Share;
    CountIgnoresOrder(sums, others, 0.0, threshold);
    ZeroBlocksDropOut(sums);
    ZeroBlocksDropOut(others);
    ShareIsCount(sums, Abs(Sum(sums)));
    ShareIsCount(others, Abs(Sum(others)));
  }

  /** The values with some of them negated. */
  function Flipped(signs: seq<Sign>, values: seq<real>): (r: seq<real>)
    requires |signs| == |values|
    ensures |r| == |values|
  {
    if values == [] then [] else [Value(signs[0]) * values[0]] + Flipped(signs[1..], values[1..])
  }

  lemma {:induction false} FlippingKeepsCount(signs: seq<Sign>, values: seq<real>, sum: real, threshold: real)
    requires |signs| == |values|
    ensures Count(Flipped(signs, values), sum, threshold) == Count(values, sum, threshold)
    ensures Sum(Flipped(signs, values)) == Signed(signs, values)
    decreases |values|
  {
    if values != [] {
      var x := Value(signs[0]) * values[0];
      var rest := Flipped(signs[1..], values[1..]);
      assert Flipped(signs, values)[1..] == rest;
      FlippingKeepsCount(signs[1..], values[1..], sum - x, threshold);
      FlippingKeepsCount(signs[1..], values[1..], sum + x, threshold);
    }
  }

  lemma FlippedPValue(signs: seq<Sign>, values: seq<real>)
    requires |signs| == |values| && values != []
    ensures PValue(Flipped(signs, values)) == Share(values, Abs(Signed(signs, values)))
  {
    hide PValue, Count, Sum, Signed, Flipped, Abs, Power2, Share, Product, Extreme, NonZero;
    var flipped := Flipped(signs, values);
    var observed := Abs(Signed(signs, values));
    FlippingKeepsCount(signs, values, 0.0, observed - TOLERANCE);
    ZeroBlocksDropOut(flipped);
    ShareIsCount(flipped, Abs(Sum(flipped)));
    ShareIsCount(values, observed);
  }

  function AllMinus(n: nat): (signs: seq<Sign>)
    ensures |signs| == n
  {
    if n == 0 then [] else [Minus] + AllMinus(n - 1)
  }

  lemma {:induction false} NegatedSum(values: seq<real>)
    ensures Signed(AllMinus(|values|), values) == -Sum(values)
  {
    if values != [] {
      NegatedSum(values[1..]);
      assert AllMinus(|values|)[1..] == AllMinus(|values| - 1);
    }
  }

  /** Negating every block leaves the p-value unchanged. */
  lemma NegationDoesNotMatter(sums: seq<real>)
    requires sums != []
    ensures PValue(Flipped(AllMinus(|sums|), sums)) == PValue(sums)
  {
    hide *;
    FlippedPValue(AllMinus(|sums|), sums);
    NegatedSum(sums);
    ZeroBlocksDropOut(sums);
    AbsNegated(Sum(sums));
  }

  lemma AbsNegated(x: real)
    ensures Abs(-x) == Abs(x)
  {
  }

  // -------------------------------------------------------------- exactness

  /** Vectors whose flipped data give a p-value of at most `level`. */
  function Rejecting(vectors: seq<seq<Sign>>, values: seq<real>, level: real): nat
    requires AllOfLength(vectors, |values|)
  {
    if vectors == [] then 0
    else (if PValue(Flipped(vectors[0], values)) <= level then 1 else 0)
         + Rejecting(vectors[1..], values, level)
  }

  /** The rejecting vector with the smallest statistic, if any vector rejects. */
  lemma {:induction false} LeastRejecting(vectors: seq<seq<Sign>>, values: seq<real>, level: real)
    returns (least: seq<Sign>)
    requires AllOfLength(vectors, |values|)
    requires Rejecting(vectors, values, level) > 0
    ensures |least| == |values| && PValue(Flipped(least, values)) <= level
    ensures forall i :: 0 <= i < |vectors| && PValue(Flipped(vectors[i], values)) <= level ==>
              Abs(Signed(least, values)) <= Abs(Signed(vectors[i], values))
    decreases |vectors|
  {
    var first, rest := vectors[0], vectors[1..];
    var rejects := PValue(Flipped(first, values)) <= level;
    assert forall i :: 0 < i < |vectors| ==> vectors[i] == rest[i - 1];
    if Rejecting(rest, values, level) == 0 {
      least := first;
      NoneRejecting(rest, values, level);
    } else {
      least := LeastRejecting(rest, values, level);
      if rejects && Abs(Signed(first, values)) < Abs(Signed(least, values)) {
        least := first;
      }
    }
  }

  lemma {:induction false} NoneRejecting(vectors: seq<seq<Sign>>, values: seq<real>, level: real)
    requires AllOfLength(vectors, |values|)
    requires Rejecting(vectors, values, level) == 0
    ensures forall i :: 0 <= i < |vectors| ==> PValue(Flipped(vectors[i], values)) > level
  {
    if vectors != [] {
      NoneRejecting(vectors[1..], values, level);
      assert forall i :: 0 < i < |vectors| ==> vectors[i] == vectors[1..][i - 1];
    }
  }

  lemma {:induction false} RejectingAreExtreme(
      vectors: seq<seq<Sign>>, values: seq<real>, level: real, threshold: real)
    requires AllOfLength(vectors, |values|)
    requires forall i :: 0 <= i < |vectors| && PValue(Flipped(vectors[i], values)) <= level ==>
               threshold <= Abs(Signed(vectors[i], values))
    ensures Rejecting(vectors, values, level) <= Extreme(vectors, values, threshold)
  {
    if vectors != [] {
      assert forall i :: 0 < i < |vectors| ==> vectors[i] == vectors[1..][i - 1];
      RejectingAreExtreme(vectors[1..], values, level, threshold);
    }
  }

  predicate AtMostShare(n: nat, total: nat, level: real) {
    n as real <= level * total as real
  }

  /**
   The test is exact: among all sign flips of the same data, the share that
   gets a p-value of at most `level` is itself at most `level`.
   */
  lemma TestIsExact(values: seq<real>, level: real)
    requires values != [] && level >= 0.0
    ensures AllOfLength(Product(|values|), |values|)
    ensures AtMostShare(Rejecting(Product(|values|), values, level), Power2(|values|), level)
  {
    ProductSizes(|values|);
    hide Product, Rejecting, AllOfLength, Power2, AtMostShare;
    var rejecting := Rejecting(Product(|values|), values, level);
    if rejecting > 0 {
      var extreme := RejectingIsLimited(values, level);
      ShareTimesTotal(extreme, rejecting, Power2(|values|), level);
    } else {
      ShareOfNone(Power2(|values|), level);
    }
  }

  lemma ShareOfNone(total: nat, level: real)
    requires level >= 0.0
    ensures AtMostShare(0, total, level)
  {
  }

  lemma RejectingIsLimited(values: seq<real>, level: real) returns (extreme: nat)
    requires values != [] && AllOfLength(Product(|values|), |values|)
    requires Rejecting(Product(|values|), values, level) > 0
    ensures Rejecting(Product(|values|), values, level) <= extreme
    ensures extreme as real / Power2(|values|) as real <= level
  {
    var vectors := Product(|values|);
    var least := LeastRejecting(vectors, values, level);
    var threshold := Abs(Signed(least, values)) - TOLERANCE;
    RejectingAreExtreme(vectors, values, level, threshold);
    FlippedPValue(least, values);
    extreme := Extreme(vectors, values, threshold);
  }

  lemma ShareTimesTotal(extreme: nat, rejecting: nat, total: nat, level: real)
    requires total > 0 && rejecting <= extreme && extreme as real / total as real <= level
    ensures AtMostShare(rejecting, total, level)
  {
    var share := extreme as real / total as real;
    assert extreme as real == share * total as real;
    assert (level - share) * total as real >= 0.0;
  }

  // ------------------------------------------------------- the share, exactly

  /** A sum as far from zero as the threshold, on either side. */
  predicate IsFar(signs: seq<Sign>, values: seq<real>, threshold: real)
    requires |signs| == |values|
  {
    Signed(signs, values) >= threshold || -Signed(signs, values) >= threshold
  }

  /** The places, from `n` on, of the vectors with such a sum. */
  function Far(vectors: seq<seq<Sign>>, values: seq<real>, threshold: real, n: nat): set<nat>
    requires AllOfLength(vectors, |values|)
  {
    set i: nat | n <= i < |vectors| && IsFar(vectors[i], values, threshold)
  }

  lemma {:induction false} ExtremeIsFar(vectors: seq<seq<Sign>>, values: seq<real>, threshold: real, n: nat)
    requires AllOfLength(vectors, |values|) && n <= |vectors|
    ensures AllOfLength(vectors[n..], |values|)
    ensures Extreme(vectors[n..], values, threshold) == |Far(vectors, values, threshold, n)|
    decreases |vectors| - n
  {
    if n == |vectors| {
      assert Far(vectors, values, threshold, n) == {};
    } else {
      ExtremeIsFar(vectors, values, threshold, n + 1);
      assert vectors[n..][1..] == vectors[n + 1..] && vectors[n..][0] == vectors[n];
      assert IsFar(vectors[n], values, threshold) <==> Abs(Signed(vectors[n], values)) >= threshold;
      hide IsFar, Signed, Abs;
      var first: set<nat> := if IsFar(vectors[n], values, threshold) then {n} else {};
      assert Far(vectors, values, threshold, n) == first + Far(vectors, values, threshold, n + 1);
    }
  }

  /** The p-value is the share, among the sign vectors of all blocks, of sums at least as far out, up to the tolerance. */
  lemma PValueIsTheShare(sums: seq<real>)
    requires sums != []
    ensures AllOfLength(Product(|sums|), |sums|) && |Product(|sums|)| > 0
    ensures var observed := if Sum(sums) < 0.0 then -Sum(sums) else Sum(sums);
            PValue(sums)
            == |Far(Product(|sums|), sums, observed - 0.000000000001, 0)| as real / |Product(|sums|)| as real
  {
    hide PValue, Product, Extreme, Far, Signed, Sum, Power2;
    ProductSizes(|sums|);
    ZeroBlocksDropOut(sums);
    ExtremeIsFar(Product(|sums|), sums, Abs(Sum(sums)) - TOLERANCE, 0);
    assert Product(|sums|)[0..] == Product(|sums|);
  }

  /** Between one and twenty blocks, none of them empty; each counts by its sum. */
  lemma BlocksAreTestedExactlyWhen(groups: seq<seq<real>>)
    ensures var r := ExactSignFlip(groups);
            && (r.Ok? <==> 1 <= |groups| <= 20 && forall i :: 0 <= i < |groups| ==> |groups[i]| > 0)
            && (r.Ok? ==>
                  |BlockSums(groups)| == |groups| && r.value == PValue(BlockSums(groups))
                  && forall i :: 0 <= i < |groups| ==> BlockSums(groups)[i] == Sum(groups[i]))
  {
    SumsOfBlocks(groups);
    hide PValue, BlockSums, Sum;
  }

  lemma {:induction false} SumsOfBlocks(groups: seq<seq<real>>)
    ensures |BlockSums(groups)| == |groups|
    ensures forall i :: 0 <= i < |groups| ==> BlockSums(groups)[i] == Sum(groups[i])
  {
    if groups != [] {
      SumsOfBlocks(groups[1..]);
    }
  }
}
