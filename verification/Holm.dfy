/** Holm's step-down adjustment of a family of p-values, over the reals. */
module Holm {
  import opened Prelude

  // ------------------------------------------------- the order of the loop

  /** `order` lists every index of `p` once, by value. */
  ghost predicate SortsIndices(p: seq<real>, order: seq<nat>) {
    && |order| == |p|
    && (forall r :: 0 <= r < |order| ==> order[r] < |p|)
    && (forall r, s :: 0 <= r < s < |order| ==> order[r] != order[s])
    && (forall r, s :: 0 <= r < s < |order| ==> p[order[r]] <= p[order[s]])
  }

  predicate AllBelow(order: seq<nat>, n: nat) {
    forall r :: 0 <= r < |order| ==> order[r] < n
  }

  /** Inserts index `i` after every index whose value is not greater: a stable sort. */
  function Insert(p: seq<real>, sorted: seq<nat>, i: nat): (order: seq<nat>)
    requires i < |p| && AllBelow(sorted, |p|)
    ensures AllBelow(order, |p|)
  {
    if sorted == [] then [i]
    else if p[sorted[0]] <= p[i] then [sorted[0]] + Insert(p, sorted[1..], i)
    else [i] + sorted
  }

  function SortedIndices(p: seq<real>, n: nat): (order: seq<nat>)
    requires n <= |p|
    ensures AllBelow(order, |p|)
  {
    if n == 0 then []
    else Insert(p, SortedIndices(p, n - 1), n - 1)
  }

  lemma {:induction false} InsertMembers(p: seq<real>, sorted: seq<nat>, i: nat)
    requires i < |p| && AllBelow(sorted, |p|)
    ensures |Insert(p, sorted, i)| == |sorted| + 1
    ensures forall j :: j in Insert(p, sorted, i) <==> j == i || j in sorted
  {
    if sorted != [] && p[sorted[0]] <= p[i] {
      InsertMembers(p, sorted[1..], i);
      assert sorted == [sorted[0]] + sorted[1..];
    }
  }

  ghost predicate SortedSoFar(p: seq<real>, order: seq<nat>) {
    && (forall r :: 0 <= r < |order| ==> order[r] < |p|)
    && (forall r, s :: 0 <= r < s < |order| ==> order[r] != order[s] && p[order[r]] <= p[order[s]])
  }

  lemma {:induction false} InsertSorts(p: seq<real>, sorted: seq<nat>, i: nat)
    requires i < |p| && SortedSoFar(p, sorted) && i !in sorted
    requires AllBelow(sorted, |p|)
    ensures SortedSoFar(p, Insert(p, sorted, i))
  {
    if sorted != [] && p[sorted[0]] <= p[i] {
      InsertSorts(p, sorted[1..], i);
      InsertMembers(p, sorted[1..], i);
      var rest := Insert(p, sorted[1..], i);
      forall s | 0 <= s < |rest|
        ensures sorted[0] != rest[s] && p[sorted[0]] <= p[rest[s]]
      {
        assert rest[s] in rest;
        if rest[s] != i {
          assert rest[s] in sorted[1..];
        }
      }
    }
  }

  lemma {:induction false} SortedIndicesSort(p: seq<real>, n: nat)
    requires n <= |p|
    ensures |SortedIndices(p, n)| == n && SortedSoFar(p, SortedIndices(p, n))
    ensures forall j: nat :: j in SortedIndices(p, n) <==> j < n
  {
    if n > 0 {
      SortedIndicesSort(p, n - 1);
      InsertMembers(p, SortedIndices(p, n - 1), n - 1);
      InsertSorts(p, SortedIndices(p, n - 1), n - 1);
    }
  }

  // --------------------------------------------------- order-free definition

  /** How many values are strictly smaller than `x`. */
  ghost function Smaller(p: seq<real>, x: real): set<nat> {
    set k: nat | k < |p| && p[k] < x
  }

  function Least(a: real, b: real): real {
    if a <= b then a else b
  }

  /** The Bonferroni-style term of hypothesis `j` at its best rank. */
  ghost function Term(p: seq<real>, j: nat): real
    requires j < |p|
  {
    Least(1.0, (|p| - |Smaller(p, p[j])|) as real * p[j])
  }

  /** `a` is the largest term among hypotheses no larger than `i`. */
  ghost predicate IsAdjusted(p: seq<real>, i: nat, a: real)
    requires i < |p|
  {
    && (exists j: nat :: j < |p| && p[j] <= p[i] && a == Term(p, j))
    && (forall j: nat :: j < |p| && p[j] <= p[i] ==> Term(p, j) <= a)
  }

  predicate PValues(p: seq<real>) {
    p != [] && forall i :: 0 <= i < |p| ==> 0.0 <= p[i] <= 1.0
  }

  // ------------------------------------------------------------- the loop

  datatype HolmError = InvalidPValues

  function Positional(p: seq<real>, order: seq<nat>, r: nat): real
    requires r < |order| && order[r] < |p|
  {
    Least(1.0, (|p| - r) as real * p[order[r]])
  }

  ghost predicate MaximaStored(p: seq<real>, order: seq<nat>, rank: nat, adjusted: seq<real>) {
    && |adjusted| == |p| && rank <= |order| && AllBelow(order, |p|)
    && forall r: nat :: r < rank ==> PrefixMax(p, order, r, adjusted[order[r]])
  }

  lemma MaximaStay(p: seq<real>, order: seq<nat>, rank: nat, adjusted: seq<real>, value: real)
    requires SortsIndices(p, order) && rank < |p| && |adjusted| == |p|
    ensures MaximaStored(p, order, rank, adjusted) && PrefixMax(p, order, rank, value) ==>
              MaximaStored(p, order, rank + 1, adjusted[order[rank] := value])
  {
    hide PrefixMax;
  }

  /** The loop: a running maximum in sorted order, stored at the original indices. */
  method RunningMaximum(p: seq<real>, order: seq<nat>) returns (adjusted: seq<real>)
    requires PValues(p) && SortsIndices(p, order)
    ensures |adjusted| == |p|
    ensures forall r: nat :: r < |p| ==> PrefixMax(p, order, r, adjusted[order[r]])
  {
    assert |order| == |p| && AllBelow(order, |p|);
    hide SortsIndices, PrefixMax, PValues, Positional;
    adjusted := seq(|p|, _ => 0.0);
    var previous := 0.0;
    var rank := 0;
    while rank < |p|
      invariant 0 <= rank <= |p| && |adjusted| == |p|
      invariant previous == if rank == 0 then 0.0 else adjusted[order[rank - 1]]
      invariant MaximaStored(p, order, rank, adjusted)
    {
      var term := Positional(p, order, rank);
      ghost var before := previous;
      previous := if previous < term then term else previous;
      ExtendPrefixMax(p, order, rank, before, previous);
      MaximaStay(p, order, rank, adjusted, previous);
      adjusted := adjusted[order[rank] := previous];
      rank := rank + 1;
    }
  }

  method HolmAdjust(p: seq<real>) returns (result: Result<seq<real>, HolmError>)
    ensures result.Ok? <==> PValues(p)
    ensures result.Ok? ==> |result.value| == |p|
    ensures result.Ok? ==> forall i: nat :: i < |p| ==> result.value[i] == Adjusted(p, i)
  {
    if !PValues(p) {
      return Err(InvalidPValues);
    }
    var order := SortedIndices(p, |p|);
    SortedIndicesSort(p, |p|);
    var adjusted := RunningMaximum(p, order);
    forall i: nat | i < |p|
      ensures adjusted[i] == Adjusted(p, i)
    {
      assert i in order;
      var r: nat :| r < |order| && order[r] == i;
      PrefixMaxIsAdjusted(p, order, r, adjusted[i]);
      AdjustedIsUnique(p, i, adjusted[i]);
    }
    result := Ok(adjusted);
  }

  /** `a` is the largest positional term up to rank `r`. */
  ghost predicate PrefixMax(p: seq<real>, order: seq<nat>, r: nat, a: real) {
    && r < |order| && |order| == |p| && (forall s :: 0 <= s < |order| ==> order[s] < |p|)
    && (exists s: nat :: s <= r && a == Positional(p, order, s))
    && (forall s: nat :: s <= r ==> Positional(p, order, s) <= a)
  }

  lemma TermIsNonNegative(p: seq<real>, order: seq<nat>, r: nat)
    requires PValues(p) && r < |order| && |order| == |p| && order[r] < |p|
    ensures 0.0 <= Positional(p, order, r) <= 1.0
    ensures p[order[r]] <= Positional(p, order, r)
  {
    var k := |p| - r;
    var x := p[order[r]];
    assert k >= 1 && x >= 0.0;
    assert k as real * x >= x by { assert (k as real - 1.0) * x >= 0.0; }
  }

  lemma ExtendPrefixMax(p: seq<real>, order: seq<nat>, r: nat, before: real, after: real)
    requires PValues(p) && SortsIndices(p, order) && r < |p|
    requires if r == 0 then before == 0.0 else PrefixMax(p, order, r - 1, before)
    requires after == if before < Positional(p, order, r) then Positional(p, order, r) else before
    ensures PrefixMax(p, order, r, after)
  {
    TermIsNonNegative(p, order, r);
    if r > 0 && after == before {
      var s: nat :| s <= r - 1 && before == Positional(p, order, s);
    }
  }

  // ------------------------------------------ ranks do not depend on the order

  /** Positions before `r` hold the values counted as smaller, and perhaps some ties. */
  lemma SmallerIsAPrefix(p: seq<real>, order: seq<nat>, r: nat)
    requires SortsIndices(p, order) && r < |p|
    ensures |Smaller(p, p[order[r]])| <= r
    ensures |Smaller(p, p[order[r]])| < |p| && p[order[|Smaller(p, p[order[r]])|]] == p[order[r]]
  {
    var x := p[order[r]];
    var n := CountBelow(p, order, x);
    PositionsAreSmaller(p, order, x, n);
    if n < r {
      assert p[order[n]] <= p[order[r]];
    }
  }

  /** The number of leading positions with a value below `x`. */
  lemma CountBelow(p: seq<real>, order: seq<nat>, x: real) returns (n: nat)
    requires SortsIndices(p, order)
    ensures n <= |p|
    ensures forall r :: 0 <= r < n ==> p[order[r]] < x
    ensures forall r :: n <= r < |p| ==> x <= p[order[r]]
  {
    n := 0;
    while n < |p| && p[order[n]] < x
      invariant n <= |p|
      invariant forall r :: 0 <= r < n ==> p[order[r]] < x
    {
      n := n + 1;
    }
  }

  lemma EveryIndexHasAPosition(p: seq<real>, order: seq<nat>, k: nat)
    requires SortsIndices(p, order) && k < |p|
    ensures k in order
  {
    var positions := set i: nat | i < |order| :: order[i];
    DistinctCount(order, |order|);
    assert positions == set i: nat | i < |order| && i < |order| :: order[i];
    var all := Indices(|p|);
    assert positions <= all;
    if k !in order {
      assert positions <= all - {k};
      SubsetSize(positions, all - {k});
    }
  }

  lemma {:induction false} SubsetSize<T>(a: set<T>, b: set<T>)
    requires a <= b
    ensures |a| <= |b|
    decreases |a|
  {
    if a != {} {
      var x :| x in a;
      SubsetSize(a - {x}, b - {x});
    }
  }

  function Indices(n: nat): (s: set<nat>)
    ensures |s| == n && forall j: nat :: j in s <==> j < n
  {
    if n == 0 then {} else Indices(n - 1) + {n - 1}
  }

  lemma {:induction false} DistinctCount(order: seq<nat>, n: nat)
    requires n <= |order| && forall r, s :: 0 <= r < s < |order| ==> order[r] != order[s]
    ensures |set i: nat | i < |order| && i < n :: order[i]| == n
  {
    var now := set i: nat | i < |order| && i < n :: order[i];
    if n == 0 {
      assert now == {};
    } else {
      DistinctCount(order, n - 1);
      var less := set i: nat | i < |order| && i < n - 1 :: order[i];
      assert order[n - 1] !in less;
      assert now == less + {order[n - 1]};
    }
  }

  lemma PositionsAreSmaller(p: seq<real>, order: seq<nat>, x: real, n: nat)
    requires SortsIndices(p, order) && n <= |p|
    requires forall r :: 0 <= r < n ==> p[order[r]] < x
    requires forall r :: n <= r < |p| ==> x <= p[order[r]]
    ensures |Smaller(p, x)| == n
  {
    var prefix := set i: nat | i < |order| && i < n :: order[i];
    DistinctCount(order, n);
    forall k | k in Smaller(p, x)
      ensures k in prefix
    {
      EveryIndexHasAPosition(p, order, k);
    }
    assert prefix == Smaller(p, x);
  }

  /** The running maximum at rank `r` is the order-free value of that hypothesis. */
  lemma PrefixMaxIsAdjusted(p: seq<real>, order: seq<nat>, r: nat, a: real)
    requires PValues(p) && SortsIndices(p, order) && PrefixMax(p, order, r, a)
    ensures IsAdjusted(p, order[r], a)
  {
    var i := order[r];
    forall j: nat | j < |p| && p[j] <= p[i]
      ensures Term(p, j) <= a
    {
      TermHasARank(p, order, j, r);
    }
    var s: nat :| s <= r && a == Positional(p, order, s);
    var j := order[s];
    assert s < r ==> p[order[s]] <= p[order[r]];
    PositionalBelowTerm(p, order, s);
    assert Term(p, j) <= a && a <= Term(p, j);
  }

  lemma AdjustedExists(p: seq<real>, i: nat)
    requires PValues(p) && i < |p|
    ensures exists a :: IsAdjusted(p, i, a)
  {
    var order := SortedIndices(p, |p|);
    SortedIndicesSort(p, |p|);
    EveryIndexHasAPosition(p, order, i);
    var r: nat :| r < |order| && order[r] == i;
    var a := PrefixMaximum(p, order, r);
    PrefixMaxIsAdjusted(p, order, r, a);
  }

  /** The adjusted value, without reference to any order of the hypotheses. */
  ghost function Adjusted(p: seq<real>, i: nat): (a: real)
    requires PValues(p) && i < |p|
    ensures IsAdjusted(p, i, a)
  {
    AdjustedExists(p, i);
    var a :| IsAdjusted(p, i, a);
    a
  }

  lemma AdjustedIsUnique(p: seq<real>, i: nat, a: real)
    requires PValues(p) && i < |p|
    ensures IsAdjusted(p, i, a) <==> a == Adjusted(p, i)
  {
  }

  /** A term is the positional term at the first position of its value. */
  lemma TermHasARank(p: seq<real>, order: seq<nat>, j: nat, r: nat)
    requires SortsIndices(p, order) && j < |p| && r < |p| && p[j] <= p[order[r]]
    ensures exists s: nat :: s <= r && Positional(p, order, s) == Term(p, j)
  {
    EveryIndexHasAPosition(p, order, j);
    var q: nat :| q < |order| && order[q] == j;
    SmallerIsAPrefix(p, order, q);
    var s := |Smaller(p, p[j])|;
    if s > r {
      assert p[order[r]] <= p[order[s]];
      SmallerIsAPrefix(p, order, r);
    }
    assert Positional(p, order, s) == Term(p, j);
  }

  lemma PositionalBelowTerm(p: seq<real>, order: seq<nat>, s: nat)
    requires PValues(p) && SortsIndices(p, order) && s < |p|
    ensures Positional(p, order, s) <= Term(p, order[s])
  {
    SmallerIsAPrefix(p, order, s);
    var x := p[order[s]];
    var k := |Smaller(p, x)|;
    assert 0.0 <= x && k <= s;
    assert Positional(p, order, s) == Least(1.0, (|p| - s) as real * x);
    assert Term(p, order[s]) == Least(1.0, (|p| - k) as real * x);
    hide Positional, Term, SortsIndices, PValues, Smaller, Least;
    MoreHypothesesMore((|p| - s) as real, (|p| - k) as real, x);
  }

  lemma MoreHypothesesMore(few: real, many: real, x: real)
    requires few <= many && 0.0 <= x
    ensures Least(1.0, few * x) <= Least(1.0, many * x)
  {
    Scaling(few, many, x);
    LeastGrows(few * x, many * x);
  }

  lemma LeastGrows(a: real, b: real)
    requires a <= b
    ensures Least(1.0, a) <= Least(1.0, b)
  {
  }

  lemma Scaling(a: real, b: real, x: real)
    requires a <= b && 0.0 <= x
    ensures a * x <= b * x
  {
    assert (b - a) * x >= 0.0;
  }

  // -------------------------------------------------------------- results

  /** Any order that sorts the values, whatever it does with ties, gives the same result. */
  lemma TieOrderDoesNotMatter(p: seq<real>, first: seq<nat>, second: seq<nat>, r: nat, q: nat, a: real, b: real)
    requires PValues(p) && SortsIndices(p, first) && SortsIndices(p, second)
    requires PrefixMax(p, first, r, a) && PrefixMax(p, second, q, b) && first[r] == second[q]
    ensures a == b
  {
    PrefixMaxIsAdjusted(p, first, r, a);
    PrefixMaxIsAdjusted(p, second, q, b);
  }

  /** Adjustment never goes below a raw value, nor above one. */
  lemma AdjustedBounds(p: seq<real>, i: nat)
    requires PValues(p) && i < |p|
    ensures p[i] <= Adjusted(p, i) <= 1.0
  {
    var order := SortedIndices(p, |p|);
    SortedIndicesSort(p, |p|);
    EveryIndexHasAPosition(p, order, i);
    var r: nat :| r < |order| && order[r] == i;
    TermIsNonNegative(p, order, r);
    PositionalBelowTerm(p, order, r);
  }

  /** Adjustment keeps the order of the values. */
  lemma AdjustmentIsMonotone(p: seq<real>, i: nat, j: nat)
    requires PValues(p) && i < |p| && j < |p| && p[i] <= p[j]
    ensures Adjusted(p, i) <= Adjusted(p, j)
  {
    var k: nat :| k < |p| && p[k] <= p[i] && Adjusted(p, i) == Term(p, k);
  }

  /** `sigma` rearranges the indices of `p` into those of `q`. */
  ghost predicate Rearranges(p: seq<real>, q: seq<real>, sigma: seq<nat>) {
    && |sigma| == |p| == |q|
    && (forall i :: 0 <= i < |sigma| ==> sigma[i] < |q| && q[sigma[i]] == p[i])
    && (forall i, j :: 0 <= i < j < |sigma| ==> sigma[i] != sigma[j])
  }

  lemma {:induction false} ImageSize(sigma: seq<nat>, s: set<nat>)
    requires forall i :: i in s ==> i < |sigma|
    requires forall i, j :: 0 <= i < j < |sigma| ==> sigma[i] != sigma[j]
    ensures |set i | i in s :: sigma[i]| == |s|
    decreases |s|
  {
    if s != {} {
      var x :| x in s;
      ImageSize(sigma, s - {x});
      assert (set i | i in s :: sigma[i]) == (set i | i in s - {x} :: sigma[i]) + {sigma[x]};
    }
  }

  lemma RearrangedTerm(p: seq<real>, q: seq<real>, sigma: seq<nat>, j: nat)
    requires Rearranges(p, q, sigma) && j < |p|
    ensures Term(q, sigma[j]) == Term(p, j)
  {
    var x := p[j];
    var image := set i | i in Smaller(p, x) :: sigma[i];
    ImageSize(sigma, Smaller(p, x));
    forall k | k in Smaller(q, x)
      ensures k in image
    {
      OntoIndices(p, q, sigma, k);
    }
    assert image == Smaller(q, x);
  }

  lemma OntoIndices(p: seq<real>, q: seq<real>, sigma: seq<nat>, k: nat)
    requires Rearranges(p, q, sigma) && k < |q|
    ensures exists i: nat :: i < |p| && sigma[i] == k
  {
    var hit := set i: nat | i < |sigma| && i < |sigma| :: sigma[i];
    DistinctCount(sigma, |sigma|);
    var all := Indices(|q|);
    assert hit <= all;
    if k !in hit {
      SubsetSize(hit, all - {k});
    }
  }

  /** Rearranging the hypotheses rearranges the adjusted values the same way. */
  lemma AdjustmentCommutesWithRearrangement(p: seq<real>, q: seq<real>, sigma: seq<nat>, i: nat)
    requires PValues(p) && PValues(q) && Rearranges(p, q, sigma) && i < |p|
    ensures Adjusted(q, sigma[i]) == Adjusted(p, i)
  {
    RearrangedValue(p, q, sigma, i, Adjusted(p, i));
    AdjustedIsUnique(q, sigma[i], Adjusted(p, i));
  }

  lemma RearrangedValue(p: seq<real>, q: seq<real>, sigma: seq<nat>, i: nat, a: real)
    requires Rearranges(p, q, sigma) && i < |p|
    ensures IsAdjusted(p, i, a) ==> IsAdjusted(q, sigma[i], a)
  {
    if !IsAdjusted(p, i, a) {
      return;
    }
    var j: nat :| j < |p| && p[j] <= p[i] && a == Term(p, j);
    RearrangedTerm(p, q, sigma, j);
    assert q[sigma[j]] <= q[sigma[i]] && a == Term(q, sigma[j]);
    forall k: nat | k < |q| && q[k] <= q[sigma[i]]
      ensures Term(q, k) <= a
    {
      OntoIndices(p, q, sigma, k);
      var l: nat :| l < |p| && sigma[l] == k;
      RearrangedTerm(p, q, sigma, l);
    }
  }

  // ------------------------------------------------------- step-down test

  /** The test at rank `s`: the value against alpha over the hypotheses that are left. */
  predicate Rejects(p: seq<real>, order: seq<nat>, alpha: real, s: nat)
    requires s < |order| == |p| && order[s] < |p|
  {
    p[order[s]] < alpha / (|p| - s) as real
  }

  /** The step-down procedure: walk the sorted values and stop at the first test that fails. */
  function StepDownCount(p: seq<real>, order: seq<nat>, alpha: real, r: nat): (n: nat)
    requires |order| == |p| && r <= |p| && AllBelow(order, |p|)
    ensures r <= n <= |p|
    decreases |p| - r
  {
    if r < |p| && Rejects(p, order, alpha, r) then StepDownCount(p, order, alpha, r + 1) else r
  }

  lemma {:induction false} StepDownStops(p: seq<real>, order: seq<nat>, alpha: real, r: nat)
    requires |order| == |p| && r <= |p| && AllBelow(order, |p|)
    ensures var n := StepDownCount(p, order, alpha, r);
            && (forall s: nat :: r <= s < n ==> Rejects(p, order, alpha, s))
            && (n < |p| ==> !Rejects(p, order, alpha, n))
    decreases |p| - r
  {
    if r < |p| && Rejects(p, order, alpha, r) {
      StepDownStops(p, order, alpha, r + 1);
    }
  }

  lemma Divides(x: real, alpha: real, k: real)
    requires k > 0.0
    ensures x < alpha / k <==> k * x < alpha
  {
    assert k * (alpha / k) == alpha;
    if x < alpha / k {
      assert k * (alpha / k - x) > 0.0;
    } else {
      assert k * (x - alpha / k) >= 0.0;
    }
  }

  lemma RejectsByTerm(p: seq<real>, order: seq<nat>, alpha: real, s: nat)
    requires s < |order| == |p| && order[s] < |p|
    ensures Rejects(p, order, alpha, s) ==> Positional(p, order, s) < alpha
    ensures !Rejects(p, order, alpha, s) && alpha <= 1.0 ==> alpha <= Positional(p, order, s)
  {
    Divides(p[order[s]], alpha, (|p| - s) as real);
  }

  lemma RejectedIsBelow(p: seq<real>, order: seq<nat>, alpha: real, r: nat, a: real)
    requires PValues(p) && SortsIndices(p, order) && PrefixMax(p, order, r, a)
    requires r < StepDownCount(p, order, alpha, 0)
    ensures a < alpha
  {
    StepDownStops(p, order, alpha, 0);
    var s: nat :| s <= r && a == Positional(p, order, s);
    RejectsByTerm(p, order, alpha, s);
  }

  lemma KeptIsNotBelow(p: seq<real>, order: seq<nat>, alpha: real, r: nat, a: real)
    requires PValues(p) && SortsIndices(p, order) && PrefixMax(p, order, r, a)
    requires alpha <= 1.0 && StepDownCount(p, order, alpha, 0) <= r
    ensures alpha <= a
  {
    var n := StepDownCount(p, order, alpha, 0);
    StepDownStops(p, order, alpha, 0);
    RejectsByTerm(p, order, alpha, n);
    assert Positional(p, order, n) <= a;
  }

  /** An adjusted value is below alpha exactly when the step-down test rejects. */
  lemma AdjustedBelowAlphaIffRejected(p: seq<real>, order: seq<nat>, alpha: real, r: nat)
    requires PValues(p) && SortsIndices(p, order) && alpha <= 1.0 && r < |p|
    ensures Adjusted(p, order[r]) < alpha <==> r < StepDownCount(p, order, alpha, 0)
  {
    var a := PrefixMaximum(p, order, r);
    PrefixMaxIsAdjusted(p, order, r, a);
    AdjustedIsUnique(p, order[r], a);
    if r < StepDownCount(p, order, alpha, 0) {
      RejectedIsBelow(p, order, alpha, r, a);
    } else {
      KeptIsNotBelow(p, order, alpha, r, a);
    }
  }

  lemma PrefixMaximum(p: seq<real>, order: seq<nat>, r: nat) returns (a: real)
    requires PValues(p) && SortsIndices(p, order) && r < |p|
    ensures PrefixMax(p, order, r, a)
  {
    TermIsNonNegative(p, order, r);
    if r == 0 {
      a := Positional(p, order, 0);
      ExtendPrefixMax(p, order, 0, 0.0, a);
    } else {
      var before := PrefixMaximum(p, order, r - 1);
      a := if before < Positional(p, order, r) then Positional(p, order, r) else before;
      ExtendPrefixMax(p, order, r, before, a);
    }
  }
}
