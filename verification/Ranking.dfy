/** matching/ranking_calibration.py: tie-averaged ranks and their Pearson correlation
    (Spearman's rho), over exact reals. */
module RankCorrelation {
  import opened Wrappers
  import Sorting

  // ----- counting -----

  function Count<T>(s: seq<T>, p: T -> bool): nat {
    if s == [] then 0 else (if p(s[0]) then 1 else 0) + Count(s[1..], p)
  }

  lemma {:induction false} CountAppend<T>(a: seq<T>, b: seq<T>, p: T -> bool)
    ensures Count(a + b, p) == Count(a, p) + Count(b, p)
  {
    if a == [] {
      assert a + b == b;
    } else {
      assert (a + b)[1..] == a[1..] + b;
      CountAppend(a[1..], b, p);
    }
  }

  lemma {:induction false} CountPermutation<T>(a: seq<T>, b: seq<T>, p: T -> bool)
    requires multiset(a) == multiset(b)
    ensures Count(a, p) == Count(b, p)
  {
    if b == [] {
      assert |a| == |multiset(a)| == 0;
    } else {
      var i := Sorting.TakeOut(a, b);
      CountPermutation(Sorting.RemoveAt(a, i), b[1..], p);
      CountAppend(a[..i], a[i + 1..], p);
      CountAppend(a[..i], [a[i]] + a[i + 1..], p);
      assert a == a[..i] + ([a[i]] + a[i + 1..]);
    }
  }

  /** Counting over positions, or over any re-indexing that agrees position by position. */
  lemma {:induction false} CountPointwise<S, T>(a: seq<S>, b: seq<T>, p: S -> bool, q: T -> bool)
    requires |a| == |b| && forall i :: 0 <= i < |a| ==> p(a[i]) == q(b[i])
    ensures Count(a, p) == Count(b, q)
  {
    if a != [] {
      CountPointwise(a[1..], b[1..], p, q);
    }
  }

  lemma {:induction false} CountNone<T>(s: seq<T>, p: T -> bool)
    requires forall i :: 0 <= i < |s| ==> !p(s[i])
    ensures Count(s, p) == 0
  {
    if s != [] {
      CountNone(s[1..], p);
    }
  }

  lemma {:induction false} CountAll<T>(s: seq<T>, p: T -> bool)
    requires forall i :: 0 <= i < |s| ==> p(s[i])
    ensures Count(s, p) == |s|
  {
    if s != [] {
      CountAll(s[1..], p);
    }
  }

  /** When `p` holds exactly on positions [start, end), it is counted end - start times. */
  lemma CountBand<T>(s: seq<T>, p: T -> bool, start: nat, end: nat)
    requires start <= end <= |s|
    requires forall i :: 0 <= i < |s| ==> (p(s[i]) <==> start <= i < end)
    ensures Count(s, p) == end - start
  {
    hide Count;
    var head, run, tail := s[..start], s[start..end], s[end..];
    ThreeParts(s, start, end);
    CountAppend(head, run + tail, p);
    CountAppend(run, tail, p);
    CountNone(head, p);
    CountAll(run, p);
    CountNone(tail, p);
  }

  lemma ThreeParts<T>(s: seq<T>, start: nat, end: nat)
    requires start <= end <= |s|
    ensures s == s[..start] + (s[start..end] + s[end..])
  {
  }

  function Below(x: real): real -> bool { (v: real) => v < x }
  function Same(x: real): real -> bool { (v: real) => v == x }
  function Above(x: real): real -> bool { (v: real) => v > x }

  /** The rank of value `x` in a list: one more than how many are smaller, averaged over ties. */
  function Rank(values: seq<real>, x: real): real {
    Count(values, Below(x)) as real + (Count(values, Same(x)) as real + 1.0) / 2.0
  }

  function Ranks(values: seq<real>): (r: seq<real>)
    ensures |r| == |values| && forall i :: 0 <= i < |r| ==> r[i] == Rank(values, values[i])
  {
    seq(|values|, (i: int) requires 0 <= i < |values| => Rank(values, values[i]))
  }

  // ----- the in-place loop -----

  function ValueAt(values: seq<real>, i: int): real {
    if 0 <= i < |values| then values[i] else 0.0
  }

  /** The sort key `(values[index], index)`. */
  function ByValue(values: seq<real>): (int, int) -> bool {
    (i: int, j: int) => ValueAt(values, i) < ValueAt(values, j) || (ValueAt(values, i) == ValueAt(values, j) && i <= j)
  }

  function Indices(n: nat): (r: seq<int>)
    ensures |r| == n && forall i :: 0 <= i < n ==> r[i] == i
  {
    seq(n, i => i)
  }

  /** `order` lists every index once, by ascending value. */
  ghost predicate Ordering(values: seq<real>, order: seq<int>) {
    && |order| == |values| && multiset(order) == multiset(Indices(|values|))
    && (forall p :: 0 <= p < |order| ==> 0 <= order[p] < |values|)
    && (forall p, q :: 0 <= p < q < |order| ==> values[order[p]] <= values[order[q]])
  }

  function SortedIndices(values: seq<real>): (order: seq<int>)
    ensures Ordering(values, order)
  {
    var order := Sorting.Sort(Indices(|values|), ByValue(values));
    Sorting.SortSorted(Indices(|values|), ByValue(values));
    Sorting.SortMembers(Indices(|values|), ByValue(values));
    assert forall p :: 0 <= p < |order| ==> order[p] in Indices(|values|);
    assert forall p, q :: 0 <= p < q < |order| ==> ByValue(values)(order[p], order[q]);
    order
  }

  function At(values: seq<real>, p: real -> bool): int -> bool {
    (i: int) => p(ValueAt(values, i))
  }

  /** Counting values may follow the sorted order. */
  lemma CountAlong(values: seq<real>, order: seq<int>, p: real -> bool)
    requires Ordering(values, order)
    ensures Count(values, p) == Count(order, At(values, p))
  {
    forall i | 0 <= i < |values| ensures p(values[i]) == At(values, p)(Indices(|values|)[i]) {
      assert ValueAt(values, Indices(|values|)[i]) == values[i];
    }
    CountPointwise(values, Indices(|values|), p, At(values, p));
    CountPermutation(Indices(|values|), order, At(values, p));
  }

  /** A maximal run of equal values in the order fixes their rank. */
  lemma RunRank(values: seq<real>, order: seq<int>, start: nat, end: nat)
    requires Ordering(values, order) && start < end <= |order|
    requires start > 0 ==> values[order[start - 1]] < values[order[start]]
    requires forall p :: start <= p < end ==> values[order[p]] == values[order[start]]
    requires end < |order| ==> values[order[end]] != values[order[start]]
    ensures Rank(values, values[order[start]]) == (start + 1 + end) as real / 2.0
  {
    var x := values[order[start]];
    assert forall p :: 0 <= p < start ==> values[order[p]] <= values[order[start - 1]];
    assert forall p :: end <= p < |order| ==> values[order[end]] <= values[order[p]];
    assert forall p :: 0 <= p < |order| ==> ValueAt(values, order[p]) == values[order[p]];
    CountAlong(values, order, Below(x));
    CountAlong(values, order, Same(x));
    CountBand(order, At(values, Below(x)), 0, start);
    CountBand(order, At(values, Same(x)), start, end);
  }

  /** matching/ranking_calibration.py:377-389. */
  method AverageRanks(values: seq<real>) returns (r: seq<real>)
    ensures r == Ranks(values)
  {
    var order := SortedIndices(values);
    var ranks := new real[|values|];
    var start := 0;
    while start < |order|
      invariant 0 <= start <= |order|
      invariant 0 < start < |order| ==> values[order[start - 1]] < values[order[start]]
      invariant forall p :: 0 <= p < start ==> ranks[order[p]] == Rank(values, values[order[p]])
    {
      var end := start + 1;
      while end < |order| && values[order[end]] == values[order[start]]
        invariant start < end <= |order|
        invariant forall p :: start <= p < end ==> values[order[p]] == values[order[start]]
      {
        end := end + 1;
      }
      var average := (start + 1 + end) as real / 2.0;
      RunRank(values, order, start, end);
      for position := start to end
        invariant forall p :: 0 <= p < position ==> ranks[order[p]] == Rank(values, values[order[p]])
      {
        ranks[order[position]] := average;
      }
      start := end;
    }
    forall i | 0 <= i < |values| ensures ranks[i] == Rank(values, values[i]) {
      var p := PositionOf(values, order, i);
    }
    r := ranks[..];
  }

  lemma PositionOf(values: seq<real>, order: seq<int>, i: nat) returns (p: nat)
    requires Ordering(values, order) && i < |values|
    ensures p < |order| && order[p] == i
  {
    assert Indices(|values|)[i] in multiset(order);
    p :| 0 <= p < |order| && order[p] == i;
  }

  // ----- laws of ranks -----

  lemma {:induction false} CountTrichotomy(values: seq<real>, x: real)
    ensures Count(values, Below(x)) + Count(values, Same(x)) + Count(values, Above(x)) == |values|
  {
    if values != [] {
      CountTrichotomy(values[1..], x);
    }
  }

  function Sum(s: seq<real>): real {
    if s == [] then 0.0 else s[0] + Sum(s[1..])
  }

  /** The ranks `values` would give the members of `xs`, added up. */
  function RankTotal(xs: seq<real>, values: seq<real>): real {
    if xs == [] then 0.0 else Rank(values, xs[0]) + RankTotal(xs[1..], values)
  }

  /** One more value lifts every larger one by a place and every equal one by half a place. */
  lemma {:induction false} RankTotalGrows(xs: seq<real>, values: seq<real>, y: real)
    ensures RankTotal(xs, [y] + values) ==
      RankTotal(xs, values) + Count(xs, Above(y)) as real + Count(xs, Same(y)) as real / 2.0
  {
    if xs != [] {
      RankTotalGrows(xs[1..], values, y);
      assert ([y] + values)[1..] == values;
    }
  }

  lemma {:induction false} RankTotalFixed(values: seq<real>)
    ensures RankTotal(values, values) == (|values| * (|values| + 1)) as real / 2.0
  {
    if values != [] {
      var y, rest := values[0], values[1..];
      assert values == [y] + rest;
      RankTotalFixed(rest);
      RankTotalGrows(rest, rest, y);
      CountTrichotomy(rest, y);
      var n := |rest|;
      assert (n + 1) * (n + 2) == n * (n + 1) + 2 * (n + 1);
    }
  }

  lemma {:induction false} SumOfRanks(xs: seq<real>, r: seq<real>, values: seq<real>)
    requires |r| == |xs| && forall i :: 0 <= i < |xs| ==> r[i] == Rank(values, xs[i])
    ensures Sum(r) == RankTotal(xs, values)
  {
    if xs != [] {
      SumOfRanks(xs[1..], r[1..], values);
    }
  }

  /** However the values tie, the ranks of n items add up to n(n+1)/2. */
  lemma RanksAddUp(values: seq<real>)
    ensures Sum(Ranks(values)) == (|values| * (|values| + 1)) as real / 2.0
  {
    SumOfRanks(values, Ranks(values), values);
    RankTotalFixed(values);
  }

  lemma {:induction false} BelowMonotone(values: seq<real>, x: real, y: real)
    requires x < y
    ensures Count(values, Below(x)) + Count(values, Same(x)) <= Count(values, Below(y))
  {
    if values != [] {
      BelowMonotone(values[1..], x, y);
    }
  }

  lemma {:induction false} CountsItself(values: seq<real>, i: nat)
    requires i < |values|
    ensures Count(values, Same(values[i])) >= 1
  {
    if i > 0 {
      CountsItself(values[1..], i - 1);
    }
  }

  lemma LowerRanksLower(values: seq<real>, i: nat, j: nat)
    requires i < |values| && j < |values| && values[i] < values[j]
    ensures Ranks(values)[i] < Ranks(values)[j]
  {
    BelowMonotone(values, values[i], values[j]);
    CountsItself(values, i);
    CountsItself(values, j);
  }

  /** Ranks order items exactly as their values do. */
  lemma RanksRespectOrder(values: seq<real>, i: nat, j: nat)
    requires i < |values| && j < |values|
    ensures values[i] < values[j] <==> Ranks(values)[i] < Ranks(values)[j]
    ensures values[i] == values[j] <==> Ranks(values)[i] == Ranks(values)[j]
  {
    if values[i] < values[j] {
      LowerRanksLower(values, i, j);
    } else if values[j] < values[i] {
      LowerRanksLower(values, j, i);
    }
  }

  /** Ranks travel with their items under any permutation of the list. */
  lemma RankPermutation(a: seq<real>, b: seq<real>, x: real)
    requires multiset(a) == multiset(b)
    ensures Rank(a, x) == Rank(b, x)
  {
    CountPermutation(a, b, Below(x));
    CountPermutation(a, b, Same(x));
  }

  /** `b` is `a` under a strictly increasing rescaling. */
  ghost predicate SameOrder(a: seq<real>, b: seq<real>) {
    |a| == |b| && forall i, j :: 0 <= i < |a| && 0 <= j < |a| ==> (a[i] < a[j] <==> b[i] < b[j])
  }

  lemma RescalingKeepsRanks(a: seq<real>, b: seq<real>)
    requires SameOrder(a, b)
    ensures Ranks(a) == Ranks(b)
  {
    forall i | 0 <= i < |a| ensures Rank(a, a[i]) == Rank(b, b[i]) {
      CountPointwise(a, b, Below(a[i]), Below(b[i]));
      assert forall j :: 0 <= j < |a| ==> (a[j] == a[i] <==> !(a[j] < a[i]) && !(a[i] < a[j]));
      CountPointwise(a, b, Same(a[i]), Same(b[i]));
    }
  }

  /** `b` orders the items the other way round. */
  ghost predicate ReverseOrder(a: seq<real>, b: seq<real>) {
    |a| == |b| && forall i, j :: 0 <= i < |a| && 0 <= j < |a| ==> (a[i] < a[j] <==> b[j] < b[i])
  }

  lemma ReversalReflectsRanks(a: seq<real>, b: seq<real>, i: nat)
    requires ReverseOrder(a, b) && i < |a|
    ensures Ranks(b)[i] == (|a| + 1) as real - Ranks(a)[i]
  {
    CountPointwise(a, b, Above(a[i]), Below(b[i]));
    assert forall j :: 0 <= j < |a| ==> (a[j] == a[i] <==> !(a[j] < a[i]) && !(a[i] < a[j]));
    CountPointwise(a, b, Same(a[i]), Same(b[i]));
    CountTrichotomy(a, a[i]);
  }

  // ----- Pearson -----

  function Dot(a: seq<real>, b: seq<real>): real
    requires |a| == |b|
  {
    if a == [] then 0.0 else a[0] * b[0] + Dot(a[1..], b[1..])
  }

  function Mean(s: seq<real>): real
    requires s != []
  {
    Sum(s) / |s| as real
  }

  function Deviations(s: seq<real>): (d: seq<real>)
    requires s != []
    ensures |d| == |s| && forall i :: 0 <= i < |s| ==> d[i] == s[i] - Mean(s)
  {
    seq(|s|, (i: int) requires 0 <= i < |s| => s[i] - Mean(s))
  }

  function Numerator(left: seq<real>, right: seq<real>): real
    requires |left| == |right| > 0
  {
    Dot(Deviations(left), Deviations(right))
  }

  function SquaredDeviations(s: seq<real>): real
    requires s != []
  {
    Dot(Deviations(s), Deviations(s))
  }

  /** `root` is `math.sqrt(x)`. */
  ghost predicate IsRoot(root: real, x: real) {
    root >= 0.0 && root * root == x
  }

  /** matching/ranking_calibration.py:392-402, before rounding; `root` is the denominator. */
  function Pearson(left: seq<real>, right: seq<real>, root: real): Option<real>
    requires |left| == |right| > 0
  {
    if root == 0.0 then None else Some(Numerator(left, right) / root)
  }

  lemma ProductPositive(x: real, y: real)
    requires x > 0.0 && y > 0.0
    ensures x * y > 0.0
  {
  }

  lemma SignOfProduct(p: real, d: real)
    requires p > 0.0
    ensures d < 0.0 ==> p * d < 0.0
  {
    if d < 0.0 {
      ProductPositive(p, -d);
      assert p * (-d) == -(p * d);
    }
  }

  lemma SquarePositive(x: real)
    ensures x != 0.0 ==> x * x > 0.0
    ensures x * x >= 0.0 && (x == 0.0 ==> x * x == 0.0)
  {
    if x > 0.0 {
      ProductPositive(x, x);
    } else if x < 0.0 {
      ProductPositive(-x, -x);
      NegatedSquare(x);
    }
  }

  lemma NegatedSquare(x: real)
    ensures (-x) * (-x) == x * x
  {
  }

  lemma SquareGrows(a: real, b: real)
    requires a >= 0.0
    ensures a < b ==> a * a < b * b
  {
    if a < b {
      ProductPositive(b - a, b + a);
      assert (b - a) * (b + a) == b * b - a * a;
    }
  }

  ghost predicate AllZero(a: seq<real>) {
    forall i :: 0 <= i < |a| ==> a[i] == 0.0
  }

  lemma SquareSign(x: real, y: real)
    requires x == y
    ensures x * y >= 0.0 && (x == 0.0 ==> x * y == 0.0) && (x != 0.0 ==> x * y > 0.0)
  {
    if x > 0.0 {
      ProductPositive(x, y);
    } else if x < 0.0 {
      ProductPositive(-x, -y);
      assert (-x) * (-y) == x * y;
    }
  }

  lemma SumSign(m: real, r: real, d: real)
    requires m >= 0.0 && r >= 0.0 && d == m + r
    ensures d >= 0.0 && (m > 0.0 || r > 0.0 ==> d > 0.0) && (m == 0.0 && r == 0.0 ==> d == 0.0)
  {
  }

  /** A sum of squares, written with two names for one list. */
  lemma {:induction false} DotSelf(a: seq<real>, b: seq<real>)
    requires a == b
    ensures Dot(a, b) >= 0.0
    ensures AllZero(a) ==> Dot(a, b) == 0.0
    ensures !AllZero(a) ==> Dot(a, b) > 0.0
  {
    if a != [] {
      DotSelf(a[1..], b[1..]);
      SquareSign(a[0], b[0]);
      SumSign(a[0] * b[0], Dot(a[1..], b[1..]), Dot(a, b));
      assert AllZero(a) <==> a[0] == 0.0 && AllZero(a[1..]) by {
        assert forall i :: 1 <= i < |a| ==> a[i] == a[1..][i - 1];
      }
    }
  }

  lemma ZeroFactor(x: real, y: real)
    ensures x == 0.0 || y == 0.0 ==> x * y == 0.0
  {
  }

  lemma RootZeroIff(l: real, r: real, root: real, root': real)
    requires l >= 0.0 && r >= 0.0 && root >= 0.0 && root == root' && root * root' == l * r
    ensures root == 0.0 <==> l == 0.0 || r == 0.0
  {
    ZeroFactor(l, r);
    ZeroFactor(root, root');
    if l > 0.0 && r > 0.0 {
      ProductPositive(l, r);
    }
    if root > 0.0 {
      ProductPositive(root, root');
    }
  }

  lemma CancelFactor(n: real, x: real)
    requires n != 0.0
    ensures n * x / n == x
  {
  }

  /** (p*b - q*a)^2 + (p*r - q^2)*a^2 >= 0, divided by p. */
  lemma CrossTerm(p: real, r: real, q: real, a: real, b: real)
    requires p >= 0.0 && r >= 0.0 && q * q <= p * r
    ensures 2.0 * q * (a * b) <= p * (b * b) + r * (a * a)
  {
    if p == 0.0 {
      SquarePositive(q);
      assert r * (a * a) >= 0.0;
    } else {
      var d := p * (b * b) + r * (a * a) - 2.0 * q * (a * b);
      var u := p * b - q * a;
      assert p * d == u * u + (p * r - q * q) * (a * a) by {
        assert u * u == p * p * (b * b) - 2.0 * p * q * (a * b) + q * q * (a * a);
      }
      assert u * u >= 0.0 && (p * r - q * q) * (a * a) >= 0.0;
      SignOfProduct(p, d);
    }
  }

  lemma CauchyStep(p: real, r: real, q: real, x: real, y: real, d: real, l: real, m: real)
    requires p >= 0.0 && r >= 0.0 && q * q <= p * r
    requires d == x * y + q && l == x * x + p && m == y * y + r
    ensures d * d <= l * m
  {
    CrossTerm(p, r, q, x, y);
    assert d * d == (x * y) * (x * y) + 2.0 * q * (x * y) + q * q;
    assert l * m == (x * y) * (x * y) + r * (x * x) + p * (y * y) + p * r;
  }

  lemma DotUnfold(a: seq<real>, b: seq<real>)
    requires |a| == |b|
    ensures Dot(a, b) == if a == [] then 0.0 else a[0] * b[0] + Dot(a[1..], b[1..])
  {
  }

  /** Cauchy-Schwarz. */
  lemma {:induction false} DotBounded(a: seq<real>, b: seq<real>)
    requires |a| == |b|
    ensures Dot(a, b) * Dot(a, b) <= Dot(a, a) * Dot(b, b)
  {
    hide Dot;
    DotUnfold(a, b);
    DotUnfold(a, a);
    DotUnfold(b, b);
    if a != [] {
      var a', b' := a[1..], b[1..];
      DotBounded(a', b');
      DotSelf(a', a');
      DotSelf(b', b');
      CauchyStep(Dot(a', a'), Dot(b', b'), Dot(a', b'), a[0], b[0], Dot(a, b), Dot(a, a), Dot(b, b));
    }
  }

  lemma RatioBounded(n: real, l: real, r: real, root: real)
    requires n * n <= l * r && IsRoot(root, l * r) && root != 0.0
    ensures -1.0 <= n / root <= 1.0
  {
    SquareGrows(root, n);
    SquareGrows(root, -n);
    NegatedSquare(n);
  }

  /** The correlation, when there is one, lies in [-1, 1]. */
  lemma PearsonInRange(left: seq<real>, right: seq<real>, root: real)
    requires |left| == |right| > 0 && IsRoot(root, SquaredDeviations(left) * SquaredDeviations(right))
    ensures Numerator(left, right) * Numerator(left, right) <= SquaredDeviations(left) * SquaredDeviations(right)
    ensures Pearson(left, right, root).Some? ==> -1.0 <= Pearson(left, right, root).value <= 1.0
  {
    hide Dot;
    DotBounded(Deviations(left), Deviations(right));
    if root != 0.0 {
      RatioBounded(Numerator(left, right), SquaredDeviations(left), SquaredDeviations(right), root);
    }
  }

  ghost predicate Constant(s: seq<real>) {
    forall i, j :: 0 <= i < |s| && 0 <= j < |s| ==> s[i] == s[j]
  }

  lemma {:induction false} SumConstant(s: seq<real>, x: real)
    requires forall i :: 0 <= i < |s| ==> s[i] == x
    ensures Sum(s) == |s| as real * x
  {
    if s != [] {
      SumConstant(s[1..], x);
    }
  }

  lemma DeviationsZeroIff(s: seq<real>)
    requires s != []
    ensures AllZero(Deviations(s)) <==> Constant(s)
  {
    if Constant(s) {
      SumConstant(s, s[0]);
      CancelFactor(|s| as real, s[0]);
    }
    if AllZero(Deviations(s)) {
      forall i, j | 0 <= i < |s| && 0 <= j < |s| ensures s[i] == s[j] {
        assert Deviations(s)[i] == 0.0 && Deviations(s)[j] == 0.0;
      }
    }
  }

  lemma NoSpreadIffConstant(s: seq<real>)
    requires s != []
    ensures SquaredDeviations(s) >= 0.0
    ensures SquaredDeviations(s) == 0.0 <==> Constant(s)
  {
    hide Dot, Sum;
    DotSelf(Deviations(s), Deviations(s));
    DeviationsZeroIff(s);
  }

  /** There is no correlation exactly when one of the lists is constant. */
  lemma PearsonUndefinedIff(left: seq<real>, right: seq<real>, root: real)
    requires |left| == |right| > 0 && IsRoot(root, SquaredDeviations(left) * SquaredDeviations(right))
    ensures Pearson(left, right, root).None? <==> Constant(left) || Constant(right)
  {
    hide Dot;
    NoSpreadIffConstant(left);
    NoSpreadIffConstant(right);
    RootZeroIff(SquaredDeviations(left), SquaredDeviations(right), root, root);
  }

  // ----- Spearman -----

  /** matching/ranking_calibration.py:354-374: rho before rounding; fewer than two pairs have none. */
  function Spearman(scores: seq<real>, labels: seq<real>, root: real): Option<real>
    requires |scores| == |labels|
  {
    if |scores| < 2 then None else Pearson(Ranks(scores), Ranks(labels), root)
  }

  ghost predicate Denominator(scores: seq<real>, labels: seq<real>, root: real)
    requires |scores| == |labels|
  {
    scores != [] ==> IsRoot(root, SquaredDeviations(Ranks(scores)) * SquaredDeviations(Ranks(labels)))
  }

  lemma RanksConstantIff(values: seq<real>)
    ensures Constant(Ranks(values)) <==> Constant(values)
  {
    forall i, j | 0 <= i < |values| && 0 <= j < |values|
      ensures values[i] == values[j] <==> Ranks(values)[i] == Ranks(values)[j]
    {
      RanksRespectOrder(values, i, j);
    }
  }

  /** For two items or more, rho is in [-1, 1] and is missing exactly when the scores or the
      labels are all equal. */
  lemma SpearmanRange(scores: seq<real>, labels: seq<real>, root: real)
    requires |scores| == |labels| && Denominator(scores, labels, root)
    ensures Spearman(scores, labels, root).Some? ==> -1.0 <= Spearman(scores, labels, root).value <= 1.0
    ensures |scores| >= 2 ==>
      (Spearman(scores, labels, root).None? <==> Constant(scores) || Constant(labels))
  {
    hide Dot;
    if |scores| >= 2 {
      PearsonInRange(Ranks(scores), Ranks(labels), root);
      PearsonUndefinedIff(Ranks(scores), Ranks(labels), root);
      RanksConstantIff(scores);
      RanksConstantIff(labels);
    }
  }

  /** No strictly increasing rescaling of the scores or of the labels changes rho. */
  lemma SpearmanRescaling(scores: seq<real>, scores': seq<real>, labels: seq<real>, labels': seq<real>, root: real)
    requires |scores| == |labels| && SameOrder(scores, scores') && SameOrder(labels, labels')
    ensures Spearman(scores, labels, root) == Spearman(scores', labels', root)
    ensures Denominator(scores, labels, root) <==> Denominator(scores', labels', root)
  {
    RescalingKeepsRanks(scores, scores');
    RescalingKeepsRanks(labels, labels');
  }

  /** With equal spreads the denominator is the spread itself. */
  lemma EqualSpread(x: real, y: real, root: real)
    requires x > 0.0 && x == y && IsRoot(root, x * y)
    ensures root == x && x / root == 1.0 && (-x) / root == -1.0
  {
    SquareGrows(root, x);
    SquareGrows(x, root);
  }

  lemma RanksSpread(values: seq<real>)
    requires values != [] && !Constant(values)
    ensures SquaredDeviations(Ranks(values)) > 0.0
  {
    hide Dot;
    RanksConstantIff(values);
    NoSpreadIffConstant(Ranks(values));
  }

  lemma AgreementGivesOne(scores: seq<real>, labels: seq<real>, root: real)
    requires |scores| == |labels| >= 2 && !Constant(scores) && Denominator(scores, labels, root)
    requires SameOrder(scores, labels)
    ensures Spearman(scores, labels, root) == Some(1.0)
  {
    hide Dot, Rank;
    RanksSpread(scores);
    RescalingKeepsRanks(scores, labels);
    PearsonOfSpread(Ranks(scores), Ranks(labels), root);
  }

  lemma PearsonOfSpread(left: seq<real>, right: seq<real>, root: real)
    requires |left| == |right| > 0 && SquaredDeviations(left) > 0.0
    requires SquaredDeviations(left) == SquaredDeviations(right)
    requires IsRoot(root, SquaredDeviations(left) * SquaredDeviations(right))
    ensures Numerator(left, right) == SquaredDeviations(left) ==> Pearson(left, right, root) == Some(1.0)
    ensures Numerator(left, right) == -SquaredDeviations(left) ==> Pearson(left, right, root) == Some(-1.0)
  {
    EqualSpread(SquaredDeviations(left), SquaredDeviations(right), root);
  }

  lemma ReversalGivesMinusOne(scores: seq<real>, labels: seq<real>, root: real)
    requires |scores| == |labels| >= 2 && !Constant(scores) && Denominator(scores, labels, root)
    requires ReverseOrder(scores, labels)
    ensures Spearman(scores, labels, root) == Some(-1.0)
  {
    hide Dot, Rank;
    RanksSpread(scores);
    ReversalNegatesSpread(scores, labels);
    PearsonOfSpread(Ranks(scores), Ranks(labels), root);
  }

  lemma ReversalNegatesSpread(a: seq<real>, b: seq<real>)
    requires ReverseOrder(a, b) && a != []
    ensures Numerator(Ranks(a), Ranks(b)) == -SquaredDeviations(Ranks(a))
    ensures SquaredDeviations(Ranks(b)) == SquaredDeviations(Ranks(a))
  {
    hide Dot, Rank;
    ReversalNegatesDeviations(a, b);
    DotNegate(Deviations(Ranks(a)), Deviations(Ranks(b)));
  }

  lemma MeanRank(values: seq<real>)
    requires values != []
    ensures Mean(Ranks(values)) == (|values| + 1) as real / 2.0
  {
    RanksAddUp(values);
    var n := |values|;
    assert (n * (n + 1)) as real == n as real * (n + 1) as real;
    DivideOut(n as real, (n + 1) as real);
  }

  lemma DivideOut(n: real, m: real)
    requires n != 0.0
    ensures n * m / 2.0 / n == m / 2.0
  {
  }

  lemma ReversalNegatesDeviations(a: seq<real>, b: seq<real>)
    requires ReverseOrder(a, b) && a != []
    ensures forall i :: 0 <= i < |a| ==> Deviations(Ranks(b))[i] == -Deviations(Ranks(a))[i]
  {
    MeanRank(a);
    MeanRank(b);
    forall i | 0 <= i < |a| ensures Deviations(Ranks(b))[i] == -Deviations(Ranks(a))[i] {
      ReversalReflectsRanks(a, b, i);
    }
  }

  lemma {:induction false} DotNegate(a: seq<real>, b: seq<real>)
    requires |a| == |b| && forall i :: 0 <= i < |a| ==> b[i] == -a[i]
    ensures Dot(a, b) == -Dot(a, a) && Dot(b, b) == Dot(a, a)
  {
    if a != [] {
      DotNegate(a[1..], b[1..]);
    }
  }

  // ----- when the correlation is extreme -----

  lemma CombineStep(p: real, q: real, x: real, y: real, bb: real, ab: real, aa: real)
    ensures (p * y - q * x) * (p * y - q * x) + (p * p * bb - 2.0 * p * q * ab + q * q * aa)
         == p * p * (y * y + bb) - 2.0 * p * q * (x * y + ab) + q * q * (x * x + aa)
  {
  }

  /** The square of p*b - q*a, expanded. */
  lemma {:induction false} DotCombine(a: seq<real>, b: seq<real>, c: seq<real>, p: real, q: real)
    requires |a| == |b| == |c| && forall i :: 0 <= i < |c| ==> c[i] == p * b[i] - q * a[i]
    ensures Dot(c, c) == p * p * Dot(b, b) - 2.0 * p * q * Dot(a, b) + q * q * Dot(a, a)
  {
    hide Dot;
    DotUnfold(a, a);
    DotUnfold(a, b);
    DotUnfold(b, b);
    DotUnfold(c, c);
    if c != [] {
      var a', b' := a[1..], b[1..];
      DotCombine(a', b', c[1..], p, q);
      CombineStep(p, q, a[0], b[0], Dot(b', b'), Dot(a', b'), Dot(a', a'));
    }
  }

  lemma Cancels(l: real, r: real, n: real)
    requires n * n == l * r
    ensures l * l * r - 2.0 * l * n * n + n * n * l == 0.0
  {
    assert l * l * r == l * (l * r) && 2.0 * l * n * n == 2.0 * (l * (n * n)) && n * n * l == l * (n * n);
  }

  /** Cauchy-Schwarz holds with equality only for proportional lists. */
  lemma Proportional(a: seq<real>, b: seq<real>)
    requires |a| == |b| && Dot(a, b) * Dot(a, b) == Dot(a, a) * Dot(b, b)
    ensures forall i :: 0 <= i < |a| ==> Dot(a, a) * b[i] == Dot(a, b) * a[i]
  {
    hide Dot;
    var l, n := Dot(a, a), Dot(a, b);
    var c := seq(|a|, (i: int) requires 0 <= i < |a| => l * b[i] - n * a[i]);
    DotCombine(a, b, c, l, n);
    Cancels(l, Dot(b, b), n);
    DotSelf(c, c);
    assert forall i :: 0 <= i < |a| ==> c[i] == 0.0;
  }

  lemma SameSign(l: real, n: real, x: real, y: real)
    requires l > 0.0 && l * y == n * x
    ensures n > 0.0 ==> (x > 0.0 <==> y > 0.0)
    ensures n < 0.0 ==> (x > 0.0 <==> y < 0.0)
  {
    SignCases(l, y);
    SignCases(n, x);
    SignCases(-n, x);
    assert (-n) * x == -(n * x);
  }

  lemma SignCases(p: real, d: real)
    ensures p > 0.0 ==> (p * d > 0.0 <==> d > 0.0) && (p * d < 0.0 <==> d < 0.0)
  {
    if p > 0.0 {
      SignOfProduct(p, d);
      if d > 0.0 {
        ProductPositive(p, d);
      } else if d == 0.0 {
        ZeroFactor(p, d);
      }
    }
  }

  /** An extreme correlation means that the deviations agree, or disagree, in every comparison. */
  lemma ExtremeOrders(left: seq<real>, right: seq<real>, i: nat, j: nat)
    requires |left| == |right| && i < |left| && j < |left|
    requires Numerator(left, right) * Numerator(left, right) == SquaredDeviations(left) * SquaredDeviations(right)
    requires SquaredDeviations(left) > 0.0
    ensures Numerator(left, right) > 0.0 ==> (left[i] < left[j] <==> right[i] < right[j])
    ensures Numerator(left, right) < 0.0 ==> (left[i] < left[j] <==> right[j] < right[i])
  {
    hide Dot, Mean;
    var a, b, l, n := Deviations(left), Deviations(right), SquaredDeviations(left), Numerator(left, right);
    Proportional(a, b);
    assert l * b[i] == n * a[i] && l * b[j] == n * a[j];
    Difference(l, b[j], b[i]);
    Difference(n, a[j], a[i]);
    SameSign(l, n, a[j] - a[i], b[j] - b[i]);
  }

  lemma Difference(p: real, x: real, y: real)
    ensures p * (x - y) == p * x - p * y
  {
  }

  lemma ExtremeRatio(n: real, root: real, x: real)
    requires root > 0.0 && IsRoot(root, x)
    ensures n / root == 1.0 ==> n > 0.0 && n * n == x
    ensures n / root == -1.0 ==> n < 0.0 && n * n == x
  {
    assert n == n / root * root;
    NegatedSquare(root);
  }

  /** The numerator and the spread behind an extreme rho. */
  lemma ExtremeSpearman(scores: seq<real>, labels: seq<real>, root: real)
    requires |scores| == |labels| >= 2 && Denominator(scores, labels, root)
    requires Spearman(scores, labels, root) in {Some(1.0), Some(-1.0)}
    ensures var left, right := Ranks(scores), Ranks(labels);
      && Numerator(left, right) * Numerator(left, right) == SquaredDeviations(left) * SquaredDeviations(right)
      && SquaredDeviations(left) > 0.0 && !Constant(scores)
      && (Spearman(scores, labels, root) == Some(1.0) ==> Numerator(left, right) > 0.0)
      && (Spearman(scores, labels, root) == Some(-1.0) ==> Numerator(left, right) < 0.0)
  {
    hide Dot, Rank, Numerator, SquaredDeviations;
    var left, right := Ranks(scores), Ranks(labels);
    SpearmanRange(scores, labels, root);
    RanksSpread(scores);
    ExtremeRatio(Numerator(left, right), root, SquaredDeviations(left) * SquaredDeviations(right));
  }

  /** Rho is 1 exactly if the scores distinguish items and order them as the labels do. */
  lemma SpearmanAgreement(scores: seq<real>, labels: seq<real>, root: real)
    requires |scores| == |labels| >= 2 && Denominator(scores, labels, root)
    ensures Spearman(scores, labels, root) == Some(1.0) <==> !Constant(scores) && SameOrder(scores, labels)
  {
    hide Dot, Rank, Numerator, SquaredDeviations, Spearman, Denominator;
    if !Constant(scores) && SameOrder(scores, labels) {
      AgreementGivesOne(scores, labels, root);
    }
    if Spearman(scores, labels, root) == Some(1.0) {
      ExtremeSpearman(scores, labels, root);
      forall i, j | 0 <= i < |scores| && 0 <= j < |scores| ensures scores[i] < scores[j] <==> labels[i] < labels[j] {
        ExtremeOrders(Ranks(scores), Ranks(labels), i, j);
        RanksRespectOrder(scores, i, j);
        RanksRespectOrder(labels, i, j);
      }
    }
  }

  /** Rho is -1 exactly if they order them the other way round. */
  lemma SpearmanReversal(scores: seq<real>, labels: seq<real>, root: real)
    requires |scores| == |labels| >= 2 && Denominator(scores, labels, root)
    ensures Spearman(scores, labels, root) == Some(-1.0) <==> !Constant(scores) && ReverseOrder(scores, labels)
  {
    hide Dot, Rank, Numerator, SquaredDeviations, Spearman, Denominator;
    if !Constant(scores) && ReverseOrder(scores, labels) {
      ReversalGivesMinusOne(scores, labels, root);
    }
    if Spearman(scores, labels, root) == Some(-1.0) {
      ExtremeSpearman(scores, labels, root);
      forall i, j | 0 <= i < |scores| && 0 <= j < |scores| ensures scores[i] < scores[j] <==> labels[j] < labels[i] {
        ExtremeOrders(Ranks(scores), Ranks(labels), i, j);
        RanksRespectOrder(scores, i, j);
        RanksRespectOrder(labels, j, i);
      }
    }
  }
}
