/**
 * B-series foundation clustering: first-fit assignment, where an instance is
 * scored against a cluster by a weighted sum of "order terms", the mean over
 * the k-member subsets of the cluster of the product of the instance's
 * distances to them, for k = 1 .. targetOrder.
 */
module BSeries {
  import opened JavaInt
  import opened Sorting
  import opened Clusters

  const MAX_ORDER: int := 4

  /** `ORDER_COEFFICIENTS[k - 1]`: the literals 1.0, 0.5, 0.16667, 0.04167. */
  function Coefficient(k: int): real
    requires 1 <= k <= MAX_ORDER
  {
    if k == 1 then 1.0 else if k == 2 then 0.5 else if k == 3 then 0.16667 else 0.04167
  }

  function Fact(k: nat): (r: nat)
    ensures r >= 1
  {
    if k == 0 then 1 else k * Fact(k - 1)
  }

  /** The coefficients are the decimal roundings of 1/k!, each a little above it. */
  lemma CoefficientsNearFactorial(k: int)
    requires 1 <= k <= MAX_ORDER
    ensures 0.0 <= Coefficient(k) * (Fact(k) as real) - 1.0 < 0.0001
  {
    assert Fact(1) == 1 && Fact(2) == 2 && Fact(3) == 6 && Fact(4) == 24;
  }

  /** `Math.min(Math.max(order, 1), MAX_ORDER)`. */
  function Clamp(order: int): (r: int)
    ensures 1 <= r <= MAX_ORDER
    ensures 1 <= order <= MAX_ORDER ==> r == order
    ensures order < 1 ==> r == 1
    ensures order > MAX_ORDER ==> r == MAX_ORDER
  {
    var atLeastOne := if order > 1 then order else 1;
    if atLeastOne < MAX_ORDER then atLeastOne else MAX_ORDER
  }

  // ------------------------------------------------------------ order terms

  /** The candidate's distance to each member, in member order. */
  function Distances(x: Instance, ms: seq<Instance>, dist: Distance): (ds: seq<real>)
    ensures |ds| == |ms| && forall i | 0 <= i < |ms| :: ds[i] == dist(x, ms[i])
  {
    seq(|ms|, i requires 0 <= i < |ms| => dist(x, ms[i]))
  }

  /**
   * The sum, over the index sets lo <= i1 < ... < ik < |ds|, of the product
   * ds[i1] * ... * ds[ik]: what the k nested loops of an order-k term add up.
   */
  function Products(k: nat, ds: seq<real>, lo: nat): real
    decreases k, |ds| - lo
  {
    if k == 0 then 1.0
    else if lo >= |ds| then 0.0
    else ds[lo] * Products(k - 1, ds, lo + 1) + Products(k, ds, lo + 1)
  }

  /** n * (n - 1) * ... * (n - k + 1), multiplied from the left. */
  function Falling(n: int, k: nat): int
  {
    if k == 0 then 1 else Falling(n, k - 1) * (n - k + 1)
  }

  /** The same product in `int` arithmetic: every multiplication wraps to 32 bits. */
  function WrappedFalling(n: int, k: nat): int
    requires k >= 1
  {
    if k == 1 then n else Wrap(WrappedFalling(n, k - 1) * (n - k + 1))
  }

  /**
   * The number of combinations as the order-2, 3 and 4 terms compute it:
   * `n * (n - 1) * ... / k!` in `int` arithmetic.
   */
  function Combinations(n: int, k: int): int
    requires 2 <= k <= MAX_ORDER
  {
    Div(WrappedFalling(n, k), Fact(k))
  }

  /**
   * `calculateOrderkTerm`: 0 for fewer than k members; otherwise the products
   * sum divided by the member count (order 1) or by `Combinations`, and 0 when
   * that count is not positive.
   */
  function Term(k: int, ds: seq<real>): real
    requires 1 <= k <= MAX_ORDER
  {
    if |ds| < k then 0.0
    else if k == 1 then Products(1, ds, 0) / (|ds| as real)
    else
      var count := Combinations(|ds|, k);
      if count > 0 then Products(k, ds, 0) / (count as real) else 0.0
  }

  /** The series before taking its absolute value: the weighted terms of orders 1 .. order. */
  function Series(ds: seq<real>, order: int): real
    requires order <= MAX_ORDER
    decreases order
  {
    if order <= 0 then 0.0 else Series(ds, order - 1) + Coefficient(order) * Term(order, ds)
  }

  lemma SeriesStep(ds: seq<real>, order: int, t: real)
    requires 1 <= order <= MAX_ORDER && t == Term(order, ds)
    ensures Series(ds, order) == Series(ds, order - 1) + Coefficient(order) * t
  {
  }

  /** `calculateBSeriesValue(x, c)` for a cluster with members `ms`. */
  function Value(x: Instance, ms: seq<Instance>, dist: Distance, order: int): (v: real)
    requires order <= MAX_ORDER
    ensures v >= 0.0
    ensures v == Series(Distances(x, ms, dist), order) || v == -Series(Distances(x, ms, dist), order)
  {
    var s := Series(Distances(x, ms, dist), order);
    if s < 0.0 then -s else s
  }

  /** `isCandidate`: an empty cluster accepts; otherwise the value must not exceed the threshold. */
  predicate Candidate(x: Instance, ms: seq<Instance>, dist: Distance, order: int, threshold: real)
    requires order <= MAX_ORDER
  {
    ms == [] || Value(x, ms, dist, order) <= threshold
  }

  // ------------------------------------------------------ binomial counting

  /** C(n, k) by Pascal's rule. */
  function Binomial(n: nat, k: nat): nat
  {
    if k == 0 then 1 else if n == 0 then 0 else Binomial(n - 1, k - 1) + Binomial(n - 1, k)
  }

  function Pow(d: real, k: nat): real
  {
    if k == 0 then 1.0 else d * Pow(d, k - 1)
  }

  lemma {:induction false} FallingHead(n: int, k: nat)
    requires k >= 1
    ensures Falling(n, k) == n * Falling(n - 1, k - 1)
  {
    if k > 1 {
      FallingHead(n, k - 1);
      calc {
        Falling(n, k);
        Falling(n, k - 1) * (n - k + 1);
        n * Falling(n - 1, k - 2) * (n - k + 1);
        n * (Falling(n - 1, k - 2) * ((n - 1) - (k - 1) + 1));
        n * Falling(n - 1, k - 1);
      }
    }
  }

  /** k! * C(n, k) is the falling product n (n - 1) ... (n - k + 1). */
  lemma {:induction false} BinomialFalling(n: nat, k: nat)
    ensures Binomial(n, k) * Fact(k) == Falling(n, k)
    decreases n, k
  {
    if k > 0 {
      if n == 0 {
        FallingHead(0, k);
      } else {
        BinomialFalling(n - 1, k - 1);
        BinomialFalling(n - 1, k);
        FallingHead(n, k);
        var f := Falling(n - 1, k - 1);
        assert Falling(n - 1, k) == f * (n - k);
        PascalStep(Binomial(n - 1, k - 1), Binomial(n - 1, k), Fact(k - 1), f, n, k);
      }
    }
  }

  lemma PascalStep(a: int, b: int, fk: int, f: int, n: int, k: int)
    requires a * fk == f && b * (k * fk) == f * (n - k)
    ensures (a + b) * (k * fk) == n * f
  {
    calc {
      (a + b) * (k * fk);
      a * (k * fk) + b * (k * fk);
      { assert a * (k * fk) == k * (a * fk); }
      k * f + f * (n - k);
      n * f;
    }
  }

  /** With k <= n every factor of the falling product is positive. */
  lemma {:induction false} FallingPositive(n: int, k: nat)
    requires k <= n
    ensures Falling(n, k) >= 1
  {
    if k > 0 {
      FallingPositive(n, k - 1);
      MulPositive(Falling(n, k - 1), n - k + 1);
    }
  }

  lemma MulPositive(a: int, b: int)
    requires a >= 1 && b >= 1
    ensures a * b >= 1
  {
  }

  lemma MulMono(a: int, b: int, c: int, d: int)
    requires 0 <= a <= c && 0 <= b <= d
    ensures a * b <= c * d
  {
    assert a * b <= c * b;
    assert c * b <= c * d;
  }

  /** Up to 216 members the counts do not overflow: `WrappedFalling` is the exact product. */
  lemma {:induction false} FallingFits(n: int, k: nat)
    requires 1 <= k <= MAX_ORDER && k <= n <= 216
    ensures 1 <= Falling(n, k) <= Falling(216, k)
    ensures WrappedFalling(n, k) == Falling(n, k)
  {
    FallingPositive(n, k);
    if k == 1 {
      assert Falling(n, 1) == n && Falling(216, 1) == 216;
    } else {
      FallingFits(n, k - 1);
      FallingPositive(n, k - 1);
      MulMono(Falling(n, k - 1), n - k + 1, Falling(216, k - 1), 216 - k + 1);
      assert Falling(216, 4) == 2116828080 by {
        assert Falling(216, 2) == 46440 && Falling(216, 3) == 9938160;
      }
      assert Falling(216, k) <= MAX_VALUE;
    }
  }

  /** Up to 216 members, `Combinations(n, k)` is C(n, k). */
  lemma CombinationsExact(n: int, k: int)
    requires 2 <= k <= MAX_ORDER && k <= n <= 216
    ensures Combinations(n, k) == Binomial(n, k) >= 1
  {
    FallingFits(n, k);
    BinomialFalling(n, k);
    var b, f := Binomial(n, k), Fact(k);
    assert b * f == Falling(n, k) >= 1;
    DivExact(b, f);
    assert Combinations(n, k) == Div(b * f, f);
  }

  lemma DivExact(b: nat, f: nat)
    requires f > 0
    ensures Div(b * f, f) == b
  {
    var a := b * f;
    assert a >= 0;
    var q, r := a / f, a % f;
    assert a == q * f + r && 0 <= r < f;
    MulCancel(b, q, f, r);
  }

  /** A multiple of `f` that equals another multiple plus a remainder below `f` has the same factor. */
  lemma MulCancel(b: nat, q: nat, f: int, r: int)
    requires f > 0 && 0 <= r < f && b * f == q * f + r
    ensures b == q
  {
    if b > q {
      MulMono(q + 1, f, b, f);
      assert false;
    } else if b < q {
      MulMono(b + 1, f, q, f);
      assert false;
    }
  }

  /** At 217 members the order-4 count overflows and is negative, so the order-4 term is 0. */
  lemma Order4Overflow(ds: seq<real>)
    requires |ds| == 217
    ensures Combinations(217, 4) < 0
    ensures Term(4, ds) == 0.0
  {
    assert WrappedFalling(217, 2) == 46872;
    assert WrappedFalling(217, 3) == 10077480;
    assert WrappedFalling(217, 4) == 2156580720 - TWO_32;
  }

  /** `n` copies of `x` added up: n * x without a mixed integer-real product. */
  function Times(n: nat, x: real): real
  {
    if n == 0 then 0.0 else Times(n - 1, x) + x
  }

  lemma {:induction false} TimesAdd(a: nat, b: nat, x: real)
    ensures Times(a, x) + Times(b, x) == Times(a + b, x)
    decreases b
  {
    if b > 0 {
      TimesAdd(a, b - 1, x);
    }
  }

  lemma {:induction false} TimesScale(n: nat, d: real, x: real)
    ensures d * Times(n, x) == Times(n, d * x)
  {
    if n > 0 {
      TimesScale(n - 1, d, x);
    }
  }

  lemma {:induction false} TimesMean(n: nat, x: real)
    requires n > 0
    ensures Times(n, x) / (n as real) == x
  {
    TimesIsProduct(n, x);
  }

  lemma {:induction false} TimesIsProduct(n: nat, x: real)
    ensures Times(n, x) == (n as real) * x
  {
    if n > 0 {
      TimesIsProduct(n - 1, x);
    }
  }

  lemma ScaleTimes(b: nat, d: real, k: nat, p: real)
    requires k > 0 && p == Times(b, Pow(d, k - 1))
    ensures d * p == Times(b, Pow(d, k))
  {
    var q := Pow(d, k - 1);
    assert Pow(d, k) == d * q;
    TimesScale(b, d, q);
    assert d * Times(b, q) == Times(b, d * q);
  }

  /** When every distance is `d`, the products sum is C(n, k) copies of d^k. */
  lemma {:induction false} ProductsOfEqual(k: nat, ds: seq<real>, lo: nat, d: real)
    requires lo <= |ds| && forall i | 0 <= i < |ds| :: ds[i] == d
    ensures Products(k, ds, lo) == Times(Binomial(|ds| - lo, k), Pow(d, k))
    decreases k, |ds| - lo
  {
    if k == 0 {
      assert Binomial(|ds| - lo, k) == 1 && Pow(d, k) == 1.0;
      assert Times(1, 1.0) == Times(0, 1.0) + 1.0;
    } else if lo == |ds| {
      assert Binomial(0, k) == 0;
    } else {
      var n1 := |ds| - (lo + 1);
      var b1, b2 := Binomial(n1, k - 1), Binomial(n1, k);
      var p1, p2 := Products(k - 1, ds, lo + 1), Products(k, ds, lo + 1);
      assert Products(k, ds, lo) == d * p1 + p2 by {
        assert ds[lo] == d;
      }
      assert Binomial(n1 + 1, k) == b1 + b2;
      ProductsOfEqual(k - 1, ds, lo + 1, d);
      ProductsOfEqual(k, ds, lo + 1, d);
      ScaleTimes(b1, d, k, p1);
      TimesAdd(b1, b2, Pow(d, k));
      assert d * p1 + p2 == Times(b1 + b2, Pow(d, k));
    }
  }

  /**
   * Each order term is a mean: when every distance is `d` (and the count does
   * not overflow), the order-k term is d^k.
   */
  lemma TermOfEqualDistances(k: int, ds: seq<real>, d: real)
    requires 1 <= k <= MAX_ORDER && k <= |ds| <= 216
    requires forall i | 0 <= i < |ds| :: ds[i] == d
    ensures Term(k, ds) == Pow(d, k)
  {
    ProductsOfEqual(k, ds, 0, d);
    var b := Binomial(|ds|, k);
    if k == 1 {
      BinomialFalling(|ds|, 1);
      assert b == |ds|;
    } else {
      CombinationsExact(|ds|, k);
    }
    TimesMean(b, Pow(d, k));
  }

  /** Against a one-member cluster the order-1 term is the distance to that member. */
  lemma SingleMemberOrder1(x: Instance, m: Instance, dist: Distance)
    ensures Term(1, Distances(x, [m], dist)) == dist(x, m)
  {
    var ds := Distances(x, [m], dist);
    assert Products(1, ds, 1) == 0.0;
    assert Products(0, ds, 1) == 1.0;
  }

  /** Distances 2 and 3 at order 2: 1.0 * 2.5 + 0.5 * 6 = 5.5. */
  lemma TwoMemberExample(x: Instance, m1: Instance, m2: Instance, dist: Distance)
    requires dist(x, m1) == 2.0 && dist(x, m2) == 3.0
    ensures Term(1, Distances(x, [m1, m2], dist)) == 2.5
    ensures Term(2, Distances(x, [m1, m2], dist)) == 6.0
    ensures Value(x, [m1, m2], dist, 2) == 5.5
  {
    var ds := Distances(x, [m1, m2], dist);
    assert ds == [2.0, 3.0];
    assert Products(1, ds, 1) == 3.0 by {
      assert Products(1, ds, 2) == 0.0 && Products(0, ds, 2) == 1.0;
    }
    assert Products(1, ds, 0) == 5.0 by {
      assert Products(0, ds, 1) == 1.0;
    }
    assert Products(2, ds, 0) == 6.0 by {
      assert Products(2, ds, 1) == 0.0 by {
        assert Products(2, ds, 2) == 0.0 && Products(1, ds, 2) == 0.0;
      }
    }
    assert Combinations(2, 2) == 1;
  }

  /** The counts as the order-2, 3 and 4 terms write them out. */
  lemma CountsAsWritten(n: int)
    ensures Combinations(n, 2) == Div(Wrap(n * (n - 1)), 2)
    ensures Combinations(n, 3) == Div(Wrap(Wrap(n * (n - 1)) * (n - 2)), 6)
    ensures Combinations(n, 4) == Div(Wrap(Wrap(Wrap(n * (n - 1)) * (n - 2)) * (n - 3)), 24)
  {
    assert Fact(2) == 2 && Fact(3) == 6 && Fact(4) == 24;
    assert WrappedFalling(n, 2) == Wrap(n * (n - 1));
  }

  /**
   * What a nest of `r` loops adds when its outer index runs over [lo, hi) and
   * every product it adds is multiplied by `p`: the running sum of the
   * order-r loops of `calculateOrderkTerm`.
   */
  function NestSum(r: nat, ds: seq<real>, p: real, lo: nat, hi: nat): real
    requires 1 <= r && hi <= |ds|
    decreases r, 1, hi
  {
    if hi <= lo then 0.0 else NestSum(r, ds, p, lo, hi - 1) + NestStep(r, ds, p, hi - 1)
  }

  /** What one value `i` of the outer index of an `r`-loop nest adds. */
  function NestStep(r: nat, ds: seq<real>, p: real, i: nat): real
    requires 1 <= r && i < |ds|
    decreases r, 0, 0
  {
    if r == 1 then p * ds[i] else NestSum(r - 1, ds, p * ds[i], i + 1, |ds|)
  }

  /** One more outer index at the end of a loop nest. */
  lemma NestSumSnoc(r: nat, ds: seq<real>, p: real, lo: nat, hi: nat)
    requires 1 <= r && lo <= hi < |ds|
    ensures NestSum(r, ds, p, lo, hi + 1) ==
      NestSum(r, ds, p, lo, hi) + (if r == 1 then p * ds[hi] else NestSum(r - 1, ds, p * ds[hi], hi + 1, |ds|))
  {
  }

  /** Peeling the first outer index off a loop nest. */
  lemma {:induction false} NestSumFront(r: nat, ds: seq<real>, p: real, lo: nat, hi: nat)
    requires 1 <= r && lo < hi <= |ds|
    ensures NestSum(r, ds, p, lo, hi) == NestStep(r, ds, p, lo) + NestSum(r, ds, p, lo + 1, hi)
    decreases hi
  {
    if hi - 1 > lo {
      NestSumFront(r, ds, p, lo, hi - 1);
    }
  }

  /** A complete loop nest adds `p` times the products sum. */
  lemma {:induction false} NestSumProducts(r: nat, ds: seq<real>, p: real, lo: nat)
    requires 1 <= r && lo <= |ds|
    ensures NestSum(r, ds, p, lo, |ds|) == p * Products(r, ds, lo)
    decreases r, |ds| - lo
  {
    if lo < |ds| {
      NestSumFront(r, ds, p, lo, |ds|);
      NestSumProducts(r, ds, p, lo + 1);
      var rest := Products(r - 1, ds, lo + 1);
      if r == 1 {
        assert rest == 1.0;
      } else {
        NestSumProducts(r - 1, ds, p * ds[lo], lo + 1);
      }
      assert p * ds[lo] * rest + p * Products(r, ds, lo + 1) == p * (ds[lo] * rest + Products(r, ds, lo + 1));
    }
  }

  // -------------------------------------------------------------- doCluster

  /** The first cluster from index `i` on that accepts `x`, or |ps| when none does. */
  function FirstFit(ps: seq<seq<Instance>>, x: Instance, i: nat, dist: Distance, order: int, threshold: real)
    : (r: nat)
    requires i <= |ps| && order <= MAX_ORDER
    decreases |ps| - i
    ensures i <= r <= |ps|
    ensures r < |ps| ==> Candidate(x, ps[r], dist, order, threshold)
    ensures forall j | i <= j < r :: !Candidate(x, ps[j], dist, order, threshold)
  {
    if i == |ps| then |ps|
    else if Candidate(x, ps[i], dist, order, threshold) then i
    else FirstFit(ps, x, i + 1, dist, order, threshold)
  }

  /** One instance: into the first accepting cluster in creation order, else into a new cluster. */
  function Place(ps: seq<seq<Instance>>, x: Instance, dist: Distance, order: int, threshold: real)
    : seq<seq<Instance>>
    requires order <= MAX_ORDER
  {
    var i := FirstFit(ps, x, 0, dist, order, threshold);
    if i < |ps| then AddTo(ps, i, x) else ps + [[x]]
  }

  /** The clusters, in creation order, after the instances `xs`. */
  function Assign(xs: seq<Instance>, dist: Distance, order: int, threshold: real): seq<seq<Instance>>
    requires order <= MAX_ORDER
  {
    if xs == [] then []
    else Place(Assign(xs[..|xs| - 1], dist, order, threshold), xs[|xs| - 1], dist, order, threshold)
  }

  lemma AssignStep(xs: seq<Instance>, n: nat, dist: Distance, order: int, threshold: real)
    requires n < |xs| && order <= MAX_ORDER
    ensures Assign(xs[..n + 1], dist, order, threshold) ==
      Place(Assign(xs[..n], dist, order, threshold), xs[n], dist, order, threshold)
  {
    assert xs[..n + 1][..n] == xs[..n];
  }

  /** One placement adds `x` to the members, keeps every cluster non-empty and opens at most one cluster. */
  lemma PlaceInvariant(ps: seq<seq<Instance>>, x: Instance, dist: Distance, order: int, threshold: real)
    requires order <= MAX_ORDER && forall j | 0 <= j < |ps| :: ps[j] != []
    ensures AllMembers(Place(ps, x, dist, order, threshold)) == AllMembers(ps) + multiset{x}
    ensures forall j | 0 <= j < |Place(ps, x, dist, order, threshold)| :: Place(ps, x, dist, order, threshold)[j] != []
    ensures |Place(ps, x, dist, order, threshold)| <= |ps| + 1
  {
    var i := FirstFit(ps, x, 0, dist, order, threshold);
    if i < |ps| {
      AllMembersUpdate(ps, i, x);
    } else {
      assert (ps + [[x]])[..|ps|] == ps;
    }
  }

  /** Every instance lands in exactly one cluster, no cluster is empty, and there are at most |xs| clusters. */
  lemma {:induction false} AssignInvariant(xs: seq<Instance>, dist: Distance, order: int, threshold: real)
    requires order <= MAX_ORDER
    ensures AllMembers(Assign(xs, dist, order, threshold)) == multiset(xs)
    ensures forall j | 0 <= j < |Assign(xs, dist, order, threshold)| :: Assign(xs, dist, order, threshold)[j] != []
    ensures |Assign(xs, dist, order, threshold)| <= |xs|
  {
    if xs != [] {
      var init, x := xs[..|xs| - 1], xs[|xs| - 1];
      AssignInvariant(init, dist, order, threshold);
      PlaceInvariant(Assign(init, dist, order, threshold), x, dist, order, threshold);
      MultisetSnoc(xs);
    }
  }

  /** The members of `ms` other than `x`, in order: the temporary cluster of `calculateBSeriesValueForInstance`. */
  function Without(ms: seq<Instance>, x: Instance): (r: seq<Instance>)
    ensures x !in r
    ensures multiset(r) == multiset(ms)[x := 0]
  {
    if ms == [] then []
    else
      var init, last := ms[..|ms| - 1], ms[|ms| - 1];
      MultisetSnoc(ms);
      if last == x then Without(init, x) else Without(init, x) + [last]
  }

  /** The sort key of `optimizeBSeriesExpansion`: a member's value against the cluster without it. */
  function InstanceKey(ms: seq<Instance>, dist: Distance, order: int): Instance -> real
    requires order <= MAX_ORDER
  {
    (m: Instance) => Value(m, Without(ms, m), dist, order)
  }

  /** The member order `optimizeBSeriesExpansion` produces. */
  function Optimized(ms: seq<Instance>, dist: Distance, order: int): seq<Instance>
    requires order <= MAX_ORDER
  {
    if |ms| <= order then ms else Sort(ms, ByKey(InstanceKey(ms, dist, order)))
  }

  /**
   * `optimizeBSeriesExpansion` keeps the members; it leaves at most `order`
   * of them as they are, and otherwise orders them by ascending value, equal
   * values keeping their order.
   */
  lemma OptimizedSpec(ms: seq<Instance>, dist: Distance, order: int)
    requires order <= MAX_ORDER
    ensures multiset(Optimized(ms, dist, order)) == multiset(ms)
    ensures |ms| <= order ==> Optimized(ms, dist, order) == ms
    ensures |ms| > order ==> forall i, j | 0 <= i < j < |ms| ::
      InstanceKey(ms, dist, order)(Optimized(ms, dist, order)[i]) <= InstanceKey(ms, dist, order)(Optimized(ms, dist, order)[j])
    ensures forall e | e in ms ::
      Ties(Optimized(ms, dist, order), e, ByKey(InstanceKey(ms, dist, order))) == Ties(ms, e, ByKey(InstanceKey(ms, dist, order)))
  {
    var key := InstanceKey(ms, dist, order);
    if |ms| > order {
      SortByKey(ms, key);
      ByKeyPreorder(ms, key);
      forall e | e in ms ensures Ties(Optimized(ms, dist, order), e, ByKey(key)) == Ties(ms, e, ByKey(key)) {
        SortStable(ms, e, ByKey(key), ms);
      }
    }
  }

  /** The member list a kept cluster ends with. */
  function Finished(p: seq<Instance>, optimize: bool, dist: Distance, order: int): seq<Instance>
    requires order <= MAX_ORDER
  {
    if optimize then Optimized(p, dist, order) else p
  }

  /** What the final loop of `doCluster` has collected after the first `k` clusters. */
  function Collected(ps: seq<seq<Instance>>, k: nat, optimize: bool, dist: Distance, order: int): seq<seq<Instance>>
    requires k <= |ps| && order <= MAX_ORDER
  {
    if k == 0 then []
    else if ps[k - 1] == [] then Collected(ps, k - 1, optimize, dist, order)
    else Collected(ps, k - 1, optimize, dist, order) + [Finished(ps[k - 1], optimize, dist, order)]
  }

  /** With no empty cluster, the final loop keeps every cluster, in order. */
  lemma {:induction false} CollectedKeepsAll(ps: seq<seq<Instance>>, k: nat, optimize: bool, dist: Distance, order: int)
    requires k <= |ps| && order <= MAX_ORDER
    requires forall j | 0 <= j < |ps| :: ps[j] != []
    ensures |Collected(ps, k, optimize, dist, order)| == k
    ensures forall j | 0 <= j < k :: Collected(ps, k, optimize, dist, order)[j] == Finished(ps[j], optimize, dist, order)
  {
    if k > 0 {
      CollectedKeepsAll(ps, k - 1, optimize, dist, order);
    }
  }

  /** The final loop loses and duplicates no instance. */
  lemma {:induction false} CollectedMembers(ps: seq<seq<Instance>>, k: nat, optimize: bool, dist: Distance, order: int)
    requires k <= |ps| && order <= MAX_ORDER
    ensures AllMembers(Collected(ps, k, optimize, dist, order)) == AllMembers(ps[..k])
  {
    if k > 0 {
      CollectedMembers(ps, k - 1, optimize, dist, order);
      var prev := Collected(ps, k - 1, optimize, dist, order);
      var p := ps[k - 1];
      assert ps[..k] == ps[..k - 1] + [p];
      AllMembersAppend(ps[..k - 1], [p]);
      assert AllMembers([p]) == multiset(p);
      if p != [] {
        OptimizedSpec(p, dist, order);
        var q := Finished(p, optimize, dist, order);
        AllMembersAppend(prev, [q]);
        assert AllMembers([q]) == multiset(q);
      }
    }
  }

  /** The clusters `doCluster` adds after the seeds hold every instance exactly once, one cluster per creation. */
  lemma ResultCoversInput(xs: seq<Instance>, optimize: bool, dist: Distance, order: int, threshold: real)
    requires order <= MAX_ORDER
    ensures AllMembers(Collected(Assign(xs, dist, order, threshold), |Assign(xs, dist, order, threshold)|, optimize, dist, order))
            == multiset(xs)
    ensures |Collected(Assign(xs, dist, order, threshold), |Assign(xs, dist, order, threshold)|, optimize, dist, order)|
            == |Assign(xs, dist, order, threshold)|
  {
    var ps := Assign(xs, dist, order, threshold);
    AssignInvariant(xs, dist, order, threshold);
    CollectedMembers(ps, |ps|, optimize, dist, order);
    CollectedKeepsAll(ps, |ps|, optimize, dist, order);
    assert ps[..|ps|] == ps;
  }

  class BSeriesFoundationClustering {
    var targetOrder: int
    var seriesThreshold: real
    var useCompleteExpansion: bool
    var penalizeMissingFeatures: bool

    /** `targetOrder` stays within 1 .. MAX_ORDER. */
    predicate Valid()
      reads this
    {
      1 <= targetOrder <= MAX_ORDER
    }

    constructor (targetOrder: int, seriesThreshold: real, useCompleteExpansion: bool, penalizeMissingFeatures: bool)
      ensures Valid() && this.targetOrder == Clamp(targetOrder)
      ensures this.seriesThreshold == seriesThreshold && this.useCompleteExpansion == useCompleteExpansion
      ensures this.penalizeMissingFeatures == penalizeMissingFeatures
    {
      this.targetOrder := Clamp(targetOrder);
      this.seriesThreshold := seriesThreshold;
      this.useCompleteExpansion := useCompleteExpansion;
      this.penalizeMissingFeatures := penalizeMissingFeatures;
    }

    /** `setTargetOrder`: clamps like the constructor and changes nothing else. */
    method SetTargetOrder(targetOrder: int)
      modifies this
      ensures Valid() && this.targetOrder == Clamp(targetOrder)
      ensures seriesThreshold == old(seriesThreshold) && useCompleteExpansion == old(useCompleteExpansion)
      ensures penalizeMissingFeatures == old(penalizeMissingFeatures)
    {
      this.targetOrder := Clamp(targetOrder);
    }

    /** `calculateOrder1Term`: the mean distance to the members. */
    static method Order1Term(x: Instance, c: Cluster, dist: Distance) returns (t: real)
      ensures t == Term(1, Distances(x, c.members, dist))
    {
      if c.Size() == 0 {
        return 0.0;
      }
      ghost var ds := Distances(x, c.members, dist);
      var sum := 0.0;
      for i := 0 to |c.members|
        invariant sum == NestSum(1, ds, 1.0, 0, i)
      {
        sum := sum + dist(x, c.members[i]);
      }
      NestSumProducts(1, ds, 1.0, 0);
      t := sum / (c.Size() as real);
    }

    /** `calculateOrder2Term`: the double loop over pairs i < j. */
    static method Order2Term(x: Instance, c: Cluster, dist: Distance) returns (t: real)
      ensures t == Term(2, Distances(x, c.members, dist))
    {
      if c.Size() < 2 {
        return 0.0;
      }
      var members := c.members;
      ghost var ds := Distances(x, members, dist);
      var sum := 0.0;
      for i := 0 to |members|
        invariant sum == NestSum(2, ds, 1.0, 0, i)
      {
        ghost var b1 := sum;
        ghost var pi := 1.0 * ds[i];
        for j := i + 1 to |members|
          invariant sum == b1 + NestSum(1, ds, pi, i + 1, j)
        {
          var dist1 := dist(x, members[i]);
          var dist2 := dist(x, members[j]);
          sum := sum + dist1 * dist2;
        }
        NestSumSnoc(2, ds, 1.0, 0, i);
      }
      NestSumProducts(2, ds, 1.0, 0);
      var n := |members|;
      var pairs := Div(Wrap(n * (n - 1)), 2);
      CountsAsWritten(n);
      t := if pairs > 0 then sum / (pairs as real) else 0.0;
    }

    /** `calculateOrder3Term`: the triple loop over i < j < k. */
    static method Order3Term(x: Instance, c: Cluster, dist: Distance) returns (t: real)
      ensures t == Term(3, Distances(x, c.members, dist))
    {
      if c.Size() < 3 {
        return 0.0;
      }
      var members := c.members;
      ghost var ds := Distances(x, members, dist);
      var sum := 0.0;
      for i := 0 to |members|
        invariant sum == NestSum(3, ds, 1.0, 0, i)
      {
        ghost var b1 := sum;
        ghost var pi := 1.0 * ds[i];
        for j := i + 1 to |members|
          invariant sum == b1 + NestSum(2, ds, pi, i + 1, j)
        {
          ghost var b2 := sum;
          ghost var pij := pi * ds[j];
          for k := j + 1 to |members|
            invariant sum == b2 + NestSum(1, ds, pij, j + 1, k)
          {
            var dist1 := dist(x, members[i]);
            var dist2 := dist(x, members[j]);
            var dist3 := dist(x, members[k]);
            sum := sum + dist1 * dist2 * dist3;
          }
          NestSumSnoc(2, ds, pi, i + 1, j);
        }
        NestSumSnoc(3, ds, 1.0, 0, i);
      }
      NestSumProducts(3, ds, 1.0, 0);
      var n := |members|;
      var triplets := Div(Wrap(Wrap(n * (n - 1)) * (n - 2)), 6);
      CountsAsWritten(n);
      t := if triplets > 0 then sum / (triplets as real) else 0.0;
    }

    /** `calculateOrder4Term`: the quadruple loop over i < j < k < l. */
    static method Order4Term(x: Instance, c: Cluster, dist: Distance) returns (t: real)
      ensures t == Term(4, Distances(x, c.members, dist))
    {
      if c.Size() < 4 {
        return 0.0;
      }
      var members := c.members;
      ghost var ds := Distances(x, members, dist);
      var sum := 0.0;
      for i := 0 to |members|
        invariant sum == NestSum(4, ds, 1.0, 0, i)
      {
        ghost var b1 := sum;
        ghost var pi := 1.0 * ds[i];
        for j := i + 1 to |members|
          invariant sum == b1 + NestSum(3, ds, pi, i + 1, j)
        {
          ghost var b2 := sum;
          ghost var pij := pi * ds[j];
          for k := j + 1 to |members|
            invariant sum == b2 + NestSum(2, ds, pij, j + 1, k)
          {
            assert pij * ds[k] == 1.0 * dist(x, members[i]) * dist(x, members[j]) * dist(x, members[k]);
            sum := AddQuadruples(x, members, dist, i, j, k, sum);
            NestSumSnoc(2, ds, pij, j + 1, k);
          }
          NestSumSnoc(3, ds, pi, i + 1, j);
        }
        NestSumSnoc(4, ds, 1.0, 0, i);
      }
      NestSumProducts(4, ds, 1.0, 0);
      var n := |members|;
      var quadruplets := Div(Wrap(Wrap(Wrap(n * (n - 1)) * (n - 2)) * (n - 3)), 24);
      CountsAsWritten(n);
      t := if quadruplets > 0 then sum / (quadruplets as real) else 0.0;
    }

    /** The innermost loop of `calculateOrder4Term`, over l > k. */
    static method AddQuadruples(x: Instance, members: seq<Instance>, dist: Distance, i: nat, j: nat, k: nat, sum0: real)
      returns (sum: real)
      requires i < j < k < |members|
      ensures sum == sum0 + NestSum(1, Distances(x, members, dist),
        1.0 * dist(x, members[i]) * dist(x, members[j]) * dist(x, members[k]), k + 1, |members|)
    {
      ghost var ds := Distances(x, members, dist);
      ghost var pijk := 1.0 * dist(x, members[i]) * dist(x, members[j]) * dist(x, members[k]);
      sum := sum0;
      for l := k + 1 to |members|
        invariant sum == sum0 + NestSum(1, ds, pijk, k + 1, l)
      {
        var dist1 := dist(x, members[i]);
        var dist2 := dist(x, members[j]);
        var dist3 := dist(x, members[k]);
        var dist4 := dist(x, members[l]);
        sum := sum + dist1 * dist2 * dist3 * dist4;
      }
    }

    /** `calculateOrderTerm`: the switch over orders 1 to 4, and 0 for any other order. */
    static method OrderTerm(x: Instance, c: Cluster, order: int, dist: Distance) returns (t: real)
      ensures 1 <= order <= MAX_ORDER ==> t == Term(order, Distances(x, c.members, dist))
      ensures !(1 <= order <= MAX_ORDER) ==> t == 0.0
    {
      match order
      case 1 => t := Order1Term(x, c, dist);
      case 2 => t := Order2Term(x, c, dist);
      case 3 => t := Order3Term(x, c, dist);
      case 4 => t := Order4Term(x, c, dist);
      case _ => t := 0.0;
    }

    /** The summing loop of `calculateBSeriesValue`: the weighted terms of orders 1 .. `order`. */
    static method SeriesSum(x: Instance, c: Cluster, dist: Distance, order: int) returns (seriesSum: real)
      requires order <= MAX_ORDER
      ensures seriesSum == Series(Distances(x, c.members, dist), order)
    {
      ghost var ds := Distances(x, c.members, dist);
      seriesSum := 0.0;
      var k := 1;
      while k <= order
        invariant 1 <= k && (k <= order + 1 || k == 1)
        invariant seriesSum == Series(ds, k - 1)
      {
        var orderTerm := OrderTerm(x, c, k, dist);
        SeriesStep(ds, k, orderTerm);
        seriesSum := seriesSum + Coefficient(k) * orderTerm;
        k := k + 1;
      }
    }

    /** `calculateBSeriesValue`: the absolute value of the weighted terms up to `targetOrder`. */
    method BSeriesValue(x: Instance, c: Cluster, dist: Distance) returns (v: real)
      requires Valid()
      ensures v == Value(x, c.members, dist, targetOrder)
    {
      var seriesSum := SeriesSum(x, c, dist, targetOrder);
      v := if seriesSum < 0.0 then -seriesSum else seriesSum;
    }

    /** `isCandidate`. */
    method IsCandidate(x: Instance, c: Cluster, dist: Distance) returns (r: bool)
      requires Valid()
      ensures r <==> Candidate(x, c.members, dist, targetOrder, seriesThreshold)
    {
      if c.Size() == 0 {
        return true;
      }
      var value := BSeriesValue(x, c, dist);
      r := value <= seriesThreshold;
    }

    /** `calculateBSeriesValueForInstance`: the value against a temporary cluster of the other members. */
    method ValueForInstance(x: Instance, c: Cluster, dist: Distance) returns (v: real)
      requires Valid()
      ensures v == Value(x, Without(c.members, x), dist, targetOrder)
    {
      var temp := new Cluster();
      var members := c.members;
      for i := 0 to |members|
        invariant temp.members == Without(members[..i], x)
      {
        assert members[..i + 1][..i] == members[..i];
        if members[i] != x {
          temp.Add(members[i]);
        }
      }
      assert members[..|members|] == members;
      v := BSeriesValue(x, temp, dist);
    }

    /** `optimizeBSeriesExpansion(cluster)`: the members re-added in the optimised order. */
    method OptimizeBSeriesExpansion(cluster: Cluster, dist: Distance)
      requires Valid()
      modifies cluster
      ensures cluster.members == Optimized(old(cluster.members), dist, targetOrder)
    {
      var members := cluster.members;
      if |members| <= targetOrder {
        return;
      }
      members := Sort(members, ByKey(InstanceKey(members, dist, targetOrder)));
      Rebuild(cluster, members);
    }

    /** `if (isCandidate(x, cs[k])) cs[k].add(x)`, seen on the member lists of all clusters. */
    method TryCluster(cs: seq<Cluster>, k: nat, x: Instance, dist: Distance, ghost ps: seq<seq<Instance>>)
      returns (added: bool)
      requires Valid() && k < |cs| && Distinct(cs) && Holds(cs, ps)
      modifies cs[k]
      ensures added <==> Candidate(x, ps[k], dist, targetOrder, seriesThreshold)
      ensures added ==> Holds(cs, AddTo(ps, k, x))
      ensures !added ==> Holds(cs, ps)
    {
      added := IsCandidate(x, cs[k], dist);
      if added {
        cs[k].Add(x);
      }
    }

    /** The scan over the clusters in creation order, stopping at the first that accepts. */
    method FirstFitScan(cs: seq<Cluster>, x: Instance, dist: Distance, ghost ps: seq<seq<Instance>>)
      returns (placed: bool)
      requires Valid() && Distinct(cs) && Holds(cs, ps)
      modifies set c | c in cs
      ensures placed <==> FirstFit(ps, x, 0, dist, targetOrder, seriesThreshold) < |ps|
      ensures placed ==> Holds(cs, AddTo(ps, FirstFit(ps, x, 0, dist, targetOrder, seriesThreshold), x))
      ensures !placed ==> Holds(cs, ps)
    {
      placed := false;
      var i := 0;
      while i < |cs| && !placed
        invariant 0 <= i <= |cs|
        invariant !placed ==> Holds(cs, ps)
        invariant !placed ==> FirstFit(ps, x, 0, dist, targetOrder, seriesThreshold) ==
                              FirstFit(ps, x, i, dist, targetOrder, seriesThreshold)
        invariant placed ==> 0 < i && FirstFit(ps, x, 0, dist, targetOrder, seriesThreshold) == i - 1
        invariant placed ==> Holds(cs, AddTo(ps, i - 1, x))
      {
        placed := TryCluster(cs, i, x, dist, ps);
        i := i + 1;
      }
    }

    /** One pass of the instance loop of `doCluster`: the first accepting cluster takes `x`, else a new one does. */
    method PlaceInstance(cs: seq<Cluster>, x: Instance, dist: Distance, ghost ps: seq<seq<Instance>>)
      returns (next: seq<Cluster>)
      requires Valid() && Distinct(cs) && Holds(cs, ps)
      modifies set c | c in cs
      ensures Distinct(next) && forall j | 0 <= j < |next| :: next[j] in cs || fresh(next[j])
      ensures Holds(next, Place(ps, x, dist, targetOrder, seriesThreshold))
    {
      next := cs;
      var placed := FirstFitScan(cs, x, dist, ps);
      if !placed {
        var c := NewClusterOf([x]);
        HoldsSnoc(cs, ps, c, [x]);
        next := cs + [c];
      }
    }

    /** The instance loop of `doCluster`. */
    method AssignAll(instances: seq<Instance>, dist: Distance) returns (cs: seq<Cluster>)
      requires Valid()
      ensures Distinct(cs) && forall j | 0 <= j < |cs| :: fresh(cs[j])
      ensures Holds(cs, Assign(instances, dist, targetOrder, seriesThreshold))
    {
      cs := [];
      for n := 0 to |instances|
        invariant Distinct(cs) && forall j | 0 <= j < |cs| :: fresh(cs[j])
        invariant Holds(cs, Assign(instances[..n], dist, targetOrder, seriesThreshold))
      {
        AssignStep(instances, n, dist, targetOrder, seriesThreshold);
        cs := PlaceInstance(cs, instances[n], dist, Assign(instances[..n], dist, targetOrder, seriesThreshold));
      }
      assert instances[..|instances|] == instances;
    }

    /** One step of the final loop: a non-empty cluster is optimised when asked and kept, an empty one dropped. */
    method CollectCluster(built: seq<Cluster>, c: Cluster, dist: Distance, ghost ps: seq<seq<Instance>>)
      returns (next: seq<Cluster>)
      requires Valid() && Holds(built, ps) && forall j | 0 <= j < |built| :: built[j] != c
      modifies c
      ensures old(c.members) == [] ==> next == built && Holds(next, ps)
      ensures old(c.members) != [] ==> next == built + [c]
      ensures old(c.members) != [] ==>
        Holds(next, ps + [Finished(old(c.members), useCompleteExpansion, dist, targetOrder)])
    {
      next := built;
      if c.Size() > 0 {
        if useCompleteExpansion {
          OptimizeBSeriesExpansion(c, dist);
        }
        HoldsSnoc(built, ps, c, c.members);
        next := built + [c];
      }
    }

    /** One pass of the final loop of `doCluster`, over the cluster `cs[k]`. */
    method CollectStep(cs: seq<Cluster>, k: nat, dist: Distance, ghost start: seq<seq<Instance>>,
                       built: seq<Cluster>, ghost from: seq<nat>)
      returns (next: seq<Cluster>, ghost nextFrom: seq<nat>)
      requires Valid() && k < |cs| == |start| && Distinct(cs)
      requires |from| == |built| && forall j | 0 <= j < |built| :: from[j] < k && built[j] == cs[from[j]]
      requires forall j | k <= j < |cs| :: cs[j].members == start[j]
      requires Holds(built, Collected(start, k, useCompleteExpansion, dist, targetOrder))
      modifies cs[k]
      ensures |nextFrom| == |next| && forall j | 0 <= j < |next| :: nextFrom[j] < k + 1 && next[j] == cs[nextFrom[j]]
      ensures forall j | k + 1 <= j < |cs| :: cs[j].members == start[j]
      ensures Holds(next, Collected(start, k + 1, useCompleteExpansion, dist, targetOrder))
    {
      ghost var acc := Collected(start, k, useCompleteExpansion, dist, targetOrder);
      next := CollectCluster(built, cs[k], dist, acc);
      nextFrom := from;
      if next != built {
        nextFrom := from + [k];
      }
    }

    /** The final loop of `doCluster` over the clusters in creation order. */
    method CollectAll(cs: seq<Cluster>, dist: Distance, ghost start: seq<seq<Instance>>) returns (built: seq<Cluster>)
      requires Valid() && Distinct(cs) && Holds(cs, start)
      modifies set c | c in cs
      ensures forall j | 0 <= j < |built| :: built[j] in cs
      ensures Holds(built, Collected(start, |start|, useCompleteExpansion, dist, targetOrder))
    {
      built := [];
      ghost var from: seq<nat> := [];
      for k := 0 to |cs|
        invariant |from| == |built| && forall j | 0 <= j < |built| :: from[j] < k && built[j] == cs[from[j]]
        invariant forall j | k <= j < |cs| :: cs[j].members == start[j]
        invariant Holds(built, Collected(start, k, useCompleteExpansion, dist, targetOrder))
      {
        built, from := CollectStep(cs, k, dist, start, built, from);
      }
    }

    /**
     * `doCluster`: the seeds, then the clusters in creation order, each
     * optimised when complete expansion is on.
     */
    method DoCluster(instances: seq<Instance>, seeds: seq<Cluster>, dist: Distance) returns (result: seq<Cluster>)
      requires Valid()
      ensures |result| >= |seeds| && result[..|seeds|] == seeds
      ensures forall i | |seeds| <= i < |result| :: fresh(result[i])
      ensures MembersOf(result[|seeds|..]) ==
        Collected(Assign(instances, dist, targetOrder, seriesThreshold),
                  |Assign(instances, dist, targetOrder, seriesThreshold)|, useCompleteExpansion, dist, targetOrder)
    {
      ghost var ps := Assign(instances, dist, targetOrder, seriesThreshold);
      var cs := AssignAll(instances, dist);
      var built := CollectAll(cs, dist, ps);
      HoldsMembersOf(built, Collected(ps, |ps|, useCompleteExpansion, dist, targetOrder));
      result := seeds + built;
      assert result[|seeds|..] == built;
      assert forall i | |seeds| <= i < |result| :: result[i] == built[i - |seeds|];
    }
  }
}
