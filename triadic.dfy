/**
 * B-series order-5 triadic clustering: first-fit assignment scored by an
 * order-5 weighted compatibility, an optional hard cap of three members,
 * a search for the most stable of the six orderings of a three-member
 * cluster, and a bounded pass that merges incomplete clusters.
 */
module Triadic {
  import opened JavaInt
  import opened Clusters
  import BSeries

  const TRIADIC_SIZE: nat := 3

  /** The number of index triples (i, j, k) in 0..2 that `optimizeTriadicStructure` visits. */
  const SCAN_LENGTH: nat := 27

  /** `ORDER_5_COEFFICIENT`: 1/5!. */
  const ORDER_5_COEFFICIENT: real := 1.0 / 120.0

  /** `Math.pow(v, 2.5)`, which stays uninterpreted. */
  type Pow25 = real -> real

  // ------------------------------------------------------ simplified term

  /**
   * The cluster influence of `calculateSimplifiedOrder5`: over the members
   * `ms` other than `x` and `m`, in order, the sum of
   * `pow(d(x, o) * d(m, o), 2.5)`.
   */
  function Influence(x: Instance, m: Instance, ms: seq<Instance>, dist: Distance, pow25: Pow25): real
  {
    if ms == [] then 0.0
    else
      var o := ms[|ms| - 1];
      Influence(x, m, ms[..|ms| - 1], dist, pow25) + (if o != x && o != m then Interaction(dist(x, o), dist(m, o), pow25) else 0.0)
  }

  /** `Math.pow(d1 * d2, 2.5)`: what one other member adds to the influence, from its two distances. */
  function Interaction(d1: real, d2: real, pow25: Pow25): real
  {
    pow25(d1 * d2)
  }

  /** `calculateSimplifiedOrder5(x, m, c)` for a cluster with members `ms`. */
  function Simplified(x: Instance, m: Instance, ms: seq<Instance>, dist: Distance, pow25: Pow25): real
  {
    dist(x, m) + ORDER_5_COEFFICIENT * Influence(x, m, ms, dist, pow25)
  }

  lemma InfluenceSnoc(x: Instance, m: Instance, ms: seq<Instance>, dist: Distance, pow25: Pow25)
    requires ms != []
    ensures Influence(x, m, ms, dist, pow25) == Influence(x, m, ms[..|ms| - 1], dist, pow25) +
      (if ms[|ms| - 1] != x && ms[|ms| - 1] != m then Interaction(dist(x, ms[|ms| - 1]), dist(m, ms[|ms| - 1]), pow25) else 0.0)
  {
  }

  /** Members equal to `x` or `m` contribute nothing to the influence. */
  lemma {:induction false} InfluenceSkipsPair(x: Instance, m: Instance, ms: seq<Instance>, dist: Distance, pow25: Pow25)
    requires forall i | 0 <= i < |ms| :: ms[i] == x || ms[i] == m
    ensures Influence(x, m, ms, dist, pow25) == 0.0
  {
    if ms != [] {
      InfluenceSkipsPair(x, m, ms[..|ms| - 1], dist, pow25);
    }
  }

  /** With `pow` assumed non-negative, the influence is non-negative and so the term is at least d(x, m). */
  lemma {:induction false} InfluenceNonNegative(x: Instance, m: Instance, ms: seq<Instance>, dist: Distance, pow25: Pow25)
    requires forall v :: pow25(v) >= 0.0
    ensures Influence(x, m, ms, dist, pow25) >= 0.0
    ensures Simplified(x, m, ms, dist, pow25) >= dist(x, m)
  {
    if ms != [] {
      InfluenceNonNegative(x, m, ms[..|ms| - 1], dist, pow25);
    }
  }

  // ----------------------------------------------------------- full term

  /** The candidate's and the member's distances to each cluster member, in member order. */
  function DistancesFrom(y: Instance, ms: seq<Instance>, dist: Distance): (ds: seq<real>)
    ensures |ds| == |ms| && forall i | 0 <= i < |ms| :: ds[i] == dist(y, ms[i])
  {
    BSeries.Distances(y, ms, dist)
  }

  /**
   * The sum of the 5-way loop of `calculateOrder5Term` over the outer indices
   * below `hi`: for every i < j < k < l, C * dx[i] dx[j] dx[k] dx[l] * dm[i],
   * where dx are the candidate's distances to the members and dm the member's.
   */
  function FiveWaySum(x: Instance, m: Instance, ms: seq<Instance>, dist: Distance, hi: nat): real
    requires hi <= |ms|
  {
    if hi == 0 then 0.0
    else
      var i := hi - 1;
      FiveWaySum(x, m, ms, dist, i) +
      ORDER_5_COEFFICIENT * dist(x, ms[i]) * dist(m, ms[i]) * BSeries.Products(3, DistancesFrom(x, ms, dist), i + 1)
  }

  /** What the loops over j, k and l add for one outer index `i`. */
  lemma FiveWaySumStep(x: Instance, m: Instance, ms: seq<Instance>, dist: Distance, i: nat, s0: real, s1: real)
    requires i < |ms| && s0 == FiveWaySum(x, m, ms, dist, i)
    requires s1 == s0 + BSeries.NestSum(3, DistancesFrom(x, ms, dist),
      ORDER_5_COEFFICIENT * dist(x, ms[i]) * dist(m, ms[i]), i + 1, |ms|)
    ensures s1 == FiveWaySum(x, m, ms, dist, i + 1)
  {
    BSeries.NestSumProducts(3, DistancesFrom(x, ms, dist), ORDER_5_COEFFICIENT * dist(x, ms[i]) * dist(m, ms[i]), i + 1);
  }

  /** The number of index quadruples i < j < k < l below n, as the `int` counter `count++` ends. */
  function QuadrupleCount(n: nat): Int32
  {
    Wrap(BSeries.Binomial(n, 4))
  }

  /** The 5-way term: the sum divided by the count, and 0 when the count is not positive. */
  function FiveWayTerm(x: Instance, m: Instance, ms: seq<Instance>, dist: Distance): real
  {
    var count := QuadrupleCount(|ms|);
    if count > 0 then FiveWaySum(x, m, ms, dist, |ms|) / (count as real) else 0.0
  }

  /** Up to 216 members the counter does not wrap: it is C(n, 4), at least 1 from 4 members on. */
  lemma QuadrupleCountExact(n: nat)
    requires 4 <= n <= 216
    ensures QuadrupleCount(n) == BSeries.Binomial(n, 4) >= 1
  {
    BSeries.CombinationsExact(n, 4);
    BSeries.FallingFits(n, 4);
    BSeries.BinomialFalling(n, 4);
    assert BSeries.Fact(4) == 24;
  }

  /** `calculateOrder5Term(x, m, c)`: the simplified term below five members, the 5-way term from five on. */
  function Order5(x: Instance, m: Instance, ms: seq<Instance>, dist: Distance, pow25: Pow25): real
  {
    if |ms| < 5 then Simplified(x, m, ms, dist, pow25)
    else FiveWayTerm(x, m, ms, dist)
  }

  // ------------------------------------------------------- compatibility

  /** The weighted terms of the first `k` members, added in member order. */
  function WeightedSum(x: Instance, ms: seq<Instance>, k: nat, weight: real, dist: Distance, pow25: Pow25): real
    requires k <= |ms|
  {
    if k == 0 then 0.0
    else WeightedSum(x, ms, k - 1, weight, dist, pow25) + Order5(x, ms[k - 1], ms, dist, pow25) * weight
  }

  lemma WeightedSumStep(x: Instance, ms: seq<Instance>, k: nat, weight: real, dist: Distance, pow25: Pow25, t: real)
    requires k < |ms| && t == Order5(x, ms[k], ms, dist, pow25) * weight
    ensures WeightedSum(x, ms, k + 1, weight, dist, pow25) == WeightedSum(x, ms, k, weight, dist, pow25) + t
  {
  }

  /** `calculateTriadicCompatibility`: 0 for an empty cluster, else the weighted terms over `max(1, size)`. */
  function Compatibility(x: Instance, ms: seq<Instance>, weight: real, dist: Distance, pow25: Pow25): real
  {
    if ms == [] then 0.0 else WeightedSum(x, ms, |ms|, weight, dist, pow25) / (|ms| as real)
  }

  /**
   * `isCandidate`: under the triadic cap a cluster of three or more refuses;
   * otherwise an empty cluster accepts and a non-empty one accepts when the
   * compatibility does not exceed the threshold.
   */
  predicate Candidate(x: Instance, ms: seq<Instance>, enforce: bool, weight: real, threshold: real,
                      dist: Distance, pow25: Pow25)
  {
    if enforce && |ms| >= TRIADIC_SIZE then false
    else ms == [] || Compatibility(x, ms, weight, dist, pow25) <= threshold
  }

  /** Under the cap, only clusters of fewer than three members accept; an empty cluster always does. */
  lemma CandidateCap(x: Instance, ms: seq<Instance>, enforce: bool, weight: real, threshold: real,
                     dist: Distance, pow25: Pow25)
    ensures enforce && Candidate(x, ms, enforce, weight, threshold, dist, pow25) ==> |ms| < TRIADIC_SIZE
    ensures ms == [] ==> Candidate(x, ms, enforce, weight, threshold, dist, pow25)
    ensures !enforce || |ms| < TRIADIC_SIZE ==>
      (Candidate(x, ms, enforce, weight, threshold, dist, pow25) <==>
       ms == [] || Compatibility(x, ms, weight, dist, pow25) <= threshold)
  {
  }

  // ------------------------------------------------------------ stability

  /** `Math.pow(v, 2)`. */
  function Square(v: real): (r: real)
    ensures r >= 0.0
  {
    v * v
  }

  /** The stability of three points from their pairwise distances: 1 / (1 + the summed squared deviations). */
  function TriangleStability(d12: real, d13: real, d23: real): real
  {
    var mean := (d12 + d13 + d23) / 3.0;
    var variance := Square(d12 - mean) + Square(d13 - mean) + Square(d23 - mean);
    1.0 / (1.0 + variance)
  }

  /** `calculateTriadicStability`: 0 unless the cluster has exactly three members. */
  function Stability(ms: seq<Instance>, dist: Distance): real
  {
    if |ms| != TRIADIC_SIZE then 0.0
    else TriangleStability(dist(ms[0], ms[1]), dist(ms[0], ms[2]), dist(ms[1], ms[2]))
  }

  /** A square is 0 only at 0. */
  lemma SquareZero(v: real)
    ensures Square(v) == 0.0 <==> v == 0.0
  {
    if v != 0.0 {
      var u := 1.0 / v;
      assert u * v == 1.0;
      assert u * Square(v) == v;
    }
  }

  /** A triangle's stability lies in (0, 1], and is 1 exactly for an equilateral one. */
  lemma TriangleStabilityRange(d12: real, d13: real, d23: real)
    ensures 0.0 < TriangleStability(d12, d13, d23) <= 1.0
    ensures TriangleStability(d12, d13, d23) == 1.0 <==> d12 == d13 == d23
  {
    var mean := (d12 + d13 + d23) / 3.0;
    var variance := Square(d12 - mean) + Square(d13 - mean) + Square(d23 - mean);
    assert TriangleStability(d12, d13, d23) == 1.0 / (1.0 + variance);
    assert variance >= 0.0;
    if variance == 0.0 {
      SquareZero(d12 - mean);
      SquareZero(d13 - mean);
      SquareZero(d23 - mean);
    } else {
      assert 1.0 / (1.0 + variance) < 1.0;
    }
    if d12 == d13 == d23 {
      assert mean == d12;
    }
  }

  /** Stability is 0 off three members and in (0, 1] on three. */
  lemma StabilityRange(ms: seq<Instance>, dist: Distance)
    ensures |ms| != TRIADIC_SIZE ==> Stability(ms, dist) == 0.0
    ensures |ms| == TRIADIC_SIZE ==> 0.0 < Stability(ms, dist) <= 1.0
  {
    if |ms| == TRIADIC_SIZE {
      TriangleStabilityRange(dist(ms[0], ms[1]), dist(ms[0], ms[2]), dist(ms[1], ms[2]));
    }
  }

  /** Pairwise distances 1, 2 and 3: mean 2, summed squared deviations 2, stability 1/3. */
  lemma StabilityExample()
    ensures TriangleStability(1.0, 2.0, 3.0) == 1.0 / 3.0
  {
    assert (1.0 + 2.0 + 3.0) / 3.0 == 2.0;
    assert Square(-1.0) == 1.0 && Square(0.0) == 0.0 && Square(1.0) == 1.0;
    assert TriangleStability(1.0, 2.0, 3.0) == 1.0 / (1.0 + 2.0);
  }

  // ------------------------------------------------------------ orderings

  /** The cluster rebuilt from members `i`, `j`, `k` of `ms`, in that order. */
  function Perm(ms: seq<Instance>, i: nat, j: nat, k: nat): (r: seq<Instance>)
    requires |ms| == TRIADIC_SIZE && i < 3 && j < 3 && k < 3
    ensures |r| == 3
  {
    [ms[i], ms[j], ms[k]]
  }

  /** The three indices are pairwise different, the test of `optimizeTriadicStructure`. */
  predicate IsPermutation(i: nat, j: nat, k: nat)
  {
    i < 3 && j < 3 && k < 3 && i != j && j != k && i != k
  }

  /** The best ordering and stability found so far. */
  datatype Choice = Choice(ordering: seq<Instance>, stability: real)

  /** The index triple (i, j, k) that step `t` of the triple loop visits, `t` being 9i + 3j + k. */
  function Position(t: nat): (r: (nat, nat, nat))
    requires t < SCAN_LENGTH
    ensures r.0 < 3 && r.1 < 3 && r.2 < 3 && 9 * r.0 + 3 * r.1 + r.2 == t
  {
    var i := if t < 9 then 0 else if t < 18 then 1 else 2;
    var j := if t - 9 * i < 3 then 0 else if t - 9 * i < 6 then 1 else 2;
    (i, j, t - 9 * i - 3 * j)
  }

  /** Each step visits a different triple. */
  lemma Decompose(i: nat, j: nat, k: nat)
    requires i < 3 && j < 3 && k < 3
    ensures Position(9 * i + 3 * j + k) == (i, j, k)
  {
  }

  /** A score for an ordering of a triad; `optimizeTriadicStructure` scores by stability. */
  type Score = seq<Instance> -> real

  /** Scoring by `calculateTriadicStability` under distance `dist`. */
  function StabilityScore(dist: Distance): Score
  {
    ms => Stability(ms, dist)
  }

  /**
   * The choice after the first `t` of the 27 index triples of the loops of
   * `optimizeTriadicStructure`: it starts from the cluster as it is and
   * switches only to a permutation of strictly higher score.
   */
  function Scan(ms: seq<Instance>, score: Score, t: nat): Choice
    requires |ms| == TRIADIC_SIZE && t <= SCAN_LENGTH
  {
    if t == 0 then Choice(ms, score(ms))
    else
      var prev := Scan(ms, score, t - 1);
      var (i, j, k) := Position(t - 1);
      if IsPermutation(i, j, k) && score(Perm(ms, i, j, k)) > prev.stability
      then Choice(Perm(ms, i, j, k), score(Perm(ms, i, j, k)))
      else prev
  }

  /** The member order `optimizeTriadicStructure` leaves. */
  function OptimizedTriad(ms: seq<Instance>, dist: Distance): seq<Instance>
  {
    if |ms| != TRIADIC_SIZE then ms else Scan(ms, StabilityScore(dist), SCAN_LENGTH).ordering
  }

  lemma PermMultiset(ms: seq<Instance>, i: nat, j: nat, k: nat)
    requires |ms| == TRIADIC_SIZE && IsPermutation(i, j, k)
    ensures multiset(Perm(ms, i, j, k)) == multiset(ms)
  {
    var a, b, c := ms[0], ms[1], ms[2];
    assert ms == [a, b, c];
    if i == 0 && j == 1 {
      assert Perm(ms, i, j, k) == ms;
    } else if i == 0 {
      assert Perm(ms, i, j, k) == [a, c, b];
      SwapBack(a, b, c);
    } else if i == 1 && j == 0 {
      assert Perm(ms, i, j, k) == [b, a, c];
      SwapFront(a, b, c);
    } else if i == 1 {
      assert Perm(ms, i, j, k) == [b, c, a];
      SwapBack(b, a, c);
      SwapFront(a, b, c);
    } else if j == 0 {
      assert Perm(ms, i, j, k) == [c, a, b];
      SwapFront(a, c, b);
      SwapBack(a, b, c);
    } else {
      assert Perm(ms, i, j, k) == [c, b, a];
      SwapFront(b, c, a);
      SwapBack(b, a, c);
      SwapFront(a, b, c);
    }
  }

  lemma SwapFront(x: Instance, y: Instance, z: Instance)
    ensures multiset([y, x, z]) == multiset([x, y, z])
  {
  }

  lemma SwapBack(x: Instance, y: Instance, z: Instance)
    ensures multiset([x, z, y]) == multiset([x, y, z])
  {
  }

  /** One step of the scan either keeps the previous choice or takes a strictly better permutation. */
  lemma ScanStep(ms: seq<Instance>, score: Score, t: nat)
    requires |ms| == TRIADIC_SIZE && 0 < t <= SCAN_LENGTH
    ensures var (i, j, k) := Position(t - 1);
      Scan(ms, score, t) == Scan(ms, score, t - 1) ||
      (IsPermutation(i, j, k) && score(Perm(ms, i, j, k)) > Scan(ms, score, t - 1).stability &&
       Scan(ms, score, t) == Choice(Perm(ms, i, j, k), score(Perm(ms, i, j, k))))
  {
  }

  /** Step `9i + 3j + k` of the scan, seen from the loop indices. */
  lemma ScanAt(ms: seq<Instance>, score: Score, i: nat, j: nat, k: nat)
    requires |ms| == TRIADIC_SIZE && i < 3 && j < 3 && k < 3
    ensures var prev := Scan(ms, score, 9 * i + 3 * j + k);
      Scan(ms, score, 9 * i + 3 * j + k + 1) ==
        if IsPermutation(i, j, k) && score(Perm(ms, i, j, k)) > prev.stability
        then Choice(Perm(ms, i, j, k), score(Perm(ms, i, j, k))) else prev
  {
    Decompose(i, j, k);
  }

  /** The scan holds a permutation of the members with its own score, at least the starting one. */
  lemma {:induction false} ScanPermutes(ms: seq<Instance>, score: Score, t: nat)
    requires |ms| == TRIADIC_SIZE && t <= SCAN_LENGTH
    ensures multiset(Scan(ms, score, t).ordering) == multiset(ms) && |Scan(ms, score, t).ordering| == 3
    ensures Scan(ms, score, t).stability == score(Scan(ms, score, t).ordering)
    ensures Scan(ms, score, t).stability >= score(ms)
  {
    if t > 0 {
      ScanPermutes(ms, score, t - 1);
      ScanStep(ms, score, t);
      var (i, j, k) := Position(t - 1);
      var prev, next := Scan(ms, score, t - 1), Scan(ms, score, t);
      if next != prev {
        PermMultiset(ms, i, j, k);
        assert next.stability > prev.stability >= score(ms);
      }
    }
  }

  /** The scan scores at least as high as every permutation it has visited. */
  lemma {:induction false} ScanBest(ms: seq<Instance>, score: Score, t: nat)
    requires |ms| == TRIADIC_SIZE && t <= SCAN_LENGTH
    ensures forall i: nat, j: nat, k: nat | IsPermutation(i, j, k) && 9 * i + 3 * j + k < t ::
      score(Perm(ms, i, j, k)) <= Scan(ms, score, t).stability
  {
    if t > 0 {
      ScanBest(ms, score, t - 1);
      var prev := Scan(ms, score, t - 1);
      assert Scan(ms, score, t).stability >= prev.stability;
      forall i: nat, j: nat, k: nat | IsPermutation(i, j, k) && 9 * i + 3 * j + k == t - 1
        ensures score(Perm(ms, i, j, k)) <= Scan(ms, score, t).stability
      {
        Decompose(i, j, k);
      }
    }
  }

  /** When no permutation scores strictly higher than the starting order, the scan keeps it. */
  lemma {:induction false} ScanKeeps(ms: seq<Instance>, score: Score, t: nat)
    requires |ms| == TRIADIC_SIZE && t <= SCAN_LENGTH
    requires forall i: nat, j: nat, k: nat | IsPermutation(i, j, k) :: score(Perm(ms, i, j, k)) <= score(ms)
    ensures Scan(ms, score, t) == Choice(ms, score(ms))
  {
    if t > 0 {
      ScanKeeps(ms, score, t - 1);
    }
  }

  /** `optimizeTriadicStructure` keeps the members. */
  lemma OptimizedTriadPermutes(ms: seq<Instance>, dist: Distance)
    ensures multiset(OptimizedTriad(ms, dist)) == multiset(ms) && |OptimizedTriad(ms, dist)| == |ms|
  {
    if |ms| == TRIADIC_SIZE {
      ScanPermutes(ms, StabilityScore(dist), SCAN_LENGTH);
    }
  }

  /**
   * `optimizeTriadicStructure` leaves a cluster of other than three members
   * as it is; a triad it rebuilds as a permutation of its members that is at
   * least as stable as every permutation, keeping the order it had when no
   * permutation is strictly more stable.
   */
  lemma OptimizedTriadSpec(ms: seq<Instance>, dist: Distance)
    ensures multiset(OptimizedTriad(ms, dist)) == multiset(ms) && |OptimizedTriad(ms, dist)| == |ms|
    ensures |ms| != TRIADIC_SIZE ==> OptimizedTriad(ms, dist) == ms
    ensures |ms| == TRIADIC_SIZE ==> forall i: nat, j: nat, k: nat | IsPermutation(i, j, k) ::
      Stability(Perm(ms, i, j, k), dist) <= Stability(OptimizedTriad(ms, dist), dist)
    ensures (|ms| == TRIADIC_SIZE &&
             forall i: nat, j: nat, k: nat | IsPermutation(i, j, k) :: Stability(Perm(ms, i, j, k), dist) <= Stability(ms, dist))
      ==> OptimizedTriad(ms, dist) == ms
  {
    if |ms| == TRIADIC_SIZE {
      ScanPermutes(ms, StabilityScore(dist), SCAN_LENGTH);
      ScanBest(ms, StabilityScore(dist), SCAN_LENGTH);
      forall i: nat, j: nat, k: nat | IsPermutation(i, j, k)
        ensures Stability(Perm(ms, i, j, k), dist) <= Stability(OptimizedTriad(ms, dist), dist)
      {
        assert 9 * i + 3 * j + k < SCAN_LENGTH;
      }
      if forall i: nat, j: nat, k: nat | IsPermutation(i, j, k) :: Stability(Perm(ms, i, j, k), dist) <= Stability(ms, dist) {
        ScanKeeps(ms, StabilityScore(dist), SCAN_LENGTH);
      }
    }
  }

  /** The stability of a triangle does not depend on the order of its three distances. */
  lemma TriangleStabilitySymmetric(a: real, b: real, c: real)
    ensures TriangleStability(a, b, c) == TriangleStability(b, a, c) == TriangleStability(a, c, b)
    ensures TriangleStability(a, b, c) == TriangleStability(c, b, a) == TriangleStability(b, c, a)
    ensures TriangleStability(a, b, c) == TriangleStability(c, a, b)
  {
    assert (a + b + c) / 3.0 == (b + a + c) / 3.0 == (a + c + b) / 3.0 == (c + b + a) / 3.0;
    assert (a + b + c) / 3.0 == (b + c + a) / 3.0 == (c + a + b) / 3.0;
  }

  /**
   * For a symmetric distance (a named assumption, not a fact about the
   * distances) every ordering of a triad is equally stable, so
   * `optimizeTriadicStructure` never changes the order.
   */
  lemma SymmetricDistanceKeepsOrder(ms: seq<Instance>, dist: Distance)
    requires forall a, b :: dist(a, b) == dist(b, a)
    ensures OptimizedTriad(ms, dist) == ms
  {
    if |ms| == TRIADIC_SIZE {
      var d01, d02, d12 := dist(ms[0], ms[1]), dist(ms[0], ms[2]), dist(ms[1], ms[2]);
      TriangleStabilitySymmetric(d01, d02, d12);
      forall i: nat, j: nat, k: nat | IsPermutation(i, j, k) ensures Stability(Perm(ms, i, j, k), dist) <= Stability(ms, dist) {
        assert Stability(Perm(ms, i, j, k), dist) ==
          TriangleStability(dist(ms[i], ms[j]), dist(ms[i], ms[k]), dist(ms[j], ms[k]));
      }
      OptimizedTriadSpec(ms, dist);
    }
  }

  // ------------------------------------------------------------- doCluster

  /** The first cluster from index `i` on that accepts `x`, or |ps| when none does. */
  function FirstFit(ps: seq<seq<Instance>>, x: Instance, i: nat, enforce: bool, weight: real, threshold: real,
                    dist: Distance, pow25: Pow25): (r: nat)
    requires i <= |ps|
    decreases |ps| - i
    ensures i <= r <= |ps|
    ensures r < |ps| ==> Candidate(x, ps[r], enforce, weight, threshold, dist, pow25)
    ensures forall j | i <= j < r :: !Candidate(x, ps[j], enforce, weight, threshold, dist, pow25)
  {
    if i == |ps| then |ps|
    else if Candidate(x, ps[i], enforce, weight, threshold, dist, pow25) then i
    else FirstFit(ps, x, i + 1, enforce, weight, threshold, dist, pow25)
  }

  /** One instance: into the first accepting triadic cluster, else into a new one. */
  function Place(ps: seq<seq<Instance>>, x: Instance, enforce: bool, weight: real, threshold: real,
                 dist: Distance, pow25: Pow25): seq<seq<Instance>>
  {
    var i := FirstFit(ps, x, 0, enforce, weight, threshold, dist, pow25);
    if i < |ps| then AddTo(ps, i, x) else ps + [[x]]
  }

  /** The triadic clusters, in creation order, after the instances `xs`. */
  function Assign(xs: seq<Instance>, enforce: bool, weight: real, threshold: real,
                  dist: Distance, pow25: Pow25): seq<seq<Instance>>
  {
    if xs == [] then []
    else Place(Assign(xs[..|xs| - 1], enforce, weight, threshold, dist, pow25), xs[|xs| - 1],
               enforce, weight, threshold, dist, pow25)
  }

  lemma AssignStep(xs: seq<Instance>, n: nat, enforce: bool, weight: real, threshold: real,
                   dist: Distance, pow25: Pow25)
    requires n < |xs|
    ensures Assign(xs[..n + 1], enforce, weight, threshold, dist, pow25) ==
      Place(Assign(xs[..n], enforce, weight, threshold, dist, pow25), xs[n], enforce, weight, threshold, dist, pow25)
  {
    assert xs[..n + 1][..n] == xs[..n];
  }

  /** Placing an instance adds it to exactly one cluster and keeps every cluster non-empty. */
  lemma PlaceInvariant(ps: seq<seq<Instance>>, x: Instance, enforce: bool, weight: real, threshold: real,
                       dist: Distance, pow25: Pow25)
    requires forall j | 0 <= j < |ps| :: ps[j] != []
    ensures AllMembers(Place(ps, x, enforce, weight, threshold, dist, pow25)) == AllMembers(ps) + multiset{x}
    ensures forall j | 0 <= j < |Place(ps, x, enforce, weight, threshold, dist, pow25)| ::
      Place(ps, x, enforce, weight, threshold, dist, pow25)[j] != []
    ensures |Place(ps, x, enforce, weight, threshold, dist, pow25)| <= |ps| + 1
  {
    var i := FirstFit(ps, x, 0, enforce, weight, threshold, dist, pow25);
    if i < |ps| {
      AllMembersUpdate(ps, i, x);
    } else {
      assert (ps + [[x]])[..|ps|] == ps;
    }
  }

  /** Every instance lands in exactly one triadic cluster, and none is empty. */
  lemma {:induction false} AssignInvariant(xs: seq<Instance>, enforce: bool, weight: real, threshold: real,
                                           dist: Distance, pow25: Pow25)
    ensures AllMembers(Assign(xs, enforce, weight, threshold, dist, pow25)) == multiset(xs)
    ensures forall j | 0 <= j < |Assign(xs, enforce, weight, threshold, dist, pow25)| ::
      Assign(xs, enforce, weight, threshold, dist, pow25)[j] != []
    ensures |Assign(xs, enforce, weight, threshold, dist, pow25)| <= |xs|
  {
    if xs != [] {
      var init := xs[..|xs| - 1];
      AssignInvariant(init, enforce, weight, threshold, dist, pow25);
      PlaceInvariant(Assign(init, enforce, weight, threshold, dist, pow25), xs[|xs| - 1],
                     enforce, weight, threshold, dist, pow25);
      MultisetSnoc(xs);
    }
  }

  /** Under the triadic cap no cluster the assignment builds holds more than three members. */
  lemma {:induction false} AssignCapped(xs: seq<Instance>, weight: real, threshold: real, dist: Distance, pow25: Pow25)
    ensures forall j | 0 <= j < |Assign(xs, true, weight, threshold, dist, pow25)| ::
      |Assign(xs, true, weight, threshold, dist, pow25)[j]| <= TRIADIC_SIZE
  {
    if xs != [] {
      var init, x := xs[..|xs| - 1], xs[|xs| - 1];
      AssignCapped(init, weight, threshold, dist, pow25);
      var ps := Assign(init, true, weight, threshold, dist, pow25);
      var i := FirstFit(ps, x, 0, true, weight, threshold, dist, pow25);
      assert Assign(xs, true, weight, threshold, dist, pow25) == Place(ps, x, true, weight, threshold, dist, pow25);
      if i < |ps| {
        CandidateCap(x, ps[i], true, weight, threshold, dist, pow25);
      }
    }
  }

  /** What the optimisation loop of `doCluster` has collected after the first `k` clusters. */
  function Collected(ps: seq<seq<Instance>>, k: nat, dist: Distance): seq<seq<Instance>>
    requires k <= |ps|
  {
    if k == 0 then []
    else if ps[k - 1] == [] then Collected(ps, k - 1, dist)
    else Collected(ps, k - 1, dist) + [OptimizedTriad(ps[k - 1], dist)]
  }

  /** With no empty cluster, the optimisation loop keeps every cluster, in order, with its members. */
  lemma {:induction false} CollectedKeepsAll(ps: seq<seq<Instance>>, k: nat, dist: Distance)
    requires k <= |ps|
    requires forall j | 0 <= j < |ps| :: ps[j] != []
    ensures |Collected(ps, k, dist)| == k
    ensures forall j | 0 <= j < k :: Collected(ps, k, dist)[j] == OptimizedTriad(ps[j], dist)
  {
    if k > 0 {
      CollectedKeepsAll(ps, k - 1, dist);
    }
  }

  /** The optimisation loop loses and duplicates no instance. */
  lemma {:induction false} CollectedMembers(ps: seq<seq<Instance>>, k: nat, dist: Distance)
    requires k <= |ps|
    ensures AllMembers(Collected(ps, k, dist)) == AllMembers(ps[..k])
  {
    if k > 0 {
      CollectedMembers(ps, k - 1, dist);
      var prev := Collected(ps, k - 1, dist);
      var p := ps[k - 1];
      assert ps[..k] == ps[..k - 1] + [p];
      AllMembersAppend(ps[..k - 1], [p]);
      assert AllMembers([p]) == multiset(p);
      if p != [] {
        var q := OptimizedTriad(p, dist);
        OptimizedTriadPermutes(p, dist);
        AllMembersAppend(prev, [q]);
        assert AllMembers([q]) == multiset(q);
      }
    }
  }

  /** The clusters `doCluster` builds after the seeds, before any merging. */
  function Built(xs: seq<Instance>, enforce: bool, weight: real, threshold: real, dist: Distance, pow25: Pow25)
    : seq<seq<Instance>>
  {
    var ps := Assign(xs, enforce, weight, threshold, dist, pow25);
    Collected(ps, |ps|, dist)
  }

  /** The built clusters hold every instance exactly once; under the cap none exceeds three members. */
  lemma BuiltCoversInput(xs: seq<Instance>, enforce: bool, weight: real, threshold: real, dist: Distance, pow25: Pow25)
    ensures AllMembers(Built(xs, enforce, weight, threshold, dist, pow25)) == multiset(xs)
    ensures forall j | 0 <= j < |Built(xs, enforce, weight, threshold, dist, pow25)| ::
      Built(xs, enforce, weight, threshold, dist, pow25)[j] != []
    ensures enforce ==> forall j | 0 <= j < |Built(xs, enforce, weight, threshold, dist, pow25)| ::
      |Built(xs, enforce, weight, threshold, dist, pow25)[j]| <= TRIADIC_SIZE
  {
    var ps := Assign(xs, enforce, weight, threshold, dist, pow25);
    AssignInvariant(xs, enforce, weight, threshold, dist, pow25);
    if enforce {
      AssignCapped(xs, weight, threshold, dist, pow25);
    }
    CollectedMembers(ps, |ps|, dist);
    CollectedKeepsAll(ps, |ps|, dist);
    assert ps[..|ps|] == ps;
    var bs := Collected(ps, |ps|, dist);
    forall j | 0 <= j < |bs| ensures bs[j] != [] && |bs[j]| == |ps[j]| {
      OptimizedTriadPermutes(ps[j], dist);
    }
  }

  // --------------------------------------------------------------- merging

  /** The lists of exactly three members, in order. */
  function Complete(ps: seq<seq<Instance>>): (r: seq<seq<Instance>>)
    ensures forall j | 0 <= j < |r| :: |r[j]| == TRIADIC_SIZE
  {
    if ps == [] then []
    else if |ps[|ps| - 1]| == TRIADIC_SIZE then Complete(ps[..|ps| - 1]) + [ps[|ps| - 1]]
    else Complete(ps[..|ps| - 1])
  }

  /** The other lists, in order. */
  function Incomplete(ps: seq<seq<Instance>>): (r: seq<seq<Instance>>)
    ensures forall j | 0 <= j < |r| :: |r[j]| != TRIADIC_SIZE
  {
    if ps == [] then []
    else if |ps[|ps| - 1]| == TRIADIC_SIZE then Incomplete(ps[..|ps| - 1])
    else Incomplete(ps[..|ps| - 1]) + [ps[|ps| - 1]]
  }

  /**
   * The merge loop of `mergeIncompleteTriads`: while two incomplete lists
   * remain, the front two are merged when together they hold at most four
   * members (a merged triad joins the complete lists, anything else goes to
   * the back of the queue); the first pair too large is put back at the end
   * and stops the loop. The complete lists come first in the result.
   */
  function MergeLoop(complete: seq<seq<Instance>>, incomplete: seq<seq<Instance>>): seq<seq<Instance>>
    decreases |incomplete|
  {
    if |incomplete| <= 1 then complete + incomplete
    else
      var a, b, rest := incomplete[0], incomplete[1], incomplete[2..];
      if |a| + |b| <= TRIADIC_SIZE + 1 then
        var merged := a + b;
        if |merged| == TRIADIC_SIZE then MergeLoop(complete + [merged], rest)
        else MergeLoop(complete, rest + [merged])
      else complete + (rest + [a, b])
  }

  /** `mergeIncompleteTriads` on the member lists. */
  function Merged(ps: seq<seq<Instance>>): seq<seq<Instance>>
  {
    MergeLoop(Complete(ps), Incomplete(ps))
  }

  lemma {:induction false} SplitMembers(ps: seq<seq<Instance>>)
    ensures AllMembers(Complete(ps)) + AllMembers(Incomplete(ps)) == AllMembers(ps)
    ensures |Complete(ps)| + |Incomplete(ps)| == |ps|
  {
    if ps != [] {
      var init, last := ps[..|ps| - 1], ps[|ps| - 1];
      SplitMembers(init);
      if |last| == TRIADIC_SIZE {
        AllMembersAppend(Complete(init), [last]);
      } else {
        AllMembersAppend(Incomplete(init), [last]);
      }
      assert AllMembers([last]) == multiset(last);
    }
  }

  lemma SplitSnoc(ps: seq<seq<Instance>>, p: seq<Instance>)
    ensures Complete(ps + [p]) == if |p| == TRIADIC_SIZE then Complete(ps) + [p] else Complete(ps)
    ensures Incomplete(ps + [p]) == if |p| == TRIADIC_SIZE then Incomplete(ps) else Incomplete(ps) + [p]
  {
    assert (ps + [p])[..|ps|] == ps;
  }

  /** Once a list other than a triad appears, no triad follows. */
  predicate TriadsFirst(rs: seq<seq<Instance>>)
  {
    forall a, b | 0 <= a < b < |rs| :: |rs[a]| != TRIADIC_SIZE ==> |rs[b]| != TRIADIC_SIZE
  }

  /** The merge loop terminates and loses and duplicates no instance. */
  lemma {:induction false} MergeLoopMembers(complete: seq<seq<Instance>>, incomplete: seq<seq<Instance>>)
    ensures AllMembers(MergeLoop(complete, incomplete)) == AllMembers(complete) + AllMembers(incomplete)
    decreases |incomplete|
  {
    if |incomplete| <= 1 {
      AllMembersAppend(complete, incomplete);
    } else {
      var a, b, rest := incomplete[0], incomplete[1], incomplete[2..];
      PairMembers(incomplete);
      if |a| + |b| <= TRIADIC_SIZE + 1 {
        var merged := a + b;
        assert AllMembers([merged]) == multiset(a) + multiset(b);
        if |merged| == TRIADIC_SIZE {
          MergeLoopMembers(complete + [merged], rest);
          AllMembersAppend(complete, [merged]);
        } else {
          MergeLoopMembers(complete, rest + [merged]);
          AllMembersAppend(rest, [merged]);
        }
      } else {
        AllMembersAppend(rest, [a, b]);
        AllMembersAppend(complete, rest + [a, b]);
      }
    }
  }

  lemma PairMembers(ps: seq<seq<Instance>>)
    requires |ps| >= 2
    ensures AllMembers(ps) == multiset(ps[0]) + multiset(ps[1]) + AllMembers(ps[2..])
    ensures AllMembers([ps[0], ps[1]]) == multiset(ps[0]) + multiset(ps[1])
  {
    assert ps == [ps[0], ps[1]] + ps[2..];
    AllMembersAppend([ps[0], ps[1]], ps[2..]);
    assert [ps[0], ps[1]][..1] == [ps[0]];
    assert AllMembers([ps[0]]) == multiset(ps[0]);
  }

  /** The merge loop never adds a list and keeps the triads in front of the rest. */
  lemma {:induction false} MergeLoopShape(complete: seq<seq<Instance>>, incomplete: seq<seq<Instance>>)
    requires forall j | 0 <= j < |complete| :: |complete[j]| == TRIADIC_SIZE
    requires forall j | 0 <= j < |incomplete| :: |incomplete[j]| != TRIADIC_SIZE
    ensures |MergeLoop(complete, incomplete)| <= |complete| + |incomplete|
    ensures TriadsFirst(MergeLoop(complete, incomplete))
    decreases |incomplete|
  {
    if |incomplete| > 1 {
      var a, b, rest := incomplete[0], incomplete[1], incomplete[2..];
      if |a| + |b| <= TRIADIC_SIZE + 1 {
        var merged := a + b;
        if |merged| == TRIADIC_SIZE {
          MergeLoopShape(complete + [merged], rest);
        } else {
          MergeLoopShape(complete, rest + [merged]);
        }
      } else {
        var tail := rest + [a, b];
        assert forall j | 0 <= j < |tail| :: |tail[j]| != TRIADIC_SIZE;
      }
    }
  }

  /**
   * `mergeIncompleteTriads` loses and duplicates no instance, returns at most
   * as many clusters as it got, and lists the triads first.
   */
  lemma MergedSpec(ps: seq<seq<Instance>>)
    ensures AllMembers(Merged(ps)) == AllMembers(ps)
    ensures |Merged(ps)| <= |ps|
    ensures TriadsFirst(Merged(ps))
  {
    SplitMembers(ps);
    MergeLoopMembers(Complete(ps), Incomplete(ps));
    MergeLoopShape(Complete(ps), Incomplete(ps));
  }

  /**
   * Three singletons: the first two merge into a pair, which goes to the back
   * of the queue, so the triad it then forms with the third lists that one first.
   */
  lemma MergeExample(a: Instance, b: Instance, c: Instance)
    ensures Merged([[a], [b], [c]]) == [[c, a, b]]
  {
    var ps := [[a], [b], [c]];
    SplitSnoc([], [a]);
    assert [[a], [b]] == [[a]] + [[b]];
    SplitSnoc([[a]], [b]);
    assert ps == [[a], [b]] + [[c]];
    SplitSnoc([[a], [b]], [c]);
    assert [a] + [b] == [a, b] && [c] + [a, b] == [c, a, b];
    assert ps[2..] + [[a, b]] == [[c], [a, b]];
    var rest: seq<seq<Instance>> := [[c], [a, b]][2..];
    assert rest == [];
    assert MergeLoop([], [[c], [a, b]]) == MergeLoop([[c, a, b]], rest);
  }

  /** A pair, then a list of four: together six members, so the loop stops at once and puts both at the back. */
  lemma MergeStopsExample(a: Instance, b: Instance, c: Instance, d: Instance, e: Instance)
    ensures Merged([[a, b], [c, d, e, a], [e]]) == [[e], [a, b], [c, d, e, a]]
  {
    var ps := [[a, b], [c, d, e, a], [e]];
    SplitSnoc([], [a, b]);
    assert [[a, b], [c, d, e, a]] == [[a, b]] + [[c, d, e, a]];
    SplitSnoc([[a, b]], [c, d, e, a]);
    assert ps == [[a, b], [c, d, e, a]] + [[e]];
    SplitSnoc([[a, b], [c, d, e, a]], [e]);
    assert ps[2..] + [[a, b], [c, d, e, a]] == [[e], [a, b], [c, d, e, a]];
  }

  /** Pascal's rule as a loop over the first index uses it: C(m, k) - C(m - 1, k) == C(m - 1, k - 1). */
  lemma CountStep(m: nat, k: nat, added: int)
    requires 1 <= m && 1 <= k && added == BSeries.Binomial(m - 1, k - 1)
    ensures BSeries.Binomial(m, k) - added == BSeries.Binomial(m - 1, k)
  {
  }

  /** C(m, 1) == m. */
  lemma {:induction false} BinomialOne(m: nat)
    ensures BSeries.Binomial(m, 1) == m
  {
    if m > 0 {
      BinomialOne(m - 1);
    }
  }

  /** The product of the innermost loop, regrouped so the member's factor comes second. */
  lemma FiveProduct(c: real, d1: real, d2: real, d3: real, d4: real, d5: real)
    ensures c * d1 * d2 * d3 * d4 * d5 == c * d1 * d5 * d2 * d3 * d4
  {
  }

  class BSeriesOrder5TriadicClustering {
    var triadicThreshold: real
    var order5Weight: real
    var enforceTriadicStructure: bool
    var penalizeMissingFeatures: bool

    constructor (triadicThreshold: real, order5Weight: real, enforceTriadicStructure: bool,
                 penalizeMissingFeatures: bool)
      ensures this.triadicThreshold == triadicThreshold && this.order5Weight == order5Weight
      ensures this.enforceTriadicStructure == enforceTriadicStructure
      ensures this.penalizeMissingFeatures == penalizeMissingFeatures
    {
      this.triadicThreshold := triadicThreshold;
      this.order5Weight := order5Weight;
      this.enforceTriadicStructure := enforceTriadicStructure;
      this.penalizeMissingFeatures := penalizeMissingFeatures;
    }

    /** `calculateSimplifiedOrder5`. */
    static method SimplifiedOrder5(x: Instance, m: Instance, c: Cluster, dist: Distance, pow25: Pow25)
      returns (t: real)
      ensures t == Simplified(x, m, c.members, dist, pow25)
    {
      var directDistance := dist(x, m);
      if c.Size() == 0 {
        return directDistance;
      }
      var members := c.members;
      var clusterInfluence := 0.0;
      for i := 0 to |members|
        invariant clusterInfluence == Influence(x, m, members[..i], dist, pow25)
      {
        ghost var pre := members[..i + 1];
        assert pre[..|pre| - 1] == members[..i] && pre[|pre| - 1] == members[i];
        var member := members[i];
        if member != x && member != m {
          var dist1 := dist(x, member);
          var dist2 := dist(m, member);
          clusterInfluence := clusterInfluence + Interaction(dist1, dist2, pow25);
        }
        InfluenceSnoc(x, m, pre, dist, pow25);
      }
      assert members[..|members|] == members;
      t := directDistance + ORDER_5_COEFFICIENT * clusterInfluence;
    }

    /** The innermost loop of `calculateOrder5Term`, over l > k, with its `int` counter. */
    static method AddOverL(x: Instance, m: Instance, members: seq<Instance>, dist: Distance,
                           i: nat, j: nat, k: nat, sum0: real, count0: Int32, ghost total0: int)
      returns (sum: real, count: Int32, ghost total: int)
      requires i < j < k < |members| && count0 == Wrap(total0)
      ensures sum == sum0 + BSeries.NestSum(1, DistancesFrom(x, members, dist),
        ORDER_5_COEFFICIENT * dist(x, members[i]) * dist(m, members[i]) * dist(x, members[j]) * dist(x, members[k]),
        k + 1, |members|)
      ensures total == total0 + BSeries.Binomial(|members| - k - 1, 1) && count == Wrap(total)
    {
      ghost var dx := DistancesFrom(x, members, dist);
      ghost var p := ORDER_5_COEFFICIENT * dist(x, members[i]) * dist(m, members[i]) * dist(x, members[j]) * dist(x, members[k]);
      sum, count, total := sum0, count0, total0;
      for l := k + 1 to |members|
        invariant sum == sum0 + BSeries.NestSum(1, dx, p, k + 1, l)
        invariant total == total0 + (l - k - 1) && count == Wrap(total)
      {
        var dist1 := dist(x, members[i]);
        var dist2 := dist(x, members[j]);
        var dist3 := dist(x, members[k]);
        var dist4 := dist(x, members[l]);
        var dist5 := dist(m, members[i]);
        FiveProduct(ORDER_5_COEFFICIENT, dist1, dist2, dist3, dist4, dist5);
        sum := sum + ORDER_5_COEFFICIENT * dist1 * dist2 * dist3 * dist4 * dist5;
        WrapAdd(total, 1);
        count := Wrap(count + 1);
        total := total + 1;
      }
      BinomialOne(|members| - k - 1);
    }

    /** The loop over k > j of `calculateOrder5Term`. */
    static method AddOverK(x: Instance, m: Instance, members: seq<Instance>, dist: Distance,
                           i: nat, j: nat, sum0: real, count0: Int32, ghost total0: int)
      returns (sum: real, count: Int32, ghost total: int)
      requires i < j < |members| && count0 == Wrap(total0)
      ensures sum == sum0 + BSeries.NestSum(2, DistancesFrom(x, members, dist),
        ORDER_5_COEFFICIENT * dist(x, members[i]) * dist(m, members[i]) * dist(x, members[j]), j + 1, |members|)
      ensures total == total0 + BSeries.Binomial(|members| - j - 1, 2) && count == Wrap(total)
    {
      ghost var dx := DistancesFrom(x, members, dist);
      ghost var p := ORDER_5_COEFFICIENT * dist(x, members[i]) * dist(m, members[i]) * dist(x, members[j]);
      ghost var n := |members|;
      sum, count, total := sum0, count0, total0;
      for k := j + 1 to |members|
        invariant sum == sum0 + BSeries.NestSum(2, dx, p, j + 1, k)
        invariant total == total0 + BSeries.Binomial(n - j - 1, 2) - BSeries.Binomial(n - k, 2) && count == Wrap(total)
      {
        assert p * dx[k] ==
          ORDER_5_COEFFICIENT * dist(x, members[i]) * dist(m, members[i]) * dist(x, members[j]) * dist(x, members[k]);
        sum, count, total := AddOverL(x, m, members, dist, i, j, k, sum, count, total);
        BSeries.NestSumSnoc(2, dx, p, j + 1, k);
      }
    }

    /** The loop over j > i of `calculateOrder5Term`. */
    static method AddOverJ(x: Instance, m: Instance, members: seq<Instance>, dist: Distance,
                           i: nat, sum0: real, count0: Int32, ghost total0: int)
      returns (sum: real, count: Int32, ghost total: int)
      requires i < |members| && count0 == Wrap(total0)
      ensures sum == sum0 + BSeries.NestSum(3, DistancesFrom(x, members, dist),
        ORDER_5_COEFFICIENT * dist(x, members[i]) * dist(m, members[i]), i + 1, |members|)
      ensures total == total0 + BSeries.Binomial(|members| - i - 1, 3) && count == Wrap(total)
    {
      ghost var dx := DistancesFrom(x, members, dist);
      ghost var p := ORDER_5_COEFFICIENT * dist(x, members[i]) * dist(m, members[i]);
      ghost var n := |members|;
      sum, count, total := sum0, count0, total0;
      for j := i + 1 to |members|
        invariant sum == sum0 + BSeries.NestSum(3, dx, p, i + 1, j)
        invariant total == total0 + BSeries.Binomial(n - i - 1, 3) - BSeries.Binomial(n - j, 3) && count == Wrap(total)
      {
        assert p * dx[j] == ORDER_5_COEFFICIENT * dist(x, members[i]) * dist(m, members[i]) * dist(x, members[j]);
        sum, count, total := AddOverK(x, m, members, dist, i, j, sum, count, total);
        BSeries.NestSumSnoc(3, dx, p, i + 1, j);
      }
    }

    /** The outer loop of `calculateOrder5Term`, over i, with the sum and the `int` counter it ends with. */
    static method FiveWayLoop(x: Instance, m: Instance, members: seq<Instance>, dist: Distance)
      returns (sum: real, count: Int32)
      ensures sum == FiveWaySum(x, m, members, dist, |members|)
      ensures count == QuadrupleCount(|members|)
    {
      sum := 0.0;
      count := 0;
      ghost var total := 0;
      ghost var n := |members|;
      for i := 0 to |members|
        invariant sum == FiveWaySum(x, m, members, dist, i)
        invariant total == BSeries.Binomial(n, 4) - BSeries.Binomial(n - i, 4) && count == Wrap(total)
      {
        ghost var before, sum0 := total, sum;
        sum, count, total := AddOverJ(x, m, members, dist, i, sum, count, total);
        FiveWaySumStep(x, m, members, dist, i, sum0, sum);
        CountStep(n - i, 4, total - before);
      }
    }

    /** `calculateOrder5Term`: the simplified term below five members, else the mean over index quadruples. */
    static method Order5Term(x: Instance, m: Instance, c: Cluster, dist: Distance, pow25: Pow25)
      returns (t: real)
      ensures t == Order5(x, m, c.members, dist, pow25)
    {
      if c.Size() < 5 {
        t := SimplifiedOrder5(x, m, c, dist, pow25);
        return;
      }
      var sum, count := FiveWayLoop(x, m, c.members, dist);
      t := if count > 0 then sum / (count as real) else 0.0;
    }
  
    /** The summing loop of `calculateTriadicCompatibility`: the weighted order-5 terms of all members. */
    method WeightedTerms(x: Instance, c: Cluster, dist: Distance, pow25: Pow25) returns (triadicSum: real)
      ensures triadicSum == WeightedSum(x, c.members, |c.members|, order5Weight, dist, pow25)
    {
      triadicSum := 0.0;
      var members := c.members;
      for i := 0 to |members|
        invariant triadicSum == WeightedSum(x, members, i, order5Weight, dist, pow25)
      {
        var order5Value := Order5Term(x, members[i], c, dist, pow25);
        var term := order5Value * order5Weight;
        WeightedSumStep(x, members, i, order5Weight, dist, pow25, term);
        triadicSum := triadicSum + term;
      }
    }

    /** `calculateTriadicCompatibility`. */
    method TriadicCompatibility(x: Instance, c: Cluster, dist: Distance, pow25: Pow25) returns (v: real)
      ensures v == Compatibility(x, c.members, order5Weight, dist, pow25)
    {
      if c.Size() == 0 {
        return 0.0;
      }
      var triadicSum := WeightedTerms(x, c, dist, pow25);
      var size := if 1 < c.Size() then c.Size() else 1;
      v := triadicSum / (size as real);
    }

    /** `isCandidate`. */
    method IsCandidate(x: Instance, c: Cluster, dist: Distance, pow25: Pow25) returns (r: bool)
      ensures r == Candidate(x, c.members, enforceTriadicStructure, order5Weight, triadicThreshold, dist, pow25)
    {
      if enforceTriadicStructure && c.Size() >= TRIADIC_SIZE {
        return false;
      }
      if c.Size() == 0 {
        return true;
      }
      var triadicValue := TriadicCompatibility(x, c, dist, pow25);
      r := triadicValue <= triadicThreshold;
    }

    /** `calculateTriadicStability`. */
    static method TriadicStability(c: Cluster, dist: Distance) returns (s: real)
      ensures s == Stability(c.members, dist)
    {
      if c.Size() != TRIADIC_SIZE {
        return 0.0;
      }
      var members := c.members;
      var dist12 := dist(members[0], members[1]);
      var dist13 := dist(members[0], members[2]);
      var dist23 := dist(members[1], members[2]);
      var meanDistance := (dist12 + dist13 + dist23) / 3.0;
      var variance := Square(dist12 - meanDistance) + Square(dist13 - meanDistance) + Square(dist23 - meanDistance);
      s := 1.0 / (1.0 + variance);
    }

    /** One test of the triple loop of `optimizeTriadicStructure`: step `9i + 3j + k` of `Scan`. */
    static method TryPermutation(members: seq<Instance>, i: nat, j: nat, k: nat, dist: Distance,
                                 bestOrdering: seq<Instance>, bestStability: real, ghost t: nat)
      returns (ordering: seq<Instance>, stability: real)
      requires |members| == TRIADIC_SIZE && i < 3 && j < 3 && k < 3 && t == 9 * i + 3 * j + k
      requires Choice(bestOrdering, bestStability) == Scan(members, StabilityScore(dist), t)
      ensures Choice(ordering, stability) == Scan(members, StabilityScore(dist), t + 1)
    {
      ScanAt(members, StabilityScore(dist), i, j, k);
      ordering, stability := bestOrdering, bestStability;
      if i != j && j != k && i != k {
        var testCluster := NewClusterOf([members[i], members[j], members[k]]);
        var s := TriadicStability(testCluster, dist);
        assert s == StabilityScore(dist)(Perm(members, i, j, k));
        if s > bestStability {
          stability := s;
          ordering := [members[i], members[j], members[k]];
        }
      }
    }

    /** The innermost loop of `optimizeTriadicStructure`, over `k` for fixed `i` and `j`. */
    static method ScanK(members: seq<Instance>, i: nat, j: nat, dist: Distance,
                        bestOrdering: seq<Instance>, bestStability: real)
      returns (ordering: seq<Instance>, stability: real)
      requires |members| == TRIADIC_SIZE && i < 3 && j < 3
      requires Choice(bestOrdering, bestStability) == Scan(members, StabilityScore(dist), 9 * i + 3 * j)
      ensures Choice(ordering, stability) == Scan(members, StabilityScore(dist), 9 * i + 3 * j + 3)
    {
      ordering, stability := bestOrdering, bestStability;
      ghost var t: nat := 9 * i + 3 * j;
      for k := 0 to 3
        invariant t == 9 * i + 3 * j + k && Choice(ordering, stability) == Scan(members, StabilityScore(dist), t)
      {
        ordering, stability := TryPermutation(members, i, j, k, dist, ordering, stability, t);
        t := t + 1;
      }
    }

    /** The middle loop of `optimizeTriadicStructure`, over `j` for fixed `i`. */
    static method ScanJ(members: seq<Instance>, i: nat, dist: Distance,
                        bestOrdering: seq<Instance>, bestStability: real)
      returns (ordering: seq<Instance>, stability: real)
      requires |members| == TRIADIC_SIZE && i < 3
      requires Choice(bestOrdering, bestStability) == Scan(members, StabilityScore(dist), 9 * i)
      ensures Choice(ordering, stability) == Scan(members, StabilityScore(dist), 9 * i + 9)
    {
      ordering, stability := bestOrdering, bestStability;
      for j := 0 to 3
        invariant Choice(ordering, stability) == Scan(members, StabilityScore(dist), 9 * i + 3 * j)
      {
        ordering, stability := ScanK(members, i, j, dist, ordering, stability);
      }
    }

    /** The triple loop of `optimizeTriadicStructure`: the most stable order of a triad, the current order on ties. */
    static method BestOrdering(members: seq<Instance>, dist: Distance) returns (bestOrdering: seq<Instance>)
      requires |members| == TRIADIC_SIZE
      ensures bestOrdering == Scan(members, StabilityScore(dist), SCAN_LENGTH).ordering
    {
      var current := NewClusterOf(members);
      var bestStability := TriadicStability(current, dist);
      bestOrdering := members;
      for i := 0 to 3
        invariant Choice(bestOrdering, bestStability) == Scan(members, StabilityScore(dist), 9 * i)
      {
        bestOrdering, bestStability := ScanJ(members, i, dist, bestOrdering, bestStability);
      }
    }

    /** `optimizeTriadicStructure(cluster)`: the cluster rebuilt in the most stable order found. */
    static method OptimizeTriadicStructure(cluster: Cluster, dist: Distance)
      modifies cluster
      ensures cluster.members == OptimizedTriad(old(cluster.members), dist)
    {
      if cluster.Size() != TRIADIC_SIZE {
        return;
      }
      var bestOrdering := BestOrdering(cluster.members, dist);
      Rebuild(cluster, bestOrdering);
    }

    /** `if (isCandidate(x, cs[k])) cs[k].add(x)`, seen on the member lists of all clusters. */
    method TryCluster(cs: seq<Cluster>, k: nat, x: Instance, dist: Distance, pow25: Pow25, ghost ps: seq<seq<Instance>>)
      returns (added: bool)
      requires k < |cs| && Distinct(cs) && Holds(cs, ps)
      modifies cs[k]
      ensures added <==> Candidate(x, ps[k], enforceTriadicStructure, order5Weight, triadicThreshold, dist, pow25)
      ensures added ==> Holds(cs, AddTo(ps, k, x))
      ensures !added ==> Holds(cs, ps)
    {
      added := IsCandidate(x, cs[k], dist, pow25);
      if added {
        cs[k].Add(x);
      }
    }

    /** The scan over the triadic clusters in creation order, stopping at the first that accepts. */
    method FirstFitScan(cs: seq<Cluster>, x: Instance, dist: Distance, pow25: Pow25, ghost ps: seq<seq<Instance>>)
      returns (placed: bool)
      requires Distinct(cs) && Holds(cs, ps)
      modifies set c | c in cs
      ensures placed <==>
        FirstFit(ps, x, 0, enforceTriadicStructure, order5Weight, triadicThreshold, dist, pow25) < |ps|
      ensures placed ==> Holds(cs, AddTo(ps,
        FirstFit(ps, x, 0, enforceTriadicStructure, order5Weight, triadicThreshold, dist, pow25), x))
      ensures !placed ==> Holds(cs, ps)
    {
      placed := false;
      var i := 0;
      while i < |cs| && !placed
        invariant 0 <= i <= |cs|
        invariant !placed ==> Holds(cs, ps)
        invariant !placed ==>
          FirstFit(ps, x, 0, enforceTriadicStructure, order5Weight, triadicThreshold, dist, pow25) ==
          FirstFit(ps, x, i, enforceTriadicStructure, order5Weight, triadicThreshold, dist, pow25)
        invariant placed ==> (0 < i &&
          FirstFit(ps, x, 0, enforceTriadicStructure, order5Weight, triadicThreshold, dist, pow25) == i - 1)
        invariant placed ==> Holds(cs, AddTo(ps, i - 1, x))
      {
        placed := TryCluster(cs, i, x, dist, pow25, ps);
        i := i + 1;
      }
    }

    /** One pass of the instance loop of `doCluster`: the first accepting triadic cluster takes `x`, else a new one does. */
    method PlaceInstance(cs: seq<Cluster>, x: Instance, dist: Distance, pow25: Pow25, ghost ps: seq<seq<Instance>>)
      returns (next: seq<Cluster>)
      requires Distinct(cs) && Holds(cs, ps)
      modifies set c | c in cs
      ensures Distinct(next) && forall j | 0 <= j < |next| :: next[j] in cs || fresh(next[j])
      ensures Holds(next, Place(ps, x, enforceTriadicStructure, order5Weight, triadicThreshold, dist, pow25))
    {
      next := cs;
      var placed := FirstFitScan(cs, x, dist, pow25, ps);
      if !placed {
        var c := NewClusterOf([x]);
        HoldsSnoc(cs, ps, c, [x]);
        next := cs + [c];
      }
    }

    /** The instance loop of `doCluster`. */
    method AssignAll(instances: seq<Instance>, dist: Distance, pow25: Pow25) returns (cs: seq<Cluster>)
      ensures Distinct(cs) && forall j | 0 <= j < |cs| :: fresh(cs[j])
      ensures Holds(cs, Assign(instances, enforceTriadicStructure, order5Weight, triadicThreshold, dist, pow25))
    {
      cs := [];
      for n := 0 to |instances|
        invariant Distinct(cs) && forall j | 0 <= j < |cs| :: fresh(cs[j])
        invariant Holds(cs, Assign(instances[..n], enforceTriadicStructure, order5Weight, triadicThreshold, dist, pow25))
      {
        AssignStep(instances, n, enforceTriadicStructure, order5Weight, triadicThreshold, dist, pow25);
        cs := PlaceInstance(cs, instances[n], dist, pow25,
                            Assign(instances[..n], enforceTriadicStructure, order5Weight, triadicThreshold, dist, pow25));
      }
      assert instances[..|instances|] == instances;
    }

    /** One step of the optimisation loop: a non-empty cluster is optimised and kept, an empty one dropped. */
    static method CollectCluster(built: seq<Cluster>, c: Cluster, dist: Distance, ghost ps: seq<seq<Instance>>)
      returns (next: seq<Cluster>)
      requires Holds(built, ps) && forall j | 0 <= j < |built| :: built[j] != c
      modifies c
      ensures old(c.members) == [] ==> next == built && Holds(next, ps)
      ensures old(c.members) != [] ==> next == built + [c]
      ensures old(c.members) != [] ==> Holds(next, ps + [OptimizedTriad(old(c.members), dist)])
    {
      next := built;
      if c.Size() > 0 {
        OptimizeTriadicStructure(c, dist);
        HoldsSnoc(built, ps, c, c.members);
        next := built + [c];
      }
    }

    /** The optimisation loop of `doCluster` over the triadic clusters in creation order. */
    static method CollectAll(cs: seq<Cluster>, dist: Distance, ghost start: seq<seq<Instance>>) returns (built: seq<Cluster>)
      requires Distinct(cs) && Holds(cs, start)
      modifies set c | c in cs
      ensures Distinct(built) && forall j | 0 <= j < |built| :: built[j] in cs
      ensures Holds(built, Collected(start, |start|, dist))
    {
      built := [];
      ghost var from: seq<nat> := [];
      ghost var acc: seq<seq<Instance>> := [];
      for k := 0 to |cs|
        invariant |from| == |built| && forall j | 0 <= j < |built| :: from[j] < k && built[j] == cs[from[j]]
        invariant forall a, b | 0 <= a < b < |from| :: from[a] < from[b]
        invariant forall j | k <= j < |cs| :: cs[j].members == start[j]
        invariant acc == Collected(start, k, dist)
        invariant Holds(built, acc)
      {
        var next := CollectCluster(built, cs[k], dist, acc);
        if next != built {
          from := from + [k];
          acc := acc + [OptimizedTriad(start[k], dist)];
        }
        built := next;
      }
    }

    /** Adds the members of `source` to `target` one by one. */
    static method AddAll(target: Cluster, source: Cluster)
      requires target != source
      modifies target
      ensures target.members == old(target.members) + source.members
    {
      var members := source.members;
      ghost var start := target.members;
      for i := 0 to |members|
        invariant target.members == start + members[..i]
      {
        target.Add(members[i]);
        assert members[..i + 1] == members[..i] + [members[i]];
      }
      assert members[..|members|] == members;
    }

    /** The separating loop of `mergeIncompleteTriads`. */
    static method SplitTriads(clusters: seq<Cluster>, ghost ps: seq<seq<Instance>>)
      returns (complete: seq<Cluster>, incomplete: seq<Cluster>)
      requires Distinct(clusters) && Holds(clusters, ps)
      ensures Holds(complete, Complete(ps)) && Holds(incomplete, Incomplete(ps))
      ensures Distinct(complete) && Distinct(incomplete) && forall c | c in complete :: c !in incomplete
      ensures (forall c | c in complete :: c in clusters) && (forall c | c in incomplete :: c in clusters)
    {
      complete, incomplete := [], [];
      for i := 0 to |clusters|
        invariant Holds(complete, Complete(ps[..i])) && Holds(incomplete, Incomplete(ps[..i]))
        invariant Distinct(complete) && Distinct(incomplete) && forall c | c in complete :: c !in incomplete
        invariant forall c | c in complete :: c in clusters[..i]
        invariant forall c | c in incomplete :: c in clusters[..i]
      {
        var c := clusters[i];
        assert ps[..i + 1] == ps[..i] + [ps[i]];
        assert clusters[..i + 1] == clusters[..i] + [c];
        SplitSnoc(ps[..i], ps[i]);
        assert c !in clusters[..i];
        if c.Size() == TRIADIC_SIZE {
          HoldsSnoc(complete, Complete(ps[..i]), c, ps[i]);
          DistinctSnoc(complete, c);
          complete := complete + [c];
        } else {
          HoldsSnoc(incomplete, Incomplete(ps[..i]), c, ps[i]);
          DistinctSnoc(incomplete, c);
          incomplete := incomplete + [c];
        }
      }
      assert ps[..|clusters|] == ps;
      assert clusters[..|clusters|] == clusters;
    }

    /** The queues of `mergeIncompleteTriads`: distinct clusters of `clusters` holding `cp` and `ip`. */
    static predicate MergeState(complete: seq<Cluster>, incomplete: seq<Cluster>,
                                cp: seq<seq<Instance>>, ip: seq<seq<Instance>>, clusters: seq<Cluster>)
      reads complete, incomplete
    {
      Holds(complete, cp) && Holds(incomplete, ip) &&
      Distinct(complete) && Distinct(incomplete) && (forall c | c in complete :: c !in incomplete) &&
      (forall c | c in complete :: c in clusters) && (forall c | c in incomplete :: c in clusters)
    }

    /** One pass of the merging loop: the first two incomplete triads, merged when they fit in four members. */
    static method MergeFront(complete: seq<Cluster>, incomplete: seq<Cluster>, ghost cp: seq<seq<Instance>>,
                             ghost ip: seq<seq<Instance>>, ghost clusters: seq<Cluster>)
      returns (complete': seq<Cluster>, incomplete': seq<Cluster>, ghost cp': seq<seq<Instance>>,
               ghost ip': seq<seq<Instance>>, stop: bool)
      requires MergeState(complete, incomplete, cp, ip, clusters) && |incomplete| > 1
      modifies incomplete[0]
      ensures forall j | 0 <= j < |clusters| :: old(clusters[j].members) <= clusters[j].members
      ensures MergeState(complete', incomplete', cp', ip', clusters)
      ensures !stop ==> |incomplete'| < |incomplete| && MergeLoop(cp', ip') == MergeLoop(cp, ip)
      ensures stop ==> cp' + ip' == MergeLoop(cp, ip)
    {
      var cluster1 := incomplete[0];
      var cluster2 := incomplete[1];
      complete', incomplete' := complete, incomplete[2..];
      ghost var a, b, rest := ip[0], ip[1], ip[2..];
      cp', ip' := cp, rest;
      stop := false;
      if cluster1.Size() + cluster2.Size() <= TRIADIC_SIZE + 1 {
        assert forall j | 0 <= j < |complete| :: complete[j] != cluster1 by {
          forall j | 0 <= j < |complete| ensures complete[j] != cluster1 {
            assert complete[j] in complete;
          }
        }
        AddAll(cluster1, cluster2);
        if cluster1.Size() == TRIADIC_SIZE {
          complete' := complete + [cluster1];
          cp' := cp + [a + b];
        } else {
          incomplete' := incomplete' + [cluster1];
          ip' := rest + [a + b];
        }
      } else {
        incomplete' := incomplete' + [cluster1, cluster2];
        ip' := rest + [a, b];
        stop := true;
      }
    }

    /** `mergeIncompleteTriads`. */
    static method MergeIncompleteTriads(clusters: seq<Cluster>, ghost ps: seq<seq<Instance>>) returns (result: seq<Cluster>)
      requires Distinct(clusters) && Holds(clusters, ps)
      modifies set c | c in clusters
      ensures Holds(result, Merged(ps))
      ensures forall j | 0 <= j < |result| :: result[j] in clusters
      ensures forall c | c in clusters :: old(c.members) <= c.members
    {
      var complete, incomplete := SplitTriads(clusters, ps);
      ghost var cp, ip := Complete(ps), Incomplete(ps);
      while |incomplete| > 1
        invariant MergeState(complete, incomplete, cp, ip, clusters)
        invariant MergeLoop(cp, ip) == Merged(ps)
        invariant forall j | 0 <= j < |clusters| :: old(clusters[j].members) <= clusters[j].members
        decreases |incomplete|
      {
        var stop;
        complete, incomplete, cp, ip, stop := MergeFront(complete, incomplete, cp, ip, clusters);
        if stop {
          break;
        }
      }
      result := complete + incomplete;
    }

    /**
     * `doCluster`: the seeds, then the non-empty triadic clusters in creation
     * order, each optimised; without the triadic cap the whole list, seeds
     * included, then goes through `mergeIncompleteTriads`.
     */
    method DoCluster(instances: seq<Instance>, seeds: seq<Cluster>, dist: Distance, pow25: Pow25)
      returns (result: seq<Cluster>)
      requires !enforceTriadicStructure ==> Distinct(seeds)
      modifies set c | c in seeds
      ensures forall j | 0 <= j < |result| :: result[j] in seeds || fresh(result[j])
      ensures enforceTriadicStructure ==> |seeds| <= |result| && result[..|seeds|] == seeds
      ensures enforceTriadicStructure ==> forall c | c in seeds :: c.members == old(c.members)
      ensures enforceTriadicStructure ==> (MembersOf(result) ==
        old(MembersOf(seeds)) + Built(instances, true, order5Weight, triadicThreshold, dist, pow25))
      ensures forall c | c in seeds :: old(c.members) <= c.members
      ensures !enforceTriadicStructure ==> (MembersOf(result) ==
        Merged(old(MembersOf(seeds)) + Built(instances, false, order5Weight, triadicThreshold, dist, pow25)))
    {
      ghost var start := MembersOf(seeds);
      ghost var ps := Assign(instances, enforceTriadicStructure, order5Weight, triadicThreshold, dist, pow25);
      var cs := AssignAll(instances, dist, pow25);
      var built := CollectAll(cs, dist, ps);
      ghost var bs := Collected(ps, |ps|, dist);
      assert bs == Built(instances, enforceTriadicStructure, order5Weight, triadicThreshold, dist, pow25);
      result := seeds + built;
      SeedsThenBuilt(seeds, built);
      HoldsAppend(seeds, start, built, bs);
      assert forall j | 0 <= j < |built| :: fresh(built[j]);
      assert forall c | c in result :: c in seeds || fresh(c);
      if !enforceTriadicStructure {
        DistinctAppend(seeds, built);
        ghost var all := result;
        result := MergeIncompleteTriads(result, start + bs);
        assert forall j | 0 <= j < |result| :: result[j] in all;
        assert forall j | 0 <= j < |result| :: result[j] in seeds || fresh(result[j]);
        HoldsMembersOf(result, Merged(start + bs));
      } else {
        HoldsMembersOf(result, start + bs);
      }
    }
  }
}
