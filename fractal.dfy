/**
 * Universal fractal partition schema: the instance list is split recursively
 * at the golden-ratio point and every non-empty piece becomes a cluster.
 */
module Fractal {
  import opened Clusters

  /** The literal 1.618033988749 as the fraction GOLDEN_NUM / GOLDEN_DEN. */
  const GOLDEN_NUM: nat := 1618033988749
  const GOLDEN_DEN: nat := 1000000000000

  /** `(int) Math.ceil(n / 1.618033988749)`, computed exactly: the least k with k >= n / golden. */
  function SplitPoint(n: nat): (k: nat)
    ensures k * GOLDEN_NUM >= n * GOLDEN_DEN
    ensures k > 0 ==> (k - 1) * GOLDEN_NUM < n * GOLDEN_DEN
  {
    (n * GOLDEN_DEN + GOLDEN_NUM - 1) / GOLDEN_NUM
  }

  /** Lists of three or more are split into two non-empty parts; a pair is never split. */
  lemma SplitPointBounds(n: nat)
    ensures n >= 3 ==> 1 <= SplitPoint(n) < n
    ensures n >= 1 ==> SplitPoint(n) >= 1
    ensures SplitPoint(2) == 2
  {
  }

  function Pow2(e: nat): (r: nat)
    ensures r >= 1
  {
    if e == 0 then 1 else 2 * Pow2(e - 1)
  }

  /**
   * `fractalPartition(xs, depth)`: one partition when the depth limit is
   * reached, the list has at most one element or the split point is not
   * inside it; otherwise the partitions of the two halves, in order.
   */
  function FractalPartition<T>(xs: seq<T>, depth: int, maxDepth: int): (ps: seq<seq<T>>)
    decreases |xs|
    ensures |ps| >= 1
  {
    if depth >= maxDepth || |xs| <= 1 then [xs]
    else
      var k := SplitPoint(|xs|);
      if k >= |xs| then [xs]
      else
        SplitPointBounds(|xs|);
        FractalPartition(xs[..k], depth + 1, maxDepth) + FractalPartition(xs[k..], depth + 1, maxDepth)
  }

  /** Whether `fractalPartition` splits a list of `n` elements at `depth`. */
  predicate Splits(n: nat, depth: int, maxDepth: int)
  {
    !(depth >= maxDepth || n <= 1) && SplitPoint(n) < n
  }

  /** One level of `fractalPartition`, with the split point strictly inside the list. */
  lemma Unfold<T>(xs: seq<T>, depth: int, maxDepth: int)
    ensures !Splits(|xs|, depth, maxDepth) ==> FractalPartition(xs, depth, maxDepth) == [xs]
    ensures Splits(|xs|, depth, maxDepth) ==>
      (1 <= SplitPoint(|xs|) < |xs| &&
       FractalPartition(xs, depth, maxDepth) ==
         FractalPartition(xs[..SplitPoint(|xs|)], depth + 1, maxDepth) +
         FractalPartition(xs[SplitPoint(|xs|)..], depth + 1, maxDepth))
  {
    SplitPointBounds(|xs|);
  }

  /** The partitions, concatenated in order, give back the list. */
  lemma {:induction false} PartitionFlattens<T>(xs: seq<T>, depth: int, maxDepth: int)
    ensures Flatten(FractalPartition(xs, depth, maxDepth)) == xs
    decreases |xs|
  {
    Unfold(xs, depth, maxDepth);
    if Splits(|xs|, depth, maxDepth) {
      var k := SplitPoint(|xs|);
      var left, right := FractalPartition(xs[..k], depth + 1, maxDepth), FractalPartition(xs[k..], depth + 1, maxDepth);
      PartitionFlattens(xs[..k], depth + 1, maxDepth);
      PartitionFlattens(xs[k..], depth + 1, maxDepth);
      FlattenAppend(left, right);
      assert xs[..k] + xs[k..] == xs;
    }
  }

  /** A non-empty list is split into non-empty partitions only. */
  lemma {:induction false} PartitionsNonEmpty<T>(xs: seq<T>, depth: int, maxDepth: int)
    requires xs != []
    ensures forall p | p in FractalPartition(xs, depth, maxDepth) :: p != []
    decreases |xs|
  {
    Unfold(xs, depth, maxDepth);
    if Splits(|xs|, depth, maxDepth) {
      var k := SplitPoint(|xs|);
      PartitionsNonEmpty(xs[..k], depth + 1, maxDepth);
      PartitionsNonEmpty(xs[k..], depth + 1, maxDepth);
    }
  }

  /** Every level of recursion at most doubles the number of partitions. */
  lemma {:induction false} PartitionCount<T>(xs: seq<T>, depth: int, maxDepth: int)
    ensures 1 <= |FractalPartition(xs, depth, maxDepth)| <= Pow2(if maxDepth > depth then maxDepth - depth else 0)
    decreases |xs|
  {
    Unfold(xs, depth, maxDepth);
    if Splits(|xs|, depth, maxDepth) {
      var k := SplitPoint(|xs|);
      PartitionCount(xs[..k], depth + 1, maxDepth);
      PartitionCount(xs[k..], depth + 1, maxDepth);
      assert Pow2(maxDepth - depth) == 2 * Pow2(maxDepth - (depth + 1));
    }
  }

  /** At the depth limit, or for at most one instance, the input is one partition. */
  lemma NoSplitCases<T>(xs: seq<T>, depth: int, maxDepth: int)
    requires depth >= maxDepth || |xs| <= 2
    ensures FractalPartition(xs, depth, maxDepth) == [xs]
  {
    SplitPointBounds(|xs|);
  }

  /** Five instances with a depth limit of 1 split into the first four and the last. */
  lemma FiveInstancesExample<T>(a: T, b: T, c: T, d: T, e: T)
    ensures FractalPartition([a, b, c, d, e], 0, 1) == [[a, b, c, d], [e]]
  {
    assert SplitPoint(5) == 4;
    var xs := [a, b, c, d, e];
    assert xs[..4] == [a, b, c, d] && xs[4..] == [e];
    assert FractalPartition([a, b, c, d], 1, 1) == [[a, b, c, d]];
    assert FractalPartition([e], 1, 1) == [[e]];
  }

  class UniversalFractalPartitionSchema {
    var maxDepth: int
    var fractalDimension: real
    var partitionThreshold: real
    var penalizeMissingFeatures: bool

    constructor (maxDepth: int, fractalDimension: real, partitionThreshold: real, penalizeMissingFeatures: bool)
      ensures this.maxDepth == maxDepth && this.fractalDimension == fractalDimension
      ensures this.partitionThreshold == partitionThreshold
      ensures this.penalizeMissingFeatures == penalizeMissingFeatures
    {
      this.maxDepth := maxDepth;
      this.fractalDimension := fractalDimension;
      this.partitionThreshold := partitionThreshold;
      this.penalizeMissingFeatures := penalizeMissingFeatures;
    }

    /**
     * `fractalDistance(x, c)`: 0 for an empty cluster, otherwise the cluster
     * distance divided by `size^(1/fractalDimension)`, which `root` gives.
     */
    static function FractalDistance(x: Instance, members: seq<Instance>, distC: ClusterDistance,
                                    root: nat -> real): (d: real)
      requires members != [] ==> root(|members|) > 0.0
      ensures members == [] ==> d == 0.0
      ensures members != [] ==> d * root(|members|) == distC(x, members)
    {
      if members == [] then 0.0 else distC(x, members) / root(|members|)
    }

    /**
     * `isCandidate(x, c)`: an empty cluster accepts; otherwise the cluster
     * distance must be strictly below the threshold scaled by `size^(1/fractalDimension)`.
     */
    function IsCandidate(x: Instance, c: Cluster, distC: ClusterDistance, root: nat -> real): (r: bool)
      reads this, c
      requires c.members != [] ==> root(|c.members|) > 0.0
      ensures r <==> c.members == [] || distC(x, c.members) < partitionThreshold * root(|c.members|)
    {
      c.Size() == 0 || FractalDistance(x, c.members, distC, root) < partitionThreshold
    }

    /** The loop of `doCluster`: one fresh cluster per non-empty partition, in order. */
    static method BuildClusters(partitions: seq<seq<Instance>>) returns (built: seq<Cluster>)
      ensures forall j | 0 <= j < |built| :: fresh(built[j])
      ensures MembersOf(built) == NonEmpty(partitions)
    {
      built := [];
      ghost var acc: seq<seq<Instance>> := [];
      for i := 0 to |partitions|
        invariant forall j | 0 <= j < |built| :: fresh(built[j])
        invariant acc == NonEmpty(partitions[..i])
        invariant Holds(built, acc)
      {
        NonEmptyPrefix(partitions, i);
        if partitions[i] != [] {
          var cluster := NewClusterOf(partitions[i]);
          HoldsSnoc(built, acc, cluster, partitions[i]);
          built := built + [cluster];
          acc := acc + [partitions[i]];
        }
      }
      assert partitions[..|partitions|] == partitions;
      HoldsMembersOf(built, acc);
    }

    /**
     * `doCluster`: the seed clusters, then one fresh cluster per non-empty
     * partition of the instances, in partition order.
     */
    method DoCluster(instances: seq<Instance>, seeds: seq<Cluster>) returns (result: seq<Cluster>)
      ensures |result| >= |seeds| && result[..|seeds|] == seeds
      ensures forall i | |seeds| <= i < |result| :: fresh(result[i])
      ensures MembersOf(result[|seeds|..]) == NonEmpty(FractalPartition(instances, 0, maxDepth))
    {
      var partitions := FractalPartition(instances, 0, maxDepth);
      var built := BuildClusters(partitions);
      result := seeds + built;
      assert result[|seeds|..] == built;
      assert forall i | |seeds| <= i < |result| :: result[i] == built[i - |seeds|];
    }
  }

  /** Without instances the result is exactly the seeds. */
  lemma EmptyInputOnlySeeds(maxDepth: int)
    ensures NonEmpty(FractalPartition<Instance>([], 0, maxDepth)) == []
  {
  }

  /** The clusters built by `doCluster` hold every instance exactly once, in input order. */
  lemma ClustersCoverInput(instances: seq<Instance>, maxDepth: int)
    ensures Flatten(NonEmpty(FractalPartition(instances, 0, maxDepth))) == instances
  {
    FlattenNonEmpty(FractalPartition(instances, 0, maxDepth));
    PartitionFlattens(instances, 0, maxDepth);
  }
}
