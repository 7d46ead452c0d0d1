/**
 * Hexadic vicenary tree clustering: every instance is routed by a base-20
 * hash to a primary branch kept in a map; a branch that refuses it may spawn
 * a one-member sub-branch, stored under the key equal to the map's size.
 */
module Hexadic {
  import opened Wrappers
  import opened JavaInt
  import opened Sorting
  import opened Clusters

  const HEXADIC_BASE: nat := 6
  const VICENARY_BASE: nat := 20
  const MAX_CHILDREN_PER_NODE: nat := 6

  // ---------------------------------------------------------------- hash

  /**
   * The int accumulator of `calculateVicenaryHash` after the features `fs`:
   * the i-th non-null value hash is multiplied by (i mod 20) + 1, and both the
   * product and the sum wrap around at 32 bits. Null values are skipped but
   * still advance the index.
   */
  function VicenarySum(fs: seq<Feature>): Int32
  {
    if fs == [] then 0
    else
      var i := |fs| - 1;
      var h := VicenarySum(fs[..i]);
      match fs[i].valueHash
      case None => h
      case Some(v) => Wrap(h + Wrap(v * (i % VICENARY_BASE + 1)))
  }

  /** The same weighted sum over the integers. */
  function ExactVicenarySum(fs: seq<Feature>): int
  {
    if fs == [] then 0
    else
      var i := |fs| - 1;
      ExactVicenarySum(fs[..i]) +
      match fs[i].valueHash
      case None => 0
      case Some(v) => v * (i % VICENARY_BASE + 1)
  }

  /** The accumulator is the exact sum reduced modulo 2^32, however often it wrapped on the way. */
  lemma {:induction false} VicenarySumWraps(fs: seq<Feature>)
    ensures VicenarySum(fs) == Wrap(ExactVicenarySum(fs))
  {
    if fs != [] {
      var i := |fs| - 1;
      VicenarySumWraps(fs[..i]);
      var e := ExactVicenarySum(fs[..i]);
      match fs[i].valueHash
      case None =>
      case Some(v) =>
        WrapAccumulate(VicenarySum(fs[..i]), e, v * (i % VICENARY_BASE + 1));
    }
  }

  /** `calculateVicenaryHash`: `Math.abs` of the accumulator, so negative only for `Integer.MIN_VALUE`. */
  function VicenaryHash(x: Instance): (h: Int32)
    ensures h >= 0 || h == MIN_VALUE
  {
    Abs(VicenarySum(x.features))
  }

  /** `vicenaryHash % 20` with Java's truncating remainder. */
  function PrimaryBranch(x: Instance): int
  {
    Rem(VicenaryHash(x), VICENARY_BASE)
  }

  /** The primary branch lies in [0, 20) unless the hash is `Integer.MIN_VALUE`, whose branch is -8. */
  lemma PrimaryBranchRange(x: Instance)
    ensures 0 <= PrimaryBranch(x) < VICENARY_BASE <==> VicenaryHash(x) != MIN_VALUE
    ensures VicenaryHash(x) == MIN_VALUE <==> PrimaryBranch(x) == -8
  {
    RemOfMinValue();
  }

  /** A single feature whose value hash is `Integer.MIN_VALUE` routes its instance to branch -8. */
  lemma MinValueBranchExample(x: Instance)
    requires x.features == [Feature("f", Some(MIN_VALUE))]
    ensures VicenaryHash(x) == MIN_VALUE && PrimaryBranch(x) == -8
  {
    var fs := x.features;
    assert fs[..0] == [];
    assert VicenarySum(fs) == Wrap(0 + Wrap(MIN_VALUE * 1));
    RemOfMinValue();
  }

  // ---------------------------------------------------- depth and capacity

  function Pow6(e: nat): (p: nat)
    ensures p >= 1
  {
    if e == 0 then 1 else HEXADIC_BASE * Pow6(e - 1)
  }

  /** The least k with 6^k >= n: the exact value of `ceil(log(n) / log(6))`. */
  function CeilLog6(n: nat): (k: nat)
    requires n >= 1
    ensures Pow6(k) >= n
    ensures k > 0 ==> Pow6(k - 1) < n
    decreases n
  {
    if n == 1 then 0
    else
      var m := (n + 5) / 6;
      var k' := CeilLog6(m);
      assert Pow6(k' + 1) == 6 * Pow6(k');
      assert k' > 0 ==> Pow6(k') == 6 * Pow6(k' - 1);
      k' + 1
  }

  /**
   * `getClusterDepth`: 0 for an empty cluster, 1 for up to 20 members, and
   * `ceil(log6(size)) + 1` above that.
   */
  function Depth(size: nat): (d: nat)
    ensures d == 0 <==> size == 0
    ensures 1 <= size <= VICENARY_BASE ==> d == 1
    ensures size > VICENARY_BASE ==> d >= 3 && Pow6(d - 2) < size <= Pow6(d - 1)
  {
    if size == 0 then 0
    else if size <= VICENARY_BASE then 1
    else
      var k := CeilLog6(size);
      assert Pow6(0) == 1 && Pow6(1) == 6;
      k + 1
  }

  /** `calculateMaxCapacity`: 20 at the root, otherwise `6^min(depth, 3)`. */
  function Capacity(depth: nat): (c: nat)
    ensures depth == 0 ==> c == VICENARY_BASE
    ensures depth == 1 ==> c == 6
    ensures depth == 2 ==> c == 36
    ensures depth >= 3 ==> c == 216
  {
    if depth == 0 then VICENARY_BASE
    else Pow6(if depth < 3 then depth else 3)
  }

  /** A cluster of `size` members has room exactly when it holds fewer than 6, or between 21 and 215. */
  lemma HasRoomIff(size: nat)
    ensures size < Capacity(Depth(size)) <==> size < 6 || VICENARY_BASE < size < 216
  {
  }

  // --------------------------------------------------------- acceptance

  /**
   * The compatibility score of two hashes: `1 - (|hx - hm| mod 20) / 20`,
   * where the difference wraps and `Math.abs` and `%` are Java's.
   */
  function Score(hx: Int32, hm: Int32): real
  {
    1.0 - (Rem(Abs(Wrap(hx - hm)), VICENARY_BASE) as real) / (VICENARY_BASE as real)
  }

  /**
   * The score lies in [0.05, 1] unless the wrapped difference is
   * `Integer.MIN_VALUE`; for two hashes that happens exactly when one is
   * `Integer.MIN_VALUE` and the other 0, and the score is then 1.4.
   */
  lemma ScoreRange(hx: Int32, hm: Int32)
    requires hx >= 0 || hx == MIN_VALUE
    requires hm >= 0 || hm == MIN_VALUE
    ensures Abs(Wrap(hx - hm)) == MIN_VALUE <==> (hx == MIN_VALUE && hm == 0) || (hx == 0 && hm == MIN_VALUE)
    ensures Abs(Wrap(hx - hm)) != MIN_VALUE ==> 0.05 <= Score(hx, hm) <= 1.0
    ensures Abs(Wrap(hx - hm)) == MIN_VALUE ==> Score(hx, hm) == 1.4
  {
    DifferenceAtMin(hx, hm);
    var a := Abs(Wrap(hx - hm));
    if a == MIN_VALUE {
      RemOfMinValue();
    } else {
      var r := Rem(a, VICENARY_BASE);
      assert 0 <= r < VICENARY_BASE;
      assert Score(hx, hm) == 1.0 - (r as real) / (VICENARY_BASE as real);
    }
  }

  /** The wrapped difference of two such hashes is `Integer.MIN_VALUE` exactly for `MIN_VALUE` against 0. */
  lemma DifferenceAtMin(hx: Int32, hm: Int32)
    requires hx >= 0 || hx == MIN_VALUE
    requires hm >= 0 || hm == MIN_VALUE
    ensures Abs(Wrap(hx - hm)) == MIN_VALUE <==> (hx == MIN_VALUE && hm == 0) || (hx == 0 && hm == MIN_VALUE)
  {
    var d := hx - hm;
    if hx == MIN_VALUE && hm > 0 {
      assert Wrap(d) == d + TWO_32 by { WrapUnique(d, d + TWO_32); }
    } else if hm == MIN_VALUE && hx != MIN_VALUE {
      if hx == 0 {
        assert Wrap(d) == MIN_VALUE by { WrapUnique(d, MIN_VALUE); }
      } else {
        assert Wrap(d) == d - TWO_32 by { WrapUnique(d, d - TWO_32); }
      }
    }
  }

  /** The test `isVicenaryCompatible` applies to one member `m`. */
  predicate Fits(x: Instance, m: Instance, dist: Distance, threshold: real)
  {
    dist(x, m) <= threshold * Score(VicenaryHash(x), VicenaryHash(m))
  }

  /** The member loop of `isVicenaryCompatible`, which stops at the first member that does not fit. */
  function Compatible(x: Instance, members: seq<Instance>, dist: Distance, threshold: real): (r: bool)
    ensures r <==> forall m | m in members :: Fits(x, m, dist, threshold)
  {
    if members == [] then true
    else
      var m := members[0];
      assert forall y | y in members :: y == m || y in members[1..];
      if !Fits(x, m, dist, threshold) then false
      else Compatible(x, members[1..], dist, threshold)
  }

  /**
   * `isCandidate(x, c)`: the cluster must have room at its depth, and the
   * instance must be compatible with every member.
   */
  function IsCandidate(x: Instance, members: seq<Instance>, dist: Distance, threshold: real): (r: bool)
    ensures r <==> (|members| < 6 || VICENARY_BASE < |members| < 216) &&
                   forall m | m in members :: Fits(x, m, dist, threshold)
  {
    HasRoomIff(|members|);
    if |members| >= Capacity(Depth(|members|)) then false
    else Compatible(x, members, dist, threshold)
  }

  /** An empty cluster always accepts; a cluster of 6 to 20 members never does. */
  lemma CandidateBounds(x: Instance, members: seq<Instance>, dist: Distance, threshold: real)
    ensures members == [] ==> IsCandidate(x, members, dist, threshold)
    ensures 6 <= |members| <= VICENARY_BASE ==> !IsCandidate(x, members, dist, threshold)
  {
  }

  // ------------------------------------------------------------ routing

  /** The member lists of the branch map, by key. */
  type Branches = map<int, seq<Instance>>

  /** `createHexadicSubBranch` spawns a sub-branch only below the depth limit. */
  predicate SpawnsSubBranch(parentSize: nat, maxTreeDepth: int)
  {
    Depth(parentSize) < maxTreeDepth
  }

  /**
   * One pass of the instance loop of `doCluster`: `computeIfAbsent` opens the
   * primary branch; it takes the instance, or a sub-branch holding only the
   * instance is put under the key `size()` of the map, or the instance is
   * dropped at the depth limit.
   */
  function Route(bs: Branches, x: Instance, dist: Distance, threshold: real, maxTreeDepth: int): Branches
  {
    var b := PrimaryBranch(x);
    var members := if b in bs then bs[b] else [];
    var present := bs[b := members];
    if IsCandidate(x, members, dist, threshold) then present[b := members + [x]]
    else if SpawnsSubBranch(|members|, maxTreeDepth) then present[|present| := [x]]
    else present
  }

  /** The branch map after the instances `xs`, starting from an empty map. */
  function RouteAll(xs: seq<Instance>, dist: Distance, threshold: real, maxTreeDepth: int): Branches
  {
    if xs == [] then map[]
    else Route(RouteAll(xs[..|xs| - 1], dist, threshold, maxTreeDepth), xs[|xs| - 1], dist, threshold, maxTreeDepth)
  }

  lemma RouteAllStep(xs: seq<Instance>, n: nat, dist: Distance, threshold: real, maxTreeDepth: int)
    requires n < |xs|
    ensures RouteAll(xs[..n + 1], dist, threshold, maxTreeDepth) ==
      Route(RouteAll(xs[..n], dist, threshold, maxTreeDepth), xs[n], dist, threshold, maxTreeDepth)
  {
    assert xs[..n + 1][..n] == xs[..n];
  }

  /** The instance is in some branch. */
  predicate Placed(bs: Branches, x: Instance)
  {
    exists k | k in bs :: x in bs[k]
  }

  /** Every branch holds at most 6 members. */
  predicate Small(bs: Branches)
  {
    forall k | k in bs :: |bs[k]| <= MAX_CHILDREN_PER_NODE
  }

  /** Routing keeps every branch at 6 members or fewer: a branch of 6 has no room, a sub-branch starts with one. */
  lemma RouteSmall(bs: Branches, x: Instance, dist: Distance, threshold: real, maxTreeDepth: int)
    requires Small(bs)
    ensures Small(Route(bs, x, dist, threshold, maxTreeDepth))
  {
  }

  /** No branch built by `doCluster` ever holds more than 6 members. */
  lemma {:induction false} RouteAllSmall(xs: seq<Instance>, dist: Distance, threshold: real, maxTreeDepth: int)
    ensures Small(RouteAll(xs, dist, threshold, maxTreeDepth))
  {
    if xs != [] {
      RouteAllSmall(xs[..|xs| - 1], dist, threshold, maxTreeDepth);
      RouteSmall(RouteAll(xs[..|xs| - 1], dist, threshold, maxTreeDepth), xs[|xs| - 1], dist, threshold, maxTreeDepth);
    }
  }

  /** Every member of every branch is one of the routed instances. */
  lemma {:induction false} RouteAllMembers(xs: seq<Instance>, dist: Distance, threshold: real, maxTreeDepth: int)
    ensures forall k, y | k in RouteAll(xs, dist, threshold, maxTreeDepth) && y in RouteAll(xs, dist, threshold, maxTreeDepth)[k] :: y in xs
  {
    if xs != [] {
      var init := xs[..|xs| - 1];
      RouteAllMembers(init, dist, threshold, maxTreeDepth);
      assert forall y | y in init :: y in xs;
    }
  }

  /**
   * A new instance ends up in some branch exactly when its primary branch
   * takes it or a sub-branch is spawned for it; below the depth limit it is
   * never lost, at the limit a refused instance is in no cluster at all.
   */
  lemma RoutePlacesIff(bs: Branches, x: Instance, dist: Distance, threshold: real, maxTreeDepth: int)
    requires !Placed(bs, x)
    ensures Placed(Route(bs, x, dist, threshold, maxTreeDepth), x) <==>
      var b := PrimaryBranch(x);
      var members := if b in bs then bs[b] else [];
      IsCandidate(x, members, dist, threshold) || SpawnsSubBranch(|members|, maxTreeDepth)
  {
    var b := PrimaryBranch(x);
    var members := if b in bs then bs[b] else [];
    var present := bs[b := members];
    var r := Route(bs, x, dist, threshold, maxTreeDepth);
    if IsCandidate(x, members, dist, threshold) {
      assert x in r[b];
    } else if SpawnsSubBranch(|members|, maxTreeDepth) {
      assert x in r[|present|];
    } else {
      forall k | k in r ensures x !in r[k] {
        if k != b { assert r[k] == bs[k]; }
      }
    }
  }

  /** An instance whose primary branch is absent opens that branch and is its first member. */
  lemma RouteOpensBranch(bs: Branches, x: Instance, dist: Distance, threshold: real, maxTreeDepth: int)
    requires PrimaryBranch(x) !in bs
    ensures Route(bs, x, dist, threshold, maxTreeDepth) == bs[PrimaryBranch(x) := [x]]
  {
    var b := PrimaryBranch(x);
    var none: seq<Instance> := [];
    assert IsCandidate(x, none, dist, threshold);
    assert none + [x] == [x];
    assert bs[b := none][b := none + [x]] == bs[b := [x]];
  }

  /** One feature with value hash 1 gives hash 1 and primary branch 1. */
  lemma HashOfOne(x: Instance)
    requires x.features == [Feature("a", Some(1))]
    ensures VicenaryHash(x) == 1 && PrimaryBranch(x) == 1
  {
    assert x.features[..0] == [];
    assert VicenarySum(x.features) == Wrap(0 + Wrap(1 * (0 % VICENARY_BASE + 1)));
  }

  /**
   * The sub-branch key `size()` can be the key of a live branch: two
   * instances with hash 1 that do not fit each other leave only the second,
   * and the first is lost.
   */
  lemma OverwriteExample(x1: Instance, x2: Instance, dist: Distance, threshold: real, maxTreeDepth: int)
    requires x1.features == [Feature("a", Some(1))] && x2.features == [Feature("a", Some(1))]
    requires x1 != x2 && dist(x2, x1) > threshold && maxTreeDepth >= 2
    ensures RouteAll([x1, x2], dist, threshold, maxTreeDepth) == map[1 := [x2]]
    ensures !Placed(RouteAll([x1, x2], dist, threshold, maxTreeDepth), x1)
  {
    HashOfOne(x1);
    HashOfOne(x2);
    var xs := [x1, x2];
    assert xs[..0] == [] && xs[..2] == xs;
    RouteAllStep(xs, 0, dist, threshold, maxTreeDepth);
    RouteAllStep(xs, 1, dist, threshold, maxTreeDepth);
    var empty: Branches := map[];
    var first := map[1 := [x1]];
    RouteOpensBranch(empty, x1, dist, threshold, maxTreeDepth);
    assert empty[1 := [x1]] == first;
    assert RouteAll(xs[..1], dist, threshold, maxTreeDepth) == first;
    SecondInstanceOverwrites(first, x1, x2, dist, threshold, maxTreeDepth);
  }

  lemma SecondInstanceOverwrites(first: Branches, x1: Instance, x2: Instance, dist: Distance, threshold: real,
                                 maxTreeDepth: int)
    requires first == map[1 := [x1]] && PrimaryBranch(x2) == 1 && VicenaryHash(x1) == 1 && VicenaryHash(x2) == 1
    requires dist(x2, x1) > threshold && maxTreeDepth >= 2
    ensures Route(first, x2, dist, threshold, maxTreeDepth) == map[1 := [x2]]
  {
    assert Score(1, 1) == 1.0;
    assert !Fits(x2, x1, dist, threshold);
    assert !IsCandidate(x2, [x1], dist, threshold);
    assert |first| == 1;
    assert first[1 := [x1]] == first;
  }

  // ------------------------------------------------------- post-processing

  /** The key `optimizeVicenaryStructure` compares: `vicenaryHash % 20`. */
  function BranchKey(x: Instance): real
  {
    PrimaryBranch(x) as real
  }

  function BranchLe(): (Instance, Instance) -> bool
  {
    ByKey<Instance>(BranchKey)
  }

  /** The member order `optimizeVicenaryStructure` leaves: unchanged up to 20 members, else sorted by key. */
  function Optimized(ms: seq<Instance>): seq<Instance>
  {
    if |ms| <= VICENARY_BASE then ms else Sort(ms, BranchLe())
  }

  /**
   * The optimisation keeps the members, does nothing up to 20 members, and
   * otherwise orders them by ascending `hash % 20`, keeping equal keys in
   * their order.
   */
  lemma OptimizedSpec(ms: seq<Instance>)
    ensures multiset(Optimized(ms)) == multiset(ms)
    ensures |ms| <= VICENARY_BASE ==> Optimized(ms) == ms
    ensures |ms| > VICENARY_BASE ==>
      forall i, j | 0 <= i < j < |ms| :: PrimaryBranch(Optimized(ms)[i]) <= PrimaryBranch(Optimized(ms)[j])
    ensures forall e | e in ms :: Ties(Optimized(ms), e, BranchLe()) == Ties(ms, e, BranchLe())
  {
    if |ms| > VICENARY_BASE {
      SortByKey(ms, BranchKey);
      ByKeyPreorder(ms, BranchKey);
      forall e | e in ms ensures Ties(Optimized(ms), e, BranchLe()) == Ties(ms, e, BranchLe()) {
        SortStable(ms, e, BranchLe(), ms);
      }
    }
  }

  /** The branches' member lists in the iteration order `order` of their keys. */
  function ValuesIn(order: seq<int>, bs: Branches): (vs: seq<seq<Instance>>)
    requires forall i | 0 <= i < |order| :: order[i] in bs
    ensures |vs| == |order| && forall i | 0 <= i < |order| :: vs[i] == bs[order[i]]
  {
    if order == [] then [] else ValuesIn(order[..|order| - 1], bs) + [bs[order[|order| - 1]]]
  }

  /** What the final loop of `doCluster` has collected after the first `k` keys of `order`. */
  function Gathered(order: seq<int>, bs: Branches, optimize: bool, k: nat): seq<seq<Instance>>
    requires k <= |order| && forall i | 0 <= i < |order| :: order[i] in bs
  {
    if k == 0 then []
    else
      var p := bs[order[k - 1]];
      if p == [] then Gathered(order, bs, optimize, k - 1)
      else Gathered(order, bs, optimize, k - 1) + [if optimize then Optimized(p) else p]
  }

  /** With branches of at most 6 members the final loop collects exactly the non-empty branches, unchanged. */
  lemma {:induction false} GatheredNonEmpty(order: seq<int>, bs: Branches, optimize: bool, k: nat)
    requires k <= |order| && (forall i | 0 <= i < |order| :: order[i] in bs) && Small(bs)
    ensures Gathered(order, bs, optimize, k) == NonEmpty(ValuesIn(order, bs)[..k])
  {
    if k > 0 {
      var vs := ValuesIn(order, bs);
      var p := vs[k - 1];
      GatheredNonEmpty(order, bs, optimize, k - 1);
      NonEmptyPrefix(vs, k - 1);
      GatheredStep(order, bs, optimize, k);
      if p == [] {
        assert NonEmpty(vs[..k]) == NonEmpty(vs[..k - 1]);
      } else {
        assert NonEmpty(vs[..k]) == NonEmpty(vs[..k - 1]) + [p];
      }
    }
  }

  /** One key of the final loop on small branches: the branch is kept unchanged when it is non-empty. */
  lemma GatheredStep(order: seq<int>, bs: Branches, optimize: bool, k: nat)
    requires 0 < k <= |order| && (forall i | 0 <= i < |order| :: order[i] in bs) && Small(bs)
    ensures var p := ValuesIn(order, bs)[k - 1];
      Gathered(order, bs, optimize, k) ==
        if p == [] then Gathered(order, bs, optimize, k - 1) else Gathered(order, bs, optimize, k - 1) + [p]
  {
    var key := order[k - 1];
    assert key in bs && |bs[key]| <= MAX_CHILDREN_PER_NODE;
    assert Optimized(bs[key]) == bs[key];
  }

  /** The whole final loop keeps exactly the non-empty branches, in order and unchanged. */
  lemma GatheredAll(order: seq<int>, bs: Branches, optimize: bool)
    requires (forall i | 0 <= i < |order| :: order[i] in bs) && Small(bs)
    ensures Gathered(order, bs, optimize, |order|) == NonEmpty(ValuesIn(order, bs))
  {
    GatheredNonEmpty(order, bs, optimize, |order|);
    assert ValuesIn(order, bs)[..|order|] == ValuesIn(order, bs);
  }

  /** All members of all branches, whatever the key order. */
  ghost function Total(bs: Branches): multiset<Instance>
    decreases |bs|
  {
    if exists k :: k in bs then
      var k :| k in bs;
      Total(bs - {k}) + multiset(bs[k])
    else multiset{}
  }

  /** Any branch can be taken out of the total. */
  lemma {:induction false} TotalRemove(bs: Branches, k: int)
    requires k in bs
    ensures Total(bs) == Total(bs - {k}) + multiset(bs[k])
    decreases |bs|
  {
    var k0 :| k0 in bs && Total(bs) == Total(bs - {k0}) + multiset(bs[k0]);
    if k0 != k {
      TotalRemove(bs - {k0}, k);
      TotalRemove(bs - {k}, k0);
      assert bs - {k0} - {k} == bs - {k} - {k0};
    }
  }

  /** The branches listed in a key order that names every key once hold the total. */
  lemma {:induction false} ValuesInTotal(order: seq<int>, bs: Branches)
    requires NoDuplicates(order) && (forall k :: k in order <==> k in bs)
    requires forall i | 0 <= i < |order| :: order[i] in bs
    ensures AllMembers(ValuesIn(order, bs)) == Total(bs)
  {
    if order == [] {
        assert !exists k :: k in bs;
    } else {
      var n := |order| - 1;
      var init, k := order[..n], order[n];
      var rest := bs - {k};
      InitKeys(order, bs);
      ValuesInTotal(init, rest);
      var vs := ValuesIn(order, bs);
      assert vs[..n] == ValuesIn(init, rest);
      assert AllMembers(vs) == AllMembers(vs[..n]) + multiset(bs[k]);
      TotalRemove(bs, k);
    }
  }

  /** Dropping the last key of such an order leaves an order for the other branches. */
  lemma InitKeys(order: seq<int>, bs: Branches)
    requires order != [] && NoDuplicates(order) && (forall k :: k in order <==> k in bs)
    ensures var n := |order| - 1;
      NoDuplicates(order[..n]) && forall j :: j in order[..n] <==> j in bs - {order[n]}
  {
    var n := |order| - 1;
    var init, k := order[..n], order[n];
    forall j ensures j in init <==> j in bs - {k} {
      if j in init {
        var i :| 0 <= i < n && init[i] == j;
        assert order[i] == j;
      }
      if j in bs && j != k {
        assert j in order;
        var i :| 0 <= i < |order| && order[i] == j;
        assert i != n;
        assert init[i] == j;
      }
    }
  }

  /** Storing `v` under `k` replaces the members under `k`, if any, by those of `v`. */
  lemma TotalPut(bs: Branches, k: int, v: seq<Instance>)
    ensures k in bs ==> Total(bs[k := v]) + multiset(bs[k]) == Total(bs) + multiset(v)
    ensures k !in bs ==> Total(bs[k := v]) == Total(bs) + multiset(v)
  {
    TotalRemove(bs[k := v], k);
    assert bs[k := v] - {k} == bs - {k};
    if k in bs {
      TotalRemove(bs, k);
    } else {
      assert bs - {k} == bs;
    }
  }

  /** `computeIfAbsent` adds no member. */
  lemma OpenTotal(bs: Branches, b: int)
    ensures Total(bs[b := if b in bs then bs[b] else []]) == Total(bs)
  {
    if b in bs {
      assert bs[b := bs[b]] == bs;
    } else {
      TotalPut(bs, b, []);
    }
  }

  /** A branch taking the instance adds exactly it. */
  lemma AddTotal(bs: Branches, b: int, x: Instance)
    requires b in bs
    ensures Total(bs[b := bs[b] + [x]]) == Total(bs) + multiset{x}
  {
    var r := bs[b := bs[b] + [x]];
    TotalRemove(r, b);
    TotalRemove(bs, b);
    assert r - {b} == bs - {b};
    assert multiset(r[b]) == multiset(bs[b]) + multiset{x};
  }

  /** A sub-branch put under `size()` adds the instance and may overwrite a branch. */
  lemma SpawnTotal(bs: Branches, x: Instance)
    ensures Total(bs[|bs| := [x]]) <= Total(bs) + multiset{x}
  {
    TotalPut(bs, |bs|, [x]);
  }

  /** Routing adds at most the routed instance; a branch overwritten by `put` loses its members. */
  lemma RouteTotal(bs: Branches, x: Instance, dist: Distance, threshold: real, maxTreeDepth: int)
    ensures Total(Route(bs, x, dist, threshold, maxTreeDepth)) <= Total(bs) + multiset{x}
  {
    var b := PrimaryBranch(x);
    var members := if b in bs then bs[b] else [];
    var present := bs[b := members];
    OpenTotal(bs, b);
    if IsCandidate(x, members, dist, threshold) {
      AddTotal(present, b, x);
    } else if SpawnsSubBranch(|members|, maxTreeDepth) {
      SpawnTotal(present, x);
    }
  }

  /** The branches `doCluster` builds never hold an instance more often than it was routed. */
  lemma {:induction false} RouteAllTotal(xs: seq<Instance>, dist: Distance, threshold: real, maxTreeDepth: int)
    ensures Total(RouteAll(xs, dist, threshold, maxTreeDepth)) <= multiset(xs)
  {
    if xs != [] {
      var init := xs[..|xs| - 1];
      RouteAllTotal(init, dist, threshold, maxTreeDepth);
      RouteTotal(RouteAll(init, dist, threshold, maxTreeDepth), xs[|xs| - 1], dist, threshold, maxTreeDepth);
      MultisetSnoc(xs);
    }
  }

  /**
   * In any iteration order, the branches hold no instance twice and nothing
   * but routed instances; instances can be missing (`OverwriteExample`).
   */
  lemma RouteAllNoDuplicates(xs: seq<Instance>, order: seq<int>, dist: Distance, threshold: real, maxTreeDepth: int)
    requires NoDuplicates(order) && (forall k :: k in order <==> k in RouteAll(xs, dist, threshold, maxTreeDepth))
    requires forall i | 0 <= i < |order| :: order[i] in RouteAll(xs, dist, threshold, maxTreeDepth)
    ensures AllMembers(ValuesIn(order, RouteAll(xs, dist, threshold, maxTreeDepth))) <= multiset(xs)
  {
    ValuesInTotal(order, RouteAll(xs, dist, threshold, maxTreeDepth));
    RouteAllTotal(xs, dist, threshold, maxTreeDepth);
  }

  /** Dropping the empty branches keeps that bound. */
  lemma NonEmptyNoDuplicates(xs: seq<Instance>, order: seq<int>, dist: Distance, threshold: real, maxTreeDepth: int)
    requires NoDuplicates(order) && (forall k :: k in order <==> k in RouteAll(xs, dist, threshold, maxTreeDepth))
    requires forall i | 0 <= i < |order| :: order[i] in RouteAll(xs, dist, threshold, maxTreeDepth)
    ensures AllMembers(NonEmpty(ValuesIn(order, RouteAll(xs, dist, threshold, maxTreeDepth)))) <= multiset(xs)
  {
    var vs := ValuesIn(order, RouteAll(xs, dist, threshold, maxTreeDepth));
    RouteAllNoDuplicates(xs, order, dist, threshold, maxTreeDepth);
    AllMembersFlatten(NonEmpty(vs));
    FlattenNonEmpty(vs);
    AllMembersFlatten(vs);
  }

  /** No key occurs twice. */
  predicate NoDuplicates(order: seq<int>)
  {
    forall i, j | 0 <= i < j < |order| :: order[i] != order[j]
  }

  // ------------------------------------------------------- the branch map

  /** The clusters of the map hold the member lists of `spec`, key by key. */
  predicate MapHolds(bs: map<int, Cluster>, spec: Branches)
    reads bs.Values
  {
    bs.Keys == spec.Keys && forall k | k in bs :: bs[k].members == spec[k]
  }

  /** No cluster is stored under two keys. */
  predicate Injective(bs: map<int, Cluster>)
  {
    forall k1, k2 | k1 in bs && k2 in bs && k1 != k2 :: bs[k1] != bs[k2]
  }

  /** Storing `v` under a key adds at most `v` to the values of a map. */
  lemma ValuesUpdate(m: map<int, Cluster>, k: int, v: Cluster)
    ensures m[k := v].Values <= m.Values + {v}
  {
  }

  /** The keys of `keys` in some order, each once: the unspecified iteration order of a `HashMap`. */
  method IterationOrder(keys: set<int>) returns (order: seq<int>)
    ensures NoDuplicates(order) && forall k :: k in order <==> k in keys
    ensures forall i | 0 <= i < |order| :: order[i] in keys
  {
    order := [];
    var rest := keys;
    while rest != {}
      invariant NoDuplicates(order)
      invariant forall k :: k in keys <==> k in order || k in rest
      invariant forall k | k in order :: k !in rest
      invariant forall i | 0 <= i < |order| :: order[i] in keys
      decreases |rest|
    {
      assert exists k :: k in rest by {
        if forall k :: k !in rest { assert false; }
      }
      var k :| k in rest;
      order := order + [k];
      rest := rest - {k};
    }
  }

  class HexadicVicenaryTreeClustering {
    var maxTreeDepth: int
    var branchingThreshold: real
    var enableVicenaryOptimization: bool
    var penalizeMissingFeatures: bool

    constructor (maxTreeDepth: int, branchingThreshold: real, enableVicenaryOptimization: bool,
                 penalizeMissingFeatures: bool)
      ensures this.maxTreeDepth == maxTreeDepth && this.branchingThreshold == branchingThreshold
      ensures this.enableVicenaryOptimization == enableVicenaryOptimization
      ensures this.penalizeMissingFeatures == penalizeMissingFeatures
    {
      this.maxTreeDepth := maxTreeDepth;
      this.branchingThreshold := branchingThreshold;
      this.enableVicenaryOptimization := enableVicenaryOptimization;
      this.penalizeMissingFeatures := penalizeMissingFeatures;
    }

    /** `optimizeVicenaryStructure(cluster)`: the members re-added in the optimised order. */
    static method OptimizeVicenaryStructure(cluster: Cluster)
      modifies cluster
      ensures cluster.members == Optimized(old(cluster.members))
    {
      var members := cluster.members;
      if |members| <= VICENARY_BASE {
        return;
      }
      members := Sort(members, BranchLe());
      Rebuild(cluster, members);
    }

    /** `createHexadicSubBranch(parent, x)`: null at the depth limit, else a fresh cluster holding `x`. */
    method CreateHexadicSubBranch(parent: Cluster, x: Instance) returns (sub: Cluster?)
      ensures SpawnsSubBranch(|parent.members|, maxTreeDepth) ==> sub != null && fresh(sub) && sub.members == [x]
      ensures !SpawnsSubBranch(|parent.members|, maxTreeDepth) ==> sub == null
    {
      if Depth(parent.Size()) >= maxTreeDepth {
        return null;
      }
      sub := NewClusterOf([x]);
    }

    /** `computeIfAbsent(b, k -> createCluster())`. */
    static method OpenBranch(bs: map<int, Cluster>, b: int, ghost spec: Branches) returns (next: map<int, Cluster>)
      requires MapHolds(bs, spec) && Injective(bs)
      ensures b in next && MapHolds(next, spec[b := if b in spec then spec[b] else []]) && Injective(next)
      ensures forall c | c in next.Values :: c in bs.Values || fresh(c)
    {
      next := bs;
      if b !in bs {
        var c := new Cluster();
        ValuesUpdate(bs, b, c);
        next := bs[b := c];
      }
    }

    /** `branch.add(x)` on the branch under key `b`. */
    static method AddToBranch(bs: map<int, Cluster>, b: int, x: Instance, ghost spec: Branches)
      requires b in bs && MapHolds(bs, spec) && Injective(bs)
      modifies bs[b]
      ensures MapHolds(bs, spec[b := spec[b] + [x]])
    {
      bs[b].Add(x);
    }

    /** `put(size(), sub)` with a fresh sub-branch. */
    static method PutSubBranch(bs: map<int, Cluster>, sub: Cluster, ghost spec: Branches)
      returns (next: map<int, Cluster>)
      requires MapHolds(bs, spec) && Injective(bs) && sub !in bs.Values
      ensures MapHolds(next, spec[|spec| := sub.members]) && Injective(next)
      ensures next == bs[|bs| := sub]
    {
      assert |bs| == |spec| by {
        assert bs.Keys == spec.Keys;
      }
      next := bs[|bs| := sub];
    }

    /** One pass of the instance loop of `doCluster`. */
    method RouteInstance(bs: map<int, Cluster>, x: Instance, dist: Distance, ghost spec: Branches)
      returns (next: map<int, Cluster>)
      requires MapHolds(bs, spec) && Injective(bs)
      modifies bs.Values
      ensures MapHolds(next, Route(spec, x, dist, branchingThreshold, maxTreeDepth)) && Injective(next)
      ensures forall c | c in next.Values :: c in bs.Values || fresh(c)
    {
      var b := PrimaryBranch(x);
      ghost var members := if b in spec then spec[b] else [];
      ghost var present := spec[b := members];
      next := OpenBranch(bs, b, spec);
      var branch := next[b];
      if IsCandidate(x, branch.members, dist, branchingThreshold) {
        AddToBranch(next, b, x, present);
      } else {
        var sub := CreateHexadicSubBranch(branch, x);
        if sub != null {
          ValuesUpdate(next, |next|, sub);
          next := PutSubBranch(next, sub, present);
        }
      }
    }
  
    /** The instance loop of `doCluster`, from an empty map. */
    method RouteInstances(instances: seq<Instance>, dist: Distance) returns (bs: map<int, Cluster>)
      ensures MapHolds(bs, RouteAll(instances, dist, branchingThreshold, maxTreeDepth)) && Injective(bs)
      ensures forall c | c in bs.Values :: fresh(c)
    {
      bs := map[];
      for n := 0 to |instances|
        invariant MapHolds(bs, RouteAll(instances[..n], dist, branchingThreshold, maxTreeDepth)) && Injective(bs)
        invariant forall c | c in bs.Values :: fresh(c)
      {
        RouteAllStep(instances, n, dist, branchingThreshold, maxTreeDepth);
        bs := RouteInstance(bs, instances[n], dist, RouteAll(instances[..n], dist, branchingThreshold, maxTreeDepth));
      }
      assert instances[..|instances|] == instances;
    }

    /** One pass of the final loop: a non-empty branch is optimised when asked and kept, an empty one skipped. */
    static method CollectBranch(built: seq<Cluster>, branch: Cluster, optimize: bool, ghost ps: seq<seq<Instance>>)
      returns (next: seq<Cluster>)
      requires Holds(built, ps) && forall j | 0 <= j < |built| :: built[j] != branch
      modifies branch
      ensures old(branch.members) == [] ==> next == built && Holds(next, ps)
      ensures old(branch.members) != [] ==> next == built + [branch]
      ensures old(branch.members) != [] ==>
        Holds(next, ps + [if optimize then Optimized(old(branch.members)) else old(branch.members)])
    {
      next := built;
      if branch.Size() > 0 {
        if optimize {
          OptimizeVicenaryStructure(branch);
        }
        HoldsSnoc(built, ps, branch, branch.members);
        next := built + [branch];
      }
    }

    /** The final loop of `doCluster` over the branches in the iteration order `order`. */
    static method CollectBranches(bs: map<int, Cluster>, order: seq<int>, optimize: bool, ghost spec: Branches)
      returns (built: seq<Cluster>)
      requires MapHolds(bs, spec) && Injective(bs) && NoDuplicates(order)
      requires forall i | 0 <= i < |order| :: order[i] in bs
      modifies bs.Values
      ensures forall j | 0 <= j < |built| :: built[j] in bs.Values
      ensures Holds(built, Gathered(order, spec, optimize, |order|))
    {
      built := [];
      ghost var from: seq<nat> := [];
      ghost var acc: seq<seq<Instance>> := [];
      for i := 0 to |order|
        invariant |from| == |built|
        invariant forall j | 0 <= j < |built| :: from[j] < i && built[j] == bs[order[from[j]]]
        invariant forall j | i <= j < |order| :: bs[order[j]].members == spec[order[j]]
        invariant acc == Gathered(order, spec, optimize, i)
        invariant Holds(built, acc)
      {
        var branch := bs[order[i]];
        var next := CollectBranch(built, branch, optimize, acc);
        if next != built {
          from := from + [i];
          acc := acc + [if optimize then Optimized(spec[order[i]]) else spec[order[i]]];
        }
        built := next;
      }
    }

    /**
     * `doCluster`: the seeds, then the non-empty branches in the iteration
     * order of the map's keys, which `order` records. Branches never exceed 6
     * members, so the optimisation never reorders one.
     */
    method DoCluster(instances: seq<Instance>, seeds: seq<Cluster>, dist: Distance)
      returns (result: seq<Cluster>, ghost order: seq<int>)
      ensures |result| >= |seeds| && result[..|seeds|] == seeds
      ensures forall i | |seeds| <= i < |result| :: fresh(result[i])
      ensures NoDuplicates(order)
      ensures forall k :: k in order <==> k in RouteAll(instances, dist, branchingThreshold, maxTreeDepth)
      ensures forall i | 0 <= i < |order| :: order[i] in RouteAll(instances, dist, branchingThreshold, maxTreeDepth)
      ensures MembersOf(result[|seeds|..]) ==
        NonEmpty(ValuesIn(order, RouteAll(instances, dist, branchingThreshold, maxTreeDepth)))
      ensures AllMembers(MembersOf(result[|seeds|..])) <= multiset(instances)
    {
      ghost var spec := RouteAll(instances, dist, branchingThreshold, maxTreeDepth);
      var branches := RouteInstances(instances, dist);
      var keys := IterationOrder(branches.Keys);
      order := keys;
      assert forall i | 0 <= i < |keys| :: keys[i] in branches;
      var built := CollectBranches(branches, keys, enableVicenaryOptimization, spec);
      RouteAllSmall(instances, dist, branchingThreshold, maxTreeDepth);
      GatheredAll(keys, spec, enableVicenaryOptimization);
      HoldsMembersOf(built, Gathered(keys, spec, enableVicenaryOptimization, |keys|));
      result := seeds + built;
      SeedsThenBuilt(seeds, built);
      NonEmptyNoDuplicates(instances, keys, dist, branchingThreshold, maxTreeDepth);
    }
  }
}
