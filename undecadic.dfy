/**
 * Undecadic heptavertex clustering: every instance is hashed into one of 48
 * trees of at most 7 members; a full or distant tree sends it on by linear
 * probing, and when no tree takes it a new one-member tree is appended.
 */
module Undecadic {
  import opened Wrappers
  import opened JavaInt
  import opened Sorting
  import opened Clusters

  const NUM_TREES: nat := 48
  const VERTICES_PER_TREE: nat := 7
  const UNDECADIC_BASE: nat := 11

  // ---------------------------------------------------------------- hash

  /** `Math.pow(11, e)` for the exponents 0, 1 and 2 that occur. */
  function Pow11(e: nat): (p: nat)
    requires e < 3
    ensures p == if e == 0 then 1 else if e == 1 then UNDECADIC_BASE else UNDECADIC_BASE * UNDECADIC_BASE
  {
    if e == 0 then 1 else UNDECADIC_BASE * Pow11(e - 1)
  }

  /** Orders features by name, as `Collections.sort` orders the feature names. */
  function NameLe(): (Feature, Feature) -> bool
  {
    (f: Feature, g: Feature) => StrLe(f.name, g.name)
  }

  /**
   * The accumulator after the features `fs`, the i-th weighted by 11^(i mod 3);
   * each `hash += double` narrows the exact sum back to an int, saturating.
   */
  function UndecadicSum(fs: seq<Feature>): Int32
  {
    if fs == [] then 0
    else
      var h := UndecadicSum(fs[..|fs| - 1]);
      match fs[|fs| - 1].valueHash
      case None => h
      case Some(v) => Saturate(h + v * Pow11((|fs| - 1) % 3))
  }

  /** The same weighted sum over the integers, without narrowing. */
  function ExactSum(fs: seq<Feature>): int
  {
    if fs == [] then 0
    else
      ExactSum(fs[..|fs| - 1]) +
      match fs[|fs| - 1].valueHash
      case None => 0
      case Some(v) => v * Pow11((|fs| - 1) % 3)
  }

  /** While no partial sum leaves the int range, the accumulator is the exact sum. */
  lemma {:induction false} UndecadicSumExact(fs: seq<Feature>)
    requires forall k | 0 <= k <= |fs| :: MIN_VALUE <= ExactSum(fs[..k]) <= MAX_VALUE
    ensures UndecadicSum(fs) == ExactSum(fs)
  {
    if fs != [] {
      var init := fs[..|fs| - 1];
      forall k | 0 <= k <= |init| ensures MIN_VALUE <= ExactSum(init[..k]) <= MAX_VALUE {
        assert init[..k] == fs[..k];
      }
      UndecadicSumExact(init);
      assert fs[..|fs|] == fs;
    }
  }

  /** `calculateUndecadicHash`: the absolute value of the sum over the features sorted by name. */
  function UndecadicHash(x: Instance): (h: Int32)
    ensures h >= 0 || h == MIN_VALUE
  {
    Abs(UndecadicSum(Sort(x.features, NameLe())))
  }

  predicate DistinctNames(fs: seq<Feature>)
  {
    forall i, j | 0 <= i < j < |fs| :: fs[i].name != fs[j].name
  }

  lemma NameLePreorder(fs: seq<Feature>)
    ensures TotalPreorderOn(fs, NameLe())
  {
    forall f, g | f in fs && g in fs ensures NameLe()(f, g) || NameLe()(g, f) {
      StrLeTotal(f.name, g.name);
    }
    forall f, g, h | f in fs && g in fs && h in fs && NameLe()(f, g) && NameLe()(g, h)
      ensures NameLe()(f, h)
    {
      StrLeTransitive(f.name, g.name, h.name);
    }
  }

  /**
   * Because the names are sorted first, the hash does not depend on the
   * order in which an instance enumerates its features.
   */
  lemma HashIgnoresFeatureOrder(x: Instance, y: Instance)
    requires multiset(x.features) == multiset(y.features) && DistinctNames(x.features)
    ensures UndecadicHash(x) == UndecadicHash(y)
  {
    var a, b := Sort(x.features, NameLe()), Sort(y.features, NameLe());
    NameLePreorder(x.features);
    NameLePreorder(y.features);
    SortSorted(x.features, NameLe());
    SortSorted(y.features, NameLe());
    forall f | f in a ensures f in x.features {
      assert f in multiset(a);
    }
    NameLePreorder(a);
    forall f, g | f in a && g in a && NameLe()(f, g) && NameLe()(g, f) ensures f == g {
      StrLeAntisymmetric(f.name, g.name);
      assert f in x.features && g in x.features;
    }
    SortedUnique(a, b, NameLe());
  }

  /** `hash % NUM_TREES` with Java's remainder. */
  function TreeIndex(hash: Int32): (t: int)
    ensures hash >= 0 ==> 0 <= t < NUM_TREES
  {
    Rem(hash, NUM_TREES)
  }

  /** The index is a valid tree exactly when the hash is not `Integer.MIN_VALUE`, which gives -32. */
  lemma TreeIndexRange(x: Instance)
    ensures 0 <= TreeIndex(UndecadicHash(x)) < NUM_TREES <==> UndecadicHash(x) != MIN_VALUE
    ensures UndecadicHash(x) == MIN_VALUE ==> TreeIndex(UndecadicHash(x)) == -32
  {
    RemOfMinValue();
  }

  /** A single feature whose value hashes to `Integer.MIN_VALUE` yields tree index -32. */
  lemma MinValueHashExample(x: Instance)
    requires x.features == [Feature("f", Some(MIN_VALUE))]
    ensures UndecadicHash(x) == MIN_VALUE && TreeIndex(UndecadicHash(x)) == -32
  {
    var fs := x.features;
    assert Sort(fs[1..], NameLe()) == [];
    assert Sort(fs, NameLe()) == fs;
    assert fs[..0] == [];
    assert UndecadicSum(fs) == Saturate(0 + MIN_VALUE * Pow11(0));
    RemOfMinValue();
  }

  // ---------------------------------------------------------- acceptance

  /**
   * `isValidVertexPosition`: only positions 0..6 exist, and every member
   * must lie within the vertex threshold of `x`.
   */
  function IsValidVertexPosition(x: Instance, members: seq<Instance>, position: int,
                                 dist: Distance, vertexThreshold: real): bool
  {
    position < VERTICES_PER_TREE && WithinThreshold(x, members, dist, vertexThreshold)
  }

  /** The member loop: no member farther than the threshold. */
  function WithinThreshold(x: Instance, members: seq<Instance>, dist: Distance, vertexThreshold: real): bool
  {
    if members == [] then true
    else dist(x, members[0]) <= vertexThreshold && WithinThreshold(x, members[1..], dist, vertexThreshold)
  }

  /** The member loop accepts exactly when every member lies within the threshold. */
  lemma {:induction false} WithinThresholdSpec(x: Instance, members: seq<Instance>, dist: Distance, vertexThreshold: real)
    ensures WithinThreshold(x, members, dist, vertexThreshold) <==>
      forall m | m in members :: dist(x, m) <= vertexThreshold
  {
    if members != [] {
      WithinThresholdSpec(x, members[1..], dist, vertexThreshold);
      assert members == [members[0]] + members[1..];
    }
  }

  /** A position is valid exactly when it is below 7 and every member lies within the threshold. */
  lemma IsValidVertexPositionSpec(x: Instance, members: seq<Instance>, position: int,
                                  dist: Distance, vertexThreshold: real)
    ensures IsValidVertexPosition(x, members, position, dist, vertexThreshold) <==>
      position < VERTICES_PER_TREE && forall m | m in members :: dist(x, m) <= vertexThreshold
  {
    WithinThresholdSpec(x, members, dist, vertexThreshold);
  }

  /** `isCandidate`: the tree has a free vertex and `x` is close to all its members. */
  function IsCandidate(x: Instance, members: seq<Instance>, dist: Distance, vertexThreshold: real): bool
  {
    |members| < VERTICES_PER_TREE && IsValidVertexPosition(x, members, |members|, dist, vertexThreshold)
  }

  /** A tree accepts exactly when it has a free vertex and every member lies within the threshold. */
  lemma IsCandidateSpec(x: Instance, members: seq<Instance>, dist: Distance, vertexThreshold: real)
    ensures IsCandidate(x, members, dist, vertexThreshold) <==>
      |members| < VERTICES_PER_TREE && forall m | m in members :: dist(x, m) <= vertexThreshold
  {
    WithinThresholdSpec(x, members, dist, vertexThreshold);
  }

  // ------------------------------------------------------------ topology

  predicate IsSquare(m: seq<seq<int>>)
  {
    forall i | 0 <= i < |m| :: |m[i]| == |m|
  }

  /** The base heptavertex tree: vertex 0 joins 1 and 2, vertex 1 joins 3 and 4, vertex 2 joins 5 and 6. */
  function BaseTopology(): (m: seq<seq<int>>)
    ensures |m| == VERTICES_PER_TREE && IsSquare(m)
  {
    [[0, 1, 1, 0, 0, 0, 0],
     [1, 0, 0, 1, 1, 0, 0],
     [1, 0, 0, 0, 0, 1, 1],
     [0, 1, 0, 0, 0, 0, 0],
     [0, 1, 0, 0, 0, 0, 0],
     [0, 0, 1, 0, 0, 0, 0],
     [0, 0, 1, 0, 0, 0, 0]]
  }

  /**
   * `rotateTopology(m, r)`: entry (i, j) moves to ((i+r) mod n, (j+r) mod n).
   * A negative rotation would index outside the matrix in the source, so it is excluded.
   */
  function RotateTopology(m: seq<seq<int>>, r: int): (rot: seq<seq<int>>)
    requires IsSquare(m) && r >= 0
    ensures |rot| == |m| && IsSquare(rot)
    ensures forall i, j | 0 <= i < |m| && 0 <= j < |m| :: rot[(i + r) % |m|][(j + r) % |m|] == m[i][j]
  {
    var n := |m|;
    var rot := seq(n, a requires 0 <= a < n => seq(n, b requires 0 <= b < n => m[(a - r) % n][(b - r) % n]));
    RotationMovesEntries(m, r, rot);
    rot
  }

  lemma RotationMovesEntries(m: seq<seq<int>>, r: int, rot: seq<seq<int>>)
    requires IsSquare(m) && IsSquare(rot) && |rot| == |m|
    requires forall a, b | 0 <= a < |m| && 0 <= b < |m| :: rot[a][b] == m[(a - r) % |m|][(b - r) % |m|]
    ensures forall i, j | 0 <= i < |m| && 0 <= j < |m| :: rot[(i + r) % |m|][(j + r) % |m|] == m[i][j]
  {
    var n := |m|;
    forall i, j | 0 <= i < n && 0 <= j < n ensures rot[(i + r) % n][(j + r) % n] == m[i][j] {
      RotateBack(i, r, n);
      RotateBack(j, r, n);
    }
  }

  /** Euclidean division is unique: a quotient and remainder in range are the ones `/` and `%` give. */
  lemma ModUnique(x: int, q: int, rem: int, n: int)
    requires n > 0 && 0 <= rem < n && x == q * n + rem
    ensures x % n == rem && x / n == q
  {
    var q', r' := x / n, x % n;
    assert x == q' * n + r';
    assert (q - q') * n == r' - rem;
    if q > q' {
      MulAtLeast(q - q', n);
    } else if q < q' {
      MulAtLeast(q' - q, n);
    }
  }

  lemma MulAtLeast(a: int, n: int)
    requires a >= 1 && n > 0
    ensures a * n >= n
  {
  }

  lemma RotateBack(i: int, r: int, n: int)
    requires 0 <= i < n
    ensures 0 <= (i + r) % n < n && ((i + r) % n - r) % n == i
  {
    var q := (i + r) / n;
    assert (i + r) % n - r == (-q) * n + i;
    ModUnique((i + r) % n - r, -q, i, n);
  }

  lemma RotateForward(a: int, r: int, n: int)
    requires 0 <= a < n
    ensures 0 <= (a - r) % n < n && ((a - r) % n + r) % n == a
  {
    var q := (a - r) / n;
    assert (a - r) % n + r == q * (-n) + a;
    ModUnique((a - r) % n + r, -q, a, n);
  }

  predicate Symmetric(m: seq<seq<int>>)
    requires IsSquare(m)
  {
    forall i, j | 0 <= i < |m| && 0 <= j < |m| :: m[i][j] == m[j][i]
  }

  /** Rotation keeps an undirected adjacency matrix undirected. */
  lemma RotatePreservesSymmetry(m: seq<seq<int>>, r: int)
    requires IsSquare(m) && r >= 0 && Symmetric(m)
    ensures Symmetric(RotateTopology(m, r))
  {
    var n, rot := |m|, RotateTopology(m, r);
    forall a, b | 0 <= a < n && 0 <= b < n ensures rot[a][b] == rot[b][a] {
      RotatedEntry(m, r, rot, a, b);
      RotatedEntry(m, r, rot, b, a);
    }
  }

  /** Each entry of a matrix rotated by `r` comes from the entry `r` steps back on both axes. */
  lemma RotatedEntry(m: seq<seq<int>>, r: int, rot: seq<seq<int>>, a: int, b: int)
    requires IsSquare(m) && r >= 0 && |rot| == |m| && IsSquare(rot)
    requires forall i, j | 0 <= i < |m| && 0 <= j < |m| :: rot[(i + r) % |m|][(j + r) % |m|] == m[i][j]
    requires 0 <= a < |m| && 0 <= b < |m|
    ensures 0 <= (a - r) % |m| < |m| && 0 <= (b - r) % |m| < |m|
    ensures rot[a][b] == m[(a - r) % |m|][(b - r) % |m|]
  {
    var n := |m|;
    RotateForward(a, r, n);
    RotateForward(b, r, n);
    var i, j := (a - r) % n, (b - r) % n;
    assert (i + r) % n == a && (j + r) % n == b;
    assert rot[(i + r) % n][(j + r) % n] == m[i][j];
  }

  /** `getHeptavertexTopology(variant)`: the base tree rotated by `variant mod 7`; every variant is undirected. */
  function HeptavertexTopology(variant: nat): (m: seq<seq<int>>)
    ensures |m| == VERTICES_PER_TREE && IsSquare(m) && Symmetric(m)
  {
    RotatePreservesSymmetry(BaseTopology(), variant % 7);
    RotateTopology(BaseTopology(), variant % 7)
  }

  // ---------------------------------------------------------- doCluster

  /** The tree probed at step `j` from the primary tree `t`. */
  function Slot(t: int, j: int): (k: nat)
    requires 0 <= t < NUM_TREES && 0 <= j < NUM_TREES
    ensures k < NUM_TREES && k % NUM_TREES == (t + j) % NUM_TREES
  {
    if t + j < NUM_TREES then t + j else t + j - NUM_TREES
  }

  /**
   * The probe loop from step `i` on: the first step `j`, i <= j < 48, whose
   * tree `Slot(t, j)` accepts `x`, or `None` when every one of them refuses.
   */
  function ProbeFrom(trees: seq<seq<Instance>>, x: Instance, t: int, i: nat,
                     dist: Distance, vertexThreshold: real): (step: Option<nat>)
    requires |trees| >= NUM_TREES && 1 <= i <= NUM_TREES && 0 <= t < NUM_TREES
    decreases NUM_TREES - i
    ensures step.Some? ==> i <= step.value < NUM_TREES
  {
    if i == NUM_TREES then None
    else if IsCandidate(x, trees[Slot(t, i)], dist, vertexThreshold) then Some(i)
    else ProbeFrom(trees, x, t, i + 1, dist, vertexThreshold)
  }

  /** The probe finds the first accepting step from `i` on, and `None` exactly when every one refuses. */
  lemma {:induction false} ProbeFromSpec(trees: seq<seq<Instance>>, x: Instance, t: int, i: nat,
                                         dist: Distance, vertexThreshold: real)
    requires |trees| >= NUM_TREES && 1 <= i <= NUM_TREES && 0 <= t < NUM_TREES
    decreases NUM_TREES - i
    ensures var step := ProbeFrom(trees, x, t, i, dist, vertexThreshold);
      step.None? <==> forall j | i <= j < NUM_TREES :: !IsCandidate(x, trees[Slot(t, j)], dist, vertexThreshold)
    ensures var step := ProbeFrom(trees, x, t, i, dist, vertexThreshold);
      step.Some? ==> i <= step.value < NUM_TREES && IsCandidate(x, trees[Slot(t, step.value)], dist, vertexThreshold)
    ensures var step := ProbeFrom(trees, x, t, i, dist, vertexThreshold);
      step.Some? ==> forall j | i <= j < step.value :: !IsCandidate(x, trees[Slot(t, j)], dist, vertexThreshold)
  {
    if i < NUM_TREES {
      ProbeFromSpec(trees, x, t, i + 1, dist, vertexThreshold);
    }
  }

  /** One step of the probe loop: the tree at step `i` accepts, or the probe goes on. */
  lemma ProbeUnfold(trees: seq<seq<Instance>>, x: Instance, t: int, i: nat, dist: Distance, vertexThreshold: real)
    requires |trees| >= NUM_TREES && 1 <= i < NUM_TREES && 0 <= t < NUM_TREES
    ensures ProbeFrom(trees, x, t, i, dist, vertexThreshold) ==
      if IsCandidate(x, trees[Slot(t, i)], dist, vertexThreshold) then Some(i)
      else ProbeFrom(trees, x, t, i + 1, dist, vertexThreshold)
  {
  }

  /** One instance: its primary tree `t` if that accepts, else the first accepting probe, else a new tree. */
  function Place(trees: seq<seq<Instance>>, x: Instance, t: int, dist: Distance, vertexThreshold: real)
    : seq<seq<Instance>>
    requires |trees| >= NUM_TREES && 0 <= t < NUM_TREES
  {
    if IsCandidate(x, trees[t], dist, vertexThreshold) then AddTo(trees, t, x)
    else match ProbeFrom(trees, x, t, 1, dist, vertexThreshold)
      case Some(j) => AddTo(trees, Slot(t, j), x)
      case None => trees + [[x]]
  }

  /** 48 empty trees, as `doCluster` starts. */
  function EmptyTrees(): (trees: seq<seq<Instance>>)
    ensures |trees| == NUM_TREES && forall k | 0 <= k < NUM_TREES :: trees[k] == []
  {
    seq(NUM_TREES, _ => [])
  }

  /**
   * The trees after the instances `xs`, or the failure of `trees.get(-32)`
   * for the first instance whose hash is `Integer.MIN_VALUE`.
   */
  function Assign(xs: seq<Instance>, dist: Distance, vertexThreshold: real): (r: Result<seq<seq<Instance>>>)
    ensures r.Success? ==> |r.value| >= NUM_TREES
  {
    if xs == [] then Success(EmptyTrees())
    else match Assign(xs[..|xs| - 1], dist, vertexThreshold)
      case Failure(e) => Failure(e)
      case Success(trees) =>
        var t := TreeIndex(UndecadicHash(xs[|xs| - 1]));
        if t < 0 then Failure("IndexOutOfBoundsException")
        else Success(Place(trees, xs[|xs| - 1], t, dist, vertexThreshold))
  }

  /** The shape `doCluster` keeps: at most 7 members in the 48 fixed trees, exactly one in each appended tree. */
  predicate Shape(trees: seq<seq<Instance>>)
  {
    && |trees| >= NUM_TREES
    && (forall k | 0 <= k < NUM_TREES :: |trees[k]| <= VERTICES_PER_TREE)
    && (forall k | NUM_TREES <= k < |trees| :: |trees[k]| == 1)
  }

  lemma ShapeAddTo(trees: seq<seq<Instance>>, k: nat, x: Instance)
    requires Shape(trees) && k < NUM_TREES && |trees[k]| < VERTICES_PER_TREE
    ensures Shape(AddTo(trees, k, x))
  {
  }

  lemma ShapeNewTree(trees: seq<seq<Instance>>, x: Instance)
    requires Shape(trees)
    ensures Shape(trees + [[x]])
  {
  }

  /** Placing one instance keeps the shape and adds exactly that instance. */
  lemma PlacePreserves(trees: seq<seq<Instance>>, x: Instance, t: int, dist: Distance, vertexThreshold: real)
    requires Shape(trees) && 0 <= t < NUM_TREES
    ensures Shape(Place(trees, x, t, dist, vertexThreshold))
    ensures AllMembers(Place(trees, x, t, dist, vertexThreshold)) == AllMembers(trees) + multiset{x}
  {
    if IsCandidate(x, trees[t], dist, vertexThreshold) {
      AllMembersUpdate(trees, t, x);
      ShapeAddTo(trees, t, x);
    } else {
      ProbeFromSpec(trees, x, t, 1, dist, vertexThreshold);
      match ProbeFrom(trees, x, t, 1, dist, vertexThreshold)
      case Some(j) =>
        AllMembersUpdate(trees, Slot(t, j), x);
        ShapeAddTo(trees, Slot(t, j), x);
      case None =>
        assert (trees + [[x]])[..|trees|] == trees;
        ShapeNewTree(trees, x);
    }
  }

  /** Every instance lands in exactly one tree, and the shape holds throughout. */
  lemma {:induction false} AssignInvariant(xs: seq<Instance>, dist: Distance, vertexThreshold: real)
    requires Assign(xs, dist, vertexThreshold).Success?
    ensures Shape(Assign(xs, dist, vertexThreshold).value)
    ensures AllMembers(Assign(xs, dist, vertexThreshold).value) == multiset(xs)
    decreases |xs|
  {
    if xs == [] {
      AllMembersOfEmpties(EmptyTrees());
    } else {
      var n := |xs| - 1;
      var init, x := xs[..n], xs[n];
      var t := TreeIndex(UndecadicHash(x));
      AssignInvariant(init, dist, vertexThreshold);
      var trees := Assign(init, dist, vertexThreshold).value;
      assert xs[..n + 1] == xs;
      AssignStep(xs, n, dist, vertexThreshold);
      PlacePreserves(trees, x, t, dist, vertexThreshold);
      MultisetSnoc(xs);
    }
  }

  /** `doCluster` fails exactly when some instance hashes to `Integer.MIN_VALUE`. */
  lemma {:induction false} AssignFailsIff(xs: seq<Instance>, dist: Distance, vertexThreshold: real)
    ensures Assign(xs, dist, vertexThreshold).Failure? <==> exists x | x in xs :: UndecadicHash(x) == MIN_VALUE
  {
    if xs != [] {
      var init, x := xs[..|xs| - 1], xs[|xs| - 1];
      AssignFailsIff(init, dist, vertexThreshold);
      TreeIndexRange(x);
      assert xs == init + [x];
      if exists y | y in xs :: UndecadicHash(y) == MIN_VALUE {
        var y :| y in xs && UndecadicHash(y) == MIN_VALUE;
        assert y in init || y == x;
      }
    }
  }

  /** One more instance with a valid tree index: the trees so far with that instance placed. */
  lemma AssignStep(xs: seq<Instance>, n: nat, dist: Distance, vertexThreshold: real)
    requires n < |xs| && Assign(xs[..n], dist, vertexThreshold).Success?
    requires TreeIndex(UndecadicHash(xs[n])) >= 0
    ensures Assign(xs[..n + 1], dist, vertexThreshold) ==
      Success(Place(Assign(xs[..n], dist, vertexThreshold).value, xs[n], TreeIndex(UndecadicHash(xs[n])), dist, vertexThreshold))
  {
    assert xs[..n + 1][..n] == xs[..n];
  }

  /** An instance whose tree index is negative fails the run at that instance. */
  lemma AssignFailStep(xs: seq<Instance>, n: nat, dist: Distance, vertexThreshold: real)
    requires n < |xs| && Assign(xs[..n], dist, vertexThreshold).Success?
    requires TreeIndex(UndecadicHash(xs[n])) < 0
    ensures Assign(xs[..n + 1], dist, vertexThreshold).Failure?
  {
    assert xs[..n + 1][..n] == xs[..n] && xs[..n + 1][n] == xs[n];
  }

  /** Once an instance has failed, the whole run fails. */
  lemma {:induction false} AssignFailurePersists(xs: seq<Instance>, n: nat, dist: Distance, vertexThreshold: real)
    requires n <= |xs| && Assign(xs[..n], dist, vertexThreshold).Failure?
    ensures Assign(xs, dist, vertexThreshold).Failure?
    decreases |xs| - n
  {
    if n < |xs| {
      assert xs[..n + 1][..n] == xs[..n];
      AssignFailurePersists(xs, n + 1, dist, vertexThreshold);
    } else {
      assert xs[..n] == xs;
    }
  }

  /** The key `topologicalSort` compares. */
  function HashKey(x: Instance): real
  {
    UndecadicHash(x) as real
  }

  /** Ordering by hash, as the comparator of `topologicalSort` does. */
  function HashLe(): (Instance, Instance) -> bool
  {
    ByKey<Instance>(HashKey)
  }

  /** The member order `topologicalSort` produces. */
  function TopoOrder(ms: seq<Instance>): seq<Instance>
  {
    Sort(ms, HashLe())
  }

  /** `topologicalSort` keeps the members, orders them by ascending hash and keeps equal hashes in their order. */
  lemma TopoOrderSpec(ms: seq<Instance>)
    ensures multiset(TopoOrder(ms)) == multiset(ms)
    ensures forall i, j | 0 <= i < j < |ms| :: UndecadicHash(TopoOrder(ms)[i]) <= UndecadicHash(TopoOrder(ms)[j])
    ensures forall e | e in ms :: Ties(TopoOrder(ms), e, HashLe()) == Ties(ms, e, HashLe())
  {
    SortByKey(ms, HashKey);
    ByKeyPreorder(ms, HashKey);
    forall e | e in ms ensures Ties(TopoOrder(ms), e, HashLe()) == Ties(ms, e, HashLe()) {
      SortStable(ms, e, HashLe(), ms);
    }
  }

  /** One member list of the result, in hash order when topological sorting is on. */
  function Arranged(p: seq<Instance>, topological: bool): seq<Instance>
  {
    if topological then TopoOrder(p) else p
  }

  /** The member lists of the result trees, each reordered when topological sorting is on. */
  function Arrange(ps: seq<seq<Instance>>, topological: bool): (r: seq<seq<Instance>>)
    ensures |r| == |ps|
  {
    if ps == [] then []
    else Arrange(ps[..|ps| - 1], topological) + [Arranged(ps[|ps| - 1], topological)]
  }

  /** The arrangement works list by list. */
  lemma {:induction false} ArrangeAt(ps: seq<seq<Instance>>, topological: bool)
    ensures forall i | 0 <= i < |ps| :: Arrange(ps, topological)[i] == Arranged(ps[i], topological)
  {
    if ps != [] {
      ArrangeAt(ps[..|ps| - 1], topological);
    }
  }

  /** Each list keeps its members; without topological sorting nothing moves. */
  lemma ArrangeSpec(ps: seq<seq<Instance>>, topological: bool)
    ensures forall i | 0 <= i < |ps| :: multiset(Arrange(ps, topological)[i]) == multiset(ps[i])
    ensures !topological ==> Arrange(ps, topological) == ps
  {
    ArrangeAt(ps, topological);
    forall i | 0 <= i < |ps| ensures multiset(Arrange(ps, topological)[i]) == multiset(ps[i]) {
      if topological {
        TopoOrderSpec(ps[i]);
      }
    }
  }

  lemma ArrangeNonEmptyStep(ps: seq<seq<Instance>>, p: seq<Instance>, topological: bool)
    ensures Arrange(NonEmpty(ps + [p]), topological) ==
      if p == [] then Arrange(NonEmpty(ps), topological)
      else Arrange(NonEmpty(ps), topological) + [Arranged(p, topological)]
  {
    assert (ps + [p])[..|ps|] == ps;
    if p != [] {
      var q := NonEmpty(ps) + [p];
      assert q[..|q| - 1] == NonEmpty(ps);
    }
  }

  /** What the final loop of `doCluster` has collected after the first `k` trees. */
  function Collected(ps: seq<seq<Instance>>, k: nat, topological: bool): seq<seq<Instance>>
    requires k <= |ps|
  {
    if k == 0 then []
    else if ps[k - 1] == [] then Collected(ps, k - 1, topological)
    else Collected(ps, k - 1, topological) + [Arranged(ps[k - 1], topological)]
  }

  /** The loop's collection over all trees is the arrangement of the non-empty ones. */
  lemma {:induction false} CollectedAll(ps: seq<seq<Instance>>, k: nat, topological: bool)
    requires k <= |ps|
    ensures Collected(ps, k, topological) == Arrange(NonEmpty(ps[..k]), topological)
  {
    if k > 0 {
      CollectedAll(ps, k - 1, topological);
      assert ps[..k] == ps[..k - 1] + [ps[k - 1]];
      ArrangeNonEmptyStep(ps[..k - 1], ps[k - 1], topological);
    }
  }

  /** Reordering the lists loses and duplicates no instance. */
  lemma {:induction false} ArrangeMembers(ps: seq<seq<Instance>>, topological: bool)
    ensures AllMembers(Arrange(ps, topological)) == AllMembers(ps)
  {
    if ps != [] {
      ArrangeMembers(ps[..|ps| - 1], topological);
    }
  }

  /**
   * The clusters `doCluster` builds hold every instance exactly once, none is
   * empty, and none holds more than seven instances.
   */
  lemma ResultCoversInput(xs: seq<Instance>, dist: Distance, vertexThreshold: real, topological: bool)
    requires Assign(xs, dist, vertexThreshold).Success?
    ensures AllMembers(Arrange(NonEmpty(Assign(xs, dist, vertexThreshold).value), topological)) == multiset(xs)
    ensures forall p | p in Arrange(NonEmpty(Assign(xs, dist, vertexThreshold).value), topological) ::
      0 < |p| <= VERTICES_PER_TREE
  {
    var trees := Assign(xs, dist, vertexThreshold).value;
    AssignInvariant(xs, dist, vertexThreshold);
    AllMembersFlatten(trees);
    NonEmptyMembers(trees, topological);
    ArrangeSizes(NonEmpty(trees), topological);
  }

  /** Dropping the empty lists and reordering the rest loses and duplicates no instance. */
  lemma NonEmptyMembers(ps: seq<seq<Instance>>, topological: bool)
    ensures AllMembers(Arrange(NonEmpty(ps), topological)) == multiset(Flatten(ps))
  {
    var kept := NonEmpty(ps);
    ArrangeMembers(kept, topological);
    AllMembersFlatten(kept);
    FlattenNonEmpty(ps);
  }

  /** Reordering keeps the size of every list. */
  lemma ArrangeSizes(ps: seq<seq<Instance>>, topological: bool)
    requires forall p | p in ps :: 0 < |p| <= VERTICES_PER_TREE
    ensures forall p | p in Arrange(ps, topological) :: 0 < |p| <= VERTICES_PER_TREE
  {
    var r := Arrange(ps, topological);
    ArrangeSpec(ps, topological);
    forall p | p in r ensures 0 < |p| <= VERTICES_PER_TREE {
      var i :| 0 <= i < |r| && r[i] == p;
      var q := ps[i];
      assert multiset(p) == multiset(q);
      assert |p| == |multiset(p)| && |q| == |multiset(q)|;
      assert q in ps;
    }
  }

  class UndecadicHeptavertexClustering {
    var vertexThreshold: real
    var useTopologicalSort: bool
    var penalizeMissingFeatures: bool

    constructor (vertexThreshold: real, useTopologicalSort: bool, penalizeMissingFeatures: bool)
      ensures this.vertexThreshold == vertexThreshold && this.useTopologicalSort == useTopologicalSort
      ensures this.penalizeMissingFeatures == penalizeMissingFeatures
    {
      this.vertexThreshold := vertexThreshold;
      this.useTopologicalSort := useTopologicalSort;
      this.penalizeMissingFeatures := penalizeMissingFeatures;
    }

    /** `topologicalSort(tree)`: the tree rebuilt in hash order. */
    static method TopologicalSort(tree: Cluster)
      modifies tree
      ensures tree.members == TopoOrder(old(tree.members))
    {
      var members := TopoOrder(tree.members);
      Rebuild(tree, members);
    }

    /**
     * The body of the instance loop of `doCluster`: the primary tree, else
     * probing; when no tree accepts, the new one-member tree is returned for
     * the caller to append.
     */
    static method PlaceInstance(trees: seq<Cluster>, x: Instance, treeIndex: int, dist: Distance,
                                vertexThreshold: real, ghost before: seq<seq<Instance>>) returns (tree: Cluster?)
      requires Holds(trees, before) && |trees| >= NUM_TREES && 0 <= treeIndex < NUM_TREES && Distinct(trees)
      modifies set c | c in trees
      ensures tree == null ==> Holds(trees, Place(before, x, treeIndex, dist, vertexThreshold))
      ensures tree != null ==> fresh(tree) && tree.members == [x] && Holds(trees, before)
      ensures tree != null ==> Place(before, x, treeIndex, dist, vertexThreshold) == before + [[x]]
    {
      tree := null;
      var added := TryTree(trees, treeIndex, x, dist, vertexThreshold, before);
      if added {
        return;
      }
      var placed := ProbeTrees(trees, x, treeIndex, dist, vertexThreshold, before);
      if !placed {
        tree := NewClusterOf([x]);
      }
    }

    /** The probe loop over the trees after the primary one, stopping at the first that accepts. */
    static method ProbeTrees(trees: seq<Cluster>, x: Instance, treeIndex: int, dist: Distance,
                             vertexThreshold: real, ghost before: seq<seq<Instance>>) returns (placed: bool)
      requires Holds(trees, before) && |trees| >= NUM_TREES && 0 <= treeIndex < NUM_TREES && Distinct(trees)
      modifies set c | c in trees
      ensures placed <==> ProbeFrom(before, x, treeIndex, 1, dist, vertexThreshold).Some?
      ensures placed ==>
        Holds(trees, AddTo(before, Slot(treeIndex, ProbeFrom(before, x, treeIndex, 1, dist, vertexThreshold).value), x))
      ensures !placed ==> Holds(trees, before)
    {
      ghost var goal := ProbeFrom(before, x, treeIndex, 1, dist, vertexThreshold);
      placed := false;
      var i := 1;
      while i < NUM_TREES
        invariant 1 <= i <= NUM_TREES && Holds(trees, before)
        invariant goal == ProbeFrom(before, x, treeIndex, i, dist, vertexThreshold)
      {
        placed := ProbeStep(trees, x, treeIndex, i, dist, vertexThreshold, before);
        if placed {
          assert goal == Some(i);
          return;
        }
        i := i + 1;
      }
      assert goal == None;
    }

    /** One probe of the loop: step `i` tries tree `(treeIndex + i) % 48`. */
    static method ProbeStep(trees: seq<Cluster>, x: Instance, treeIndex: int, i: nat, dist: Distance,
                            vertexThreshold: real, ghost before: seq<seq<Instance>>) returns (placed: bool)
      requires Holds(trees, before) && |trees| >= NUM_TREES && 0 <= treeIndex < NUM_TREES && Distinct(trees)
      requires 1 <= i < NUM_TREES
      modifies set c | c in trees
      ensures placed ==> ProbeFrom(before, x, treeIndex, i, dist, vertexThreshold) == Some(i)
      ensures placed ==> Holds(trees, AddTo(before, Slot(treeIndex, i), x))
      ensures !placed ==> ProbeFrom(before, x, treeIndex, i, dist, vertexThreshold) ==
                          ProbeFrom(before, x, treeIndex, i + 1, dist, vertexThreshold)
      ensures !placed ==> Holds(trees, before)
    {
      var altIndex := (treeIndex + i) % NUM_TREES;
      assert altIndex == Slot(treeIndex, i);
      ProbeUnfold(before, x, treeIndex, i, dist, vertexThreshold);
      placed := TryTree(trees, altIndex, x, dist, vertexThreshold, before);
    }

    /** `if (isCandidate(x, trees.get(k))) trees.get(k).add(x)`, seen on the member lists of all trees. */
    static method TryTree(trees: seq<Cluster>, k: nat, x: Instance, dist: Distance, vertexThreshold: real,
                          ghost ps: seq<seq<Instance>>) returns (added: bool)
      requires k < |trees| && Distinct(trees) && Holds(trees, ps)
      modifies trees[k]
      ensures added <==> IsCandidate(x, ps[k], dist, vertexThreshold)
      ensures added ==> Holds(trees, AddTo(ps, k, x))
      ensures !added ==> Holds(trees, ps)
    {
      added := IsCandidate(x, trees[k].members, dist, vertexThreshold);
      if added {
        trees[k].Add(x);
      }
    }

    /** The final loop of `doCluster`: the non-empty trees in order, sorted when asked. */
    static method CollectTrees(trees: seq<Cluster>, topological: bool, ghost start: seq<seq<Instance>>)
      returns (built: seq<Cluster>)
      requires Distinct(trees) && Holds(trees, start)
      modifies set c | c in trees
      ensures forall j | 0 <= j < |built| :: built[j] in trees
      ensures Holds(built, Arrange(NonEmpty(start), topological))
    {
      built := [];
      ghost var from: seq<nat> := [];
      ghost var acc: seq<seq<Instance>> := [];
      for k := 0 to |trees|
        invariant |from| == |built| && forall j | 0 <= j < |built| :: from[j] < k && built[j] == trees[from[j]]
        invariant forall j | k <= j < |trees| :: trees[j].members == start[j]
        invariant acc == Collected(start, k, topological)
        invariant Holds(built, acc)
      {
        var next := CollectTree(built, trees[k], topological, acc);
        if next != built {
          from := from + [k];
          acc := acc + [Arranged(start[k], topological)];
        }
        built := next;
      }
      CollectedAll(start, |trees|, topological);
      assert start[..|trees|] == start;
    }

    /** One step of the final loop: a non-empty tree is sorted when asked and kept, an empty one dropped. */
    static method CollectTree(built: seq<Cluster>, tree: Cluster, topological: bool, ghost ps: seq<seq<Instance>>)
      returns (next: seq<Cluster>)
      requires Holds(built, ps) && forall j | 0 <= j < |built| :: built[j] != tree
      modifies tree
      ensures old(tree.members) == [] ==> next == built && Holds(next, ps)
      ensures old(tree.members) != [] ==> next == built + [tree]
      ensures old(tree.members) != [] ==>
        Holds(next, ps + [Arranged(old(tree.members), topological)])
    {
      next := built;
      if tree.Size() > 0 {
        if topological {
          TopologicalSort(tree);
        }
        HoldsSnoc(built, ps, tree, tree.members);
        next := built + [tree];
      }
    }

    /** The 48 empty trees `doCluster` starts with. */
    static method NewTrees() returns (trees: seq<Cluster>)
      ensures Distinct(trees) && forall j | 0 <= j < |trees| :: fresh(trees[j])
      ensures Holds(trees, EmptyTrees())
    {
      trees := [];
      for k := 0 to NUM_TREES
        invariant |trees| == k && Distinct(trees)
        invariant forall j | 0 <= j < k :: fresh(trees[j]) && trees[j].members == []
      {
        var tree := new Cluster();
        trees := trees + [tree];
      }
    }

    /** One instance placed as `doCluster` places it: into a tree that accepts it, else into a new tree at the end. */
    static method PlaceOrAppend(trees: seq<Cluster>, x: Instance, treeIndex: int, dist: Distance,
                                vertexThreshold: real, ghost before: seq<seq<Instance>>) returns (next: seq<Cluster>)
      requires Holds(trees, before) && |trees| >= NUM_TREES && 0 <= treeIndex < NUM_TREES && Distinct(trees)
      modifies set c | c in trees
      ensures Distinct(next) && Holds(next, Place(before, x, treeIndex, dist, vertexThreshold))
      ensures forall j | 0 <= j < |next| :: next[j] in trees || fresh(next[j])
    {
      next := trees;
      var tree: Cluster? := PlaceInstance(trees, x, treeIndex, dist, vertexThreshold, before);
      if tree != null {
        var fresh_tree: Cluster := tree;
        HoldsSnoc(trees, before, fresh_tree, [x]);
        next := trees + [fresh_tree];
      }
    }

    /** The instance loop of `doCluster`, ending in the exception of `trees.get(-32)` when it occurs. */
    static method AssignAll(instances: seq<Instance>, dist: Distance, vertexThreshold: real)
      returns (r: Result<seq<Cluster>>)
      ensures r.Failure? <==> Assign(instances, dist, vertexThreshold).Failure?
      ensures r.Success? ==> Distinct(r.value) && forall j | 0 <= j < |r.value| :: fresh(r.value[j])
      ensures r.Success? ==> Holds(r.value, Assign(instances, dist, vertexThreshold).value)
    {
      var trees := NewTrees();
      ghost var state := EmptyTrees();
      for n := 0 to |instances|
        invariant Assign(instances[..n], dist, vertexThreshold) == Success(state)
        invariant Distinct(trees) && forall j | 0 <= j < |trees| :: fresh(trees[j])
        invariant Holds(trees, state)
      {
        var x := instances[n];
        var treeIndex := TreeIndex(UndecadicHash(x));
        if treeIndex < 0 {
          AssignFailStep(instances, n, dist, vertexThreshold);
          AssignFailurePersists(instances, n + 1, dist, vertexThreshold);
          return Failure("IndexOutOfBoundsException");
        }
        AssignStep(instances, n, dist, vertexThreshold);
        trees := PlaceOrAppend(trees, x, treeIndex, dist, vertexThreshold, state);
        state := Place(state, x, treeIndex, dist, vertexThreshold);
      }
      assert instances[..|instances|] == instances;
      return Success(trees);
    }

    /**
     * `doCluster`: fails like `trees.get(-32)` when an instance hashes to
     * `Integer.MIN_VALUE`; otherwise the seeds, then the non-empty trees in
     * index order, each in hash order when topological sorting is on.
     */
    method DoCluster(instances: seq<Instance>, seeds: seq<Cluster>, dist: Distance) returns (r: Result<seq<Cluster>>)
      ensures r.Failure? <==> Assign(instances, dist, vertexThreshold).Failure?
      ensures r.Success? ==> |r.value| >= |seeds| && r.value[..|seeds|] == seeds
      ensures r.Success? ==> forall i | |seeds| <= i < |r.value| :: fresh(r.value[i])
      ensures r.Success? ==>
        MembersOf(r.value[|seeds|..]) == Arrange(NonEmpty(Assign(instances, dist, vertexThreshold).value), useTopologicalSort)
      ensures r.Success? ==> AllMembers(MembersOf(r.value[|seeds|..])) == multiset(instances)
    {
      var outcome := AssignAll(instances, dist, vertexThreshold);
      if outcome.Failure? {
        return Failure(outcome.error);
      }
      var trees := outcome.value;
      ghost var arranged := Arrange(NonEmpty(Assign(instances, dist, vertexThreshold).value), useTopologicalSort);
      var built := CollectTrees(trees, useTopologicalSort, Assign(instances, dist, vertexThreshold).value);
      HoldsMembersOf(built, arranged);
      ResultCoversInput(instances, dist, vertexThreshold, useTopologicalSort);
      r := Success(seeds + built);
      SeedsThenBuilt(seeds, built);
    }
  }
}
