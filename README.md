# cognut clustering strategies and the whitespace normaliser, in Dafny

This project models the five clustering strategies of the `cognut` package
(`UniversalFractalPartitionSchema`, `UndecadicHeptavertexClustering`,
`HexadicVicenaryTreeClustering`, `BSeriesFoundationClustering`,
`BSeriesOrder5TriadicClustering`), the `CognutClusteringFactory` that builds
them with their default parameters, and `SpotlessMojo.normalizeWhitespace` from
the Maven plugin. It proves what each strategy's `doCluster` builds, what its
acceptance test (`isCandidate`) decides, and the properties of the scores and
hashes those tests use.

Every strategy reads an ordered list of instances plus the seed clusters. It
fills clusters and returns the seeds followed by the clusters it built. The
model works in two layers:

- A pure layer gives each pass of `doCluster` as a function on the member
  lists of the clusters (`Assign`, `RouteAll`, `Collected`, `Merged`, ...).
  Lemmas about these functions state the properties: every instance lands in
  exactly one cluster, cluster sizes stay bounded, the triads come first, and
  so on.
- An imperative layer gives the source's loops as methods over `Cluster`
  objects. A `Cluster` is a class with a `members` sequence, `Add` and `Reset`.
  Each method is proved to leave its clusters holding exactly what the pure
  layer computes (`Holds(clusters, lists)`, `MembersOf(result)`). Each method
  also keeps the clusters it creates fresh and distinct.

Files and modules:

| file | module | what it holds |
|---|---|---|
| `wrappers.dfy` | `Wrappers` | `Option` and `Result` |
| `java_int.dfy` | `JavaInt` | Java `int` semantics: 32-bit wrap-around, the saturating `(int)` narrowing of a `double`, `Math.abs`, truncating `/` and `%` |
| `clusters.dfy` | `Clusters` | `Instance` (compared by reference), `Feature`, `Cluster`, the uninterpreted distance functions, and facts about lists of member lists |
| `sorting.dfy` | `Sorting` | the stable sort behind `List.sort` and `Collections.sort`, and `String.compareTo` |
| `fractal.dfy` | `Fractal` | `UniversalFractalPartitionSchema` |
| `undecadic.dfy` | `Undecadic` | `UndecadicHeptavertexClustering` |
| `hexadic.dfy` | `Hexadic` | `HexadicVicenaryTreeClustering` |
| `bseries.dfy` | `BSeries` | `BSeriesFoundationClustering` |
| `triadic.dfy` | `Triadic` | `BSeriesOrder5TriadicClustering` |
| `factory.dfy` | `Factory` | `CognutClusteringFactory` |
| `whitespace.dfy` | `Whitespace` | `SpotlessMojo.normalizeWhitespace` |
| `trim_lines.dfy` | `LineTrim` | the trimming pass of `normalizeWhitespace` read line by line, and its equality with the regular-expression pass |

Abstractions standing in for code that is not part of this model:

- `Instance` is a class with constant fields, compared by reference. The
  `Instance` class is not part of this model, so its `equals` is unknown here.
  The model assumes it is reference identity; "## Left out" names the
  members that rely on this.
- A feature value's `hashCode` is an `Int32` stored in the feature. A `null`
  value is `None`; both hashes skip it.
- The instance distance `dist`, the cluster distance `distC`, `Math.pow(v, 2.5)`
  and `size^(1/fractalDimension)` are function-typed parameters with no
  properties assumed. Where a lemma needs one (a symmetric `dist`, a
  non-negative `pow`), it is a named `requires` of that lemma only.
- Doubles are real numbers.
- `Cluster.updateCentroid` does not touch the members and is not modelled.

Where the code and the documentation of the strategies disagree, the model
follows the code:

- **Undecadic tree index.** The documentation promises a tree index in
  [0, 48). In the code, `Math.abs(Integer.MIN_VALUE)` is negative and Java's
  `%` keeps the dividend's sign, so an instance whose hash is
  `Integer.MIN_VALUE` gets tree index -32. `trees.get(-32)` then throws.
  `Undecadic.UndecadicHeptavertexClustering.DoCluster` returns a `Failure` in
  exactly that case (`AssignFailsIff`).
- **Hexadic primary branch.** In the same way, an instance whose vicenary hash
  is `Integer.MIN_VALUE` is routed to primary branch -8. `computeIfAbsent`
  opens that key like any other, so the model routes it there.
- **Hexadic sub-branch key.** A sub-branch is stored under the key
  `vicenaryBranches.size()`. That key can belong to a live branch, and the
  `put` then replaces it, so instances are lost. `Hexadic.OverwriteExample`
  shows two instances where the first ends up in no cluster.
- **Hexadic dropped instances.** An instance refused by a branch at the depth
  limit is in no cluster at all (`Hexadic.RoutePlacesIff`).
- **B-series order-4 term.** The order-4 term divides by
  `n*(n-1)*(n-2)*(n-3)/24` computed in `int`. That count overflows at 217
  members and is negative, so the order-4 term is 0 from there on
  (`BSeries.Order4Overflow`). The same wrap-around is modelled for the
  order-2 and order-3 counts and for the `int` counter of the triadic order-5
  term.
- **Collapsing newlines.** The comment on the last `replaceAll` of
  `normalizeWhitespace` says "Limit consecutive empty lines to 2". Replacing
  three or more newlines by two leaves at most one empty line
  (`Whitespace.CollapseSpec`, `Whitespace.CollapseExample`).
- **Unused fractal acceptance test.** `UniversalFractalPartitionSchema.doCluster`
  never calls `isCandidate`. The model states `isCandidate` on its own, and
  `DoCluster` depends only on the partitions.

## Model

| member | source | states |
|---|---|---|
| Clusters.Cluster.constructor | cognut/src/main/java/com/oculusinfo/ml/unsupervised/cluster/cognut/BSeriesFoundationClustering.java:234 | `createCluster` gives a cluster with no members |
| Clusters.Cluster.Add | cognut/src/main/java/com/oculusinfo/ml/unsupervised/cluster/cognut/BSeriesFoundationClustering.java:226 | `add` appends the instance to the members |
| Clusters.Cluster.Reset | cognut/src/main/java/com/oculusinfo/ml/unsupervised/cluster/cognut/BSeriesFoundationClustering.java:274 | `reset` leaves the cluster with no members |
| Clusters.NewClusterOf | cognut/src/main/java/com/oculusinfo/ml/unsupervised/cluster/cognut/UniversalFractalPartitionSchema.java:106-109 | `createCluster` followed by an `add` loop gives a fresh cluster holding the list in order |
| Clusters.Rebuild | cognut/src/main/java/com/oculusinfo/ml/unsupervised/cluster/cognut/BSeriesFoundationClustering.java:274-277 | `reset` followed by an `add` loop leaves the cluster holding the list in order |
| Fractal.SplitPoint | cognut/src/main/java/com/oculusinfo/ml/unsupervised/cluster/cognut/UniversalFractalPartitionSchema.java:131-132 | the split point is the least k with k ≥ n / 1.618033988749, i.e. `ceil(n / golden)` computed exactly on the literal |
| Fractal.SplitPointBounds | cognut/src/main/java/com/oculusinfo/ml/unsupervised/cluster/cognut/UniversalFractalPartitionSchema.java:131-137 | a list of three or more splits into two non-empty parts; a pair is never split, because its split point is 2 |
| Fractal.FractalPartition | cognut/src/main/java/com/oculusinfo/ml/unsupervised/cluster/cognut/UniversalFractalPartitionSchema.java:122-148 | `fractalPartition` always returns at least one partition |
| Fractal.PartitionFlattens | cognut/src/main/java/com/oculusinfo/ml/unsupervised/cluster/cognut/UniversalFractalPartitionSchema.java:122-148 | the partitions concatenated in order give back the input exactly: nothing lost, duplicated or reordered |
| Fractal.PartitionsNonEmpty | cognut/src/main/java/com/oculusinfo/ml/unsupervised/cluster/cognut/UniversalFractalPartitionSchema.java:125-145 | for non-empty input every partition is non-empty |
| Fractal.PartitionCount | cognut/src/main/java/com/oculusinfo/ml/unsupervised/cluster/cognut/UniversalFractalPartitionSchema.java:125-145 | there are between 1 and 2^max(maxDepth − depth, 0) partitions |
| Fractal.NoSplitCases | cognut/src/main/java/com/oculusinfo/ml/unsupervised/cluster/cognut/UniversalFractalPartitionSchema.java:125-137 | at depth ≥ maxDepth, or with at most two instances, the input is the single partition (so maxDepth 0 gives one cluster of all instances) |
| Fractal.FiveInstancesExample | cognut/src/main/java/com/oculusinfo/ml/unsupervised/cluster/cognut/UniversalFractalPartitionSchema.java:131-145 | five instances A..E with maxDepth 1 give the partitions [A,B,C,D] and [E] |
| Fractal.UniversalFractalPartitionSchema.constructor | cognut/src/main/java/com/oculusinfo/ml/unsupervised/cluster/cognut/UniversalFractalPartitionSchema.java:60-65 | stores maxDepth, fractalDimension, partitionThreshold and penalizeMissingFeatures as given |
| Fractal.UniversalFractalPartitionSchema.FractalDistance | cognut/src/main/java/com/oculusinfo/ml/unsupervised/cluster/cognut/UniversalFractalPartitionSchema.java:82-91 | 0 for an empty cluster; otherwise the value times `size^(1/fractalDimension)` is the cluster distance |
| Fractal.UniversalFractalPartitionSchema.IsCandidate | cognut/src/main/java/com/oculusinfo/ml/unsupervised/cluster/cognut/UniversalFractalPartitionSchema.java:67-76 | accepts iff the cluster is empty or the cluster distance is strictly below partitionThreshold × `size^(1/fractalDimension)` |
| Fractal.UniversalFractalPartitionSchema.BuildClusters | cognut/src/main/java/com/oculusinfo/ml/unsupervised/cluster/cognut/UniversalFractalPartitionSchema.java:104-113 | one fresh cluster per non-empty partition, in partition order, holding exactly that partition |
| Fractal.UniversalFractalPartitionSchema.DoCluster | cognut/src/main/java/com/oculusinfo/ml/unsupervised/cluster/cognut/UniversalFractalPartitionSchema.java:94-117 | the result is the seeds unchanged, then fresh clusters holding the non-empty partitions of the instances in order |
| Fractal.EmptyInputOnlySeeds | cognut/src/main/java/com/oculusinfo/ml/unsupervised/cluster/cognut/UniversalFractalPartitionSchema.java:101-113 | with no instances no cluster follows the seeds |
| Fractal.ClustersCoverInput | cognut/src/main/java/com/oculusinfo/ml/unsupervised/cluster/cognut/UniversalFractalPartitionSchema.java:97-113 | the clusters after the seeds, concatenated, are exactly the instance list |
| JavaInt.Wrap | cognut/src/main/java/com/oculusinfo/ml/unsupervised/cluster/cognut/HexadicVicenaryTreeClustering.java:173 | 32-bit wrap-around: the result is congruent to the exact value modulo 2^32 and equals it when it is in range |
| JavaInt.Saturate | cognut/src/main/java/com/oculusinfo/ml/unsupervised/cluster/cognut/UndecadicHeptavertexClustering.java:97 | the `(int)` narrowing of `hash += double`: the exact value in range, `MIN_VALUE` below it, `MAX_VALUE` above it |
| JavaInt.Abs | cognut/src/main/java/com/oculusinfo/ml/unsupervised/cluster/cognut/UndecadicHeptavertexClustering.java:101 | `Math.abs`: non-negative and ± the argument, except that `MIN_VALUE` maps to itself |
| JavaInt.Div | cognut/src/main/java/com/oculusinfo/ml/unsupervised/cluster/cognut/BSeriesFoundationClustering.java:151 | `/` on `int` truncates toward zero, for a non-negative and for a negative dividend |
| JavaInt.Rem | cognut/src/main/java/com/oculusinfo/ml/unsupervised/cluster/cognut/UndecadicHeptavertexClustering.java:77 | `%` on `int`: the sign follows the dividend and `Div(a, b) * b + Rem(a, b) == a` |
| JavaInt.RemOfMinValue | cognut/src/main/java/com/oculusinfo/ml/unsupervised/cluster/cognut/UndecadicHeptavertexClustering.java:180 | `Integer.MIN_VALUE % 48 == -32` and `Integer.MIN_VALUE % 20 == -8` |
| Sorting.Sort | cognut/src/main/java/com/oculusinfo/ml/unsupervised/cluster/cognut/UndecadicHeptavertexClustering.java:230-234 | `List.sort` keeps the elements: the result is a permutation of the input |
| Sorting.SortSorted | cognut/src/main/java/com/oculusinfo/ml/unsupervised/cluster/cognut/UndecadicHeptavertexClustering.java:230-234 | under a total preorder the result is sorted |
| Sorting.SortStable | cognut/src/main/java/com/oculusinfo/ml/unsupervised/cluster/cognut/UndecadicHeptavertexClustering.java:230-234 | the sort is stable: elements ranked level keep their relative order |
| Sorting.SortByKey | cognut/src/main/java/com/oculusinfo/ml/unsupervised/cluster/cognut/BSeriesFoundationClustering.java:267-271 | sorting by a real key yields the same elements with non-decreasing keys |
| Sorting.StrLeTotal | cognut/src/main/java/com/oculusinfo/ml/unsupervised/cluster/cognut/UndecadicHeptavertexClustering.java:90 | `String.compareTo` ranks any two names one way or the other |
| Sorting.StrLeAntisymmetric | cognut/src/main/java/com/oculusinfo/ml/unsupervised/cluster/cognut/UndecadicHeptavertexClustering.java:90 | two names each at most the other are equal |
| Sorting.StrLeTransitive | cognut/src/main/java/com/oculusinfo/ml/unsupervised/cluster/cognut/UndecadicHeptavertexClustering.java:90 | the name order is transitive |
| Undecadic.Pow11 | cognut/src/main/java/com/oculusinfo/ml/unsupervised/cluster/cognut/UndecadicHeptavertexClustering.java:97 | `Math.pow(11, i % 3)` is 1, 11 or 121 |
| Undecadic.UndecadicSumExact | cognut/src/main/java/com/oculusinfo/ml/unsupervised/cluster/cognut/UndecadicHeptavertexClustering.java:92-99 | while no partial sum leaves the int range, the accumulator is the exact sum of `hash_i · 11^(i mod 3)` over the features sorted by name |
| Undecadic.UndecadicSum | cognut/src/main/java/com/oculusinfo/ml/unsupervised/cluster/cognut/UndecadicHeptavertexClustering.java:92-99 | definition, no contract of its own: the accumulator after each saturating `hash += hashCode · 11^(i mod 3)`; `UndecadicSumExact` states its value |
| Undecadic.UndecadicHash | cognut/src/main/java/com/oculusinfo/ml/unsupervised/cluster/cognut/UndecadicHeptavertexClustering.java:87-102 | the hash is non-negative unless it is `Integer.MIN_VALUE` |
| Undecadic.NameLePreorder | cognut/src/main/java/com/oculusinfo/ml/unsupervised/cluster/cognut/UndecadicHeptavertexClustering.java:89-90 | sorting the feature names uses a total preorder |
| Undecadic.HashIgnoresFeatureOrder | cognut/src/main/java/com/oculusinfo/ml/unsupervised/cluster/cognut/UndecadicHeptavertexClustering.java:87-102 | two instances with the same features (distinct names) hash alike, whatever order they list their features in |
| Undecadic.TreeIndex | cognut/src/main/java/com/oculusinfo/ml/unsupervised/cluster/cognut/UndecadicHeptavertexClustering.java:180 | a non-negative hash gives a tree index in [0, 48) |
| Undecadic.TreeIndexRange | cognut/src/main/java/com/oculusinfo/ml/unsupervised/cluster/cognut/UndecadicHeptavertexClustering.java:179-182 | the tree index is in [0, 48) iff the hash is not `Integer.MIN_VALUE`, whose index is -32 |
| Undecadic.MinValueHashExample | cognut/src/main/java/com/oculusinfo/ml/unsupervised/cluster/cognut/UndecadicHeptavertexClustering.java:179-182 | one feature whose value hashes to `Integer.MIN_VALUE` gives hash `MIN_VALUE` and tree index -32 |
| Undecadic.WithinThresholdSpec | cognut/src/main/java/com/oculusinfo/ml/unsupervised/cluster/cognut/UndecadicHeptavertexClustering.java:116-121 | the member loop accepts iff every member is within vertexThreshold of the instance |
| Undecadic.WithinThreshold | cognut/src/main/java/com/oculusinfo/ml/unsupervised/cluster/cognut/UndecadicHeptavertexClustering.java:116-121 | definition, no contract of its own: the member loop; `WithinThresholdSpec` states what it decides |
| Undecadic.IsValidVertexPositionSpec | cognut/src/main/java/com/oculusinfo/ml/unsupervised/cluster/cognut/UndecadicHeptavertexClustering.java:107-124 | a position is valid iff it is below 7 and every member is within the threshold; the adjacency matrix plays no part |
| Undecadic.IsValidVertexPosition | cognut/src/main/java/com/oculusinfo/ml/unsupervised/cluster/cognut/UndecadicHeptavertexClustering.java:107-124 | definition, no contract of its own: position below 7 and every member within the threshold; `IsValidVertexPositionSpec` states what it decides |
| Undecadic.IsCandidateSpec | cognut/src/main/java/com/oculusinfo/ml/unsupervised/cluster/cognut/UndecadicHeptavertexClustering.java:70-82 | a tree accepts iff it has fewer than 7 members and every member is within the threshold; the hash and tree index computed there have no effect |
| Undecadic.IsCandidate | cognut/src/main/java/com/oculusinfo/ml/unsupervised/cluster/cognut/UndecadicHeptavertexClustering.java:70-82 | definition, no contract of its own: `isCandidate`; `IsCandidateSpec` states what it decides |
| Undecadic.BaseTopology | cognut/src/main/java/com/oculusinfo/ml/unsupervised/cluster/cognut/UndecadicHeptavertexClustering.java:132-140 | the base topology is a 7×7 matrix |
| Undecadic.RotateTopology | cognut/src/main/java/com/oculusinfo/ml/unsupervised/cluster/cognut/UndecadicHeptavertexClustering.java:149-162 | entry (i, j) lands at ((i+r) mod n, (j+r) mod n) of a square matrix of the same size |
| Undecadic.RotatedEntry | cognut/src/main/java/com/oculusinfo/ml/unsupervised/cluster/cognut/UndecadicHeptavertexClustering.java:153-158 | conversely, each cell of the rotated matrix holds the entry r steps back on both axes, so every input entry appears exactly once |
| Undecadic.RotationMovesEntries | cognut/src/main/java/com/oculusinfo/ml/unsupervised/cluster/cognut/UndecadicHeptavertexClustering.java:153-158 | a matrix filled from the entries r steps back places every entry (i, j) at ((i+r) mod n, (j+r) mod n) |
| Undecadic.RotatePreservesSymmetry | cognut/src/main/java/com/oculusinfo/ml/unsupervised/cluster/cognut/UndecadicHeptavertexClustering.java:149-162 | rotating an undirected adjacency matrix keeps it undirected |
| Undecadic.HeptavertexTopology | cognut/src/main/java/com/oculusinfo/ml/unsupervised/cluster/cognut/UndecadicHeptavertexClustering.java:129-144 | every topology variant is a symmetric 7×7 matrix |
| Undecadic.Slot | cognut/src/main/java/com/oculusinfo/ml/unsupervised/cluster/cognut/UndecadicHeptavertexClustering.java:190 | probe step j from tree t visits tree (t + j) mod 48, a valid index |
| Undecadic.ProbeFrom | cognut/src/main/java/com/oculusinfo/ml/unsupervised/cluster/cognut/UndecadicHeptavertexClustering.java:189-196 | a found probe step lies in [i, 48) |
| Undecadic.ProbeFromSpec | cognut/src/main/java/com/oculusinfo/ml/unsupervised/cluster/cognut/UndecadicHeptavertexClustering.java:189-196 | the probe returns the first step whose tree accepts, and none iff every tree from step i on refuses |
| Undecadic.EmptyTrees | cognut/src/main/java/com/oculusinfo/ml/unsupervised/cluster/cognut/UndecadicHeptavertexClustering.java:172-175 | `doCluster` starts with exactly 48 empty trees |
| Undecadic.Assign | cognut/src/main/java/com/oculusinfo/ml/unsupervised/cluster/cognut/UndecadicHeptavertexClustering.java:178-205 | a successful run keeps at least the 48 fixed trees |
| Undecadic.PlacePreserves | cognut/src/main/java/com/oculusinfo/ml/unsupervised/cluster/cognut/UndecadicHeptavertexClustering.java:184-203 | placing an instance adds exactly that instance and keeps the shape: at most 7 members in each of the first 48 trees, exactly one in each appended tree |
| Undecadic.Place | cognut/src/main/java/com/oculusinfo/ml/unsupervised/cluster/cognut/UndecadicHeptavertexClustering.java:182-203 | definition, no contract of its own: primary tree, else the first accepting probed tree, else a new tree; `PlacePreserves` states what it keeps |
| Undecadic.AssignInvariant | cognut/src/main/java/com/oculusinfo/ml/unsupervised/cluster/cognut/UndecadicHeptavertexClustering.java:178-205 | after a successful run every instance is in exactly one tree and the shape holds |
| Undecadic.AssignFailsIff | cognut/src/main/java/com/oculusinfo/ml/unsupervised/cluster/cognut/UndecadicHeptavertexClustering.java:179-182 | the run fails iff some instance hashes to `Integer.MIN_VALUE` |
| Undecadic.AssignFailurePersists | cognut/src/main/java/com/oculusinfo/ml/unsupervised/cluster/cognut/UndecadicHeptavertexClustering.java:182 | once an instance has failed, the whole run fails |
| Undecadic.TopoOrderSpec | cognut/src/main/java/com/oculusinfo/ml/unsupervised/cluster/cognut/UndecadicHeptavertexClustering.java:225-241 | `topologicalSort` keeps the members, orders them by ascending hash and keeps equal hashes in their order |
| Undecadic.TopoOrder | cognut/src/main/java/com/oculusinfo/ml/unsupervised/cluster/cognut/UndecadicHeptavertexClustering.java:225-241 | definition, no contract of its own: the members sorted stably by undecadic hash; `TopoOrderSpec` states what it computes |
| Undecadic.Arrange | cognut/src/main/java/com/oculusinfo/ml/unsupervised/cluster/cognut/UndecadicHeptavertexClustering.java:208-216 | arranging the result trees keeps their number; `ArrangeSpec` states what each list becomes |
| Undecadic.ArrangeSpec | cognut/src/main/java/com/oculusinfo/ml/unsupervised/cluster/cognut/UndecadicHeptavertexClustering.java:208-216 | each result list keeps exactly the members of its tree, and without topological sorting no list changes |
| Undecadic.ArrangeMembers | cognut/src/main/java/com/oculusinfo/ml/unsupervised/cluster/cognut/UndecadicHeptavertexClustering.java:208-216 | arranging the lists loses and duplicates no instance |
| Undecadic.NonEmptyMembers | cognut/src/main/java/com/oculusinfo/ml/unsupervised/cluster/cognut/UndecadicHeptavertexClustering.java:208-216 | dropping the empty trees and arranging the rest keeps every instance of the trees exactly once |
| Undecadic.ResultCoversInput | cognut/src/main/java/com/oculusinfo/ml/unsupervised/cluster/cognut/UndecadicHeptavertexClustering.java:178-216 | after a successful run the result lists hold every instance exactly once, and each holds between 1 and 7 instances |
| Undecadic.CollectedAll | cognut/src/main/java/com/oculusinfo/ml/unsupervised/cluster/cognut/UndecadicHeptavertexClustering.java:208-216 | the final loop collects the non-empty trees in index order, each sorted when asked |
| Undecadic.Collected | cognut/src/main/java/com/oculusinfo/ml/unsupervised/cluster/cognut/UndecadicHeptavertexClustering.java:208-216 | definition, no contract of its own: the non-empty trees among the first k, sorted when asked; `CollectedAll` states what it keeps |
| Undecadic.UndecadicHeptavertexClustering.constructor | cognut/src/main/java/com/oculusinfo/ml/unsupervised/cluster/cognut/UndecadicHeptavertexClustering.java:63-67 | stores vertexThreshold, useTopologicalSort and penalizeMissingFeatures as given |
| Undecadic.UndecadicHeptavertexClustering.TopologicalSort | cognut/src/main/java/com/oculusinfo/ml/unsupervised/cluster/cognut/UndecadicHeptavertexClustering.java:225-241 | the tree's members become their hash order |
| Undecadic.UndecadicHeptavertexClustering.PlaceInstance | cognut/src/main/java/com/oculusinfo/ml/unsupervised/cluster/cognut/UndecadicHeptavertexClustering.java:182-203 | the primary tree takes the instance if it accepts, else the first accepting probed tree does, else a fresh one-member tree is returned for appending |
| Undecadic.UndecadicHeptavertexClustering.ProbeTrees | cognut/src/main/java/com/oculusinfo/ml/unsupervised/cluster/cognut/UndecadicHeptavertexClustering.java:188-196 | the probe loop places the instance iff some probed tree accepts, and then in the first one |
| Undecadic.UndecadicHeptavertexClustering.PlaceOrAppend | cognut/src/main/java/com/oculusinfo/ml/unsupervised/cluster/cognut/UndecadicHeptavertexClustering.java:182-203 | one instance as the loop places it: the trees hold the model's placement, the list stays distinct, and any new tree is fresh |
| Undecadic.UndecadicHeptavertexClustering.ProbeStep | cognut/src/main/java/com/oculusinfo/ml/unsupervised/cluster/cognut/UndecadicHeptavertexClustering.java:189-195 | one probe adds the instance to tree (t + i) mod 48 iff that tree accepts |
| Undecadic.UndecadicHeptavertexClustering.TryTree | cognut/src/main/java/com/oculusinfo/ml/unsupervised/cluster/cognut/UndecadicHeptavertexClustering.java:184-185 | a tree takes the instance iff `isCandidate` accepts, and nothing else changes |
| Undecadic.UndecadicHeptavertexClustering.CollectTrees | cognut/src/main/java/com/oculusinfo/ml/unsupervised/cluster/cognut/UndecadicHeptavertexClustering.java:208-216 | the final loop returns trees holding the non-empty trees' members in index order, sorted when asked |
| Undecadic.UndecadicHeptavertexClustering.CollectTree | cognut/src/main/java/com/oculusinfo/ml/unsupervised/cluster/cognut/UndecadicHeptavertexClustering.java:209-214 | a non-empty tree is sorted when asked and kept; an empty one is dropped |
| Undecadic.UndecadicHeptavertexClustering.NewTrees | cognut/src/main/java/com/oculusinfo/ml/unsupervised/cluster/cognut/UndecadicHeptavertexClustering.java:172-175 | 48 fresh, distinct, empty trees |
| Undecadic.UndecadicHeptavertexClustering.AssignAll | cognut/src/main/java/com/oculusinfo/ml/unsupervised/cluster/cognut/UndecadicHeptavertexClustering.java:178-205 | the instance loop fails exactly as the model run does, and otherwise leaves fresh distinct trees holding its trees |
| Undecadic.UndecadicHeptavertexClustering.DoCluster | cognut/src/main/java/com/oculusinfo/ml/unsupervised/cluster/cognut/UndecadicHeptavertexClustering.java:165-220 | fails iff an instance hashes to `MIN_VALUE`; otherwise returns the seeds, then fresh clusters holding the non-empty trees in index order, each in hash order when topological sorting is on, and together holding every instance exactly once |
| Hexadic.VicenarySumWraps | cognut/src/main/java/com/oculusinfo/ml/unsupervised/cluster/cognut/HexadicVicenaryTreeClustering.java:165-178 | the accumulator is the exact sum of `hash_i · ((i mod 20) + 1)` reduced modulo 2^32, however often it wrapped |
| Hexadic.VicenaryHash | cognut/src/main/java/com/oculusinfo/ml/unsupervised/cluster/cognut/HexadicVicenaryTreeClustering.java:177 | the hash is non-negative unless it is `Integer.MIN_VALUE` |
| Hexadic.PrimaryBranchRange | cognut/src/main/java/com/oculusinfo/ml/unsupervised/cluster/cognut/HexadicVicenaryTreeClustering.java:191-192 | the primary branch is in [0, 20) iff the hash is not `Integer.MIN_VALUE`, and -8 exactly for that hash |
| Hexadic.PrimaryBranch | cognut/src/main/java/com/oculusinfo/ml/unsupervised/cluster/cognut/HexadicVicenaryTreeClustering.java:191-192 | definition, no contract of its own: the hash `%` 20 with Java's truncating remainder; `PrimaryBranchRange` states its range |
| Hexadic.MinValueBranchExample | cognut/src/main/java/com/oculusinfo/ml/unsupervised/cluster/cognut/HexadicVicenaryTreeClustering.java:191-192 | one feature whose value hashes to `Integer.MIN_VALUE` routes its instance to branch -8 |
| Hexadic.CeilLog6 | cognut/src/main/java/com/oculusinfo/ml/unsupervised/cluster/cognut/HexadicVicenaryTreeClustering.java:131 | the least k with 6^k ≥ n, the exact value of `ceil(log(n) / log(6))` |
| Hexadic.Depth | cognut/src/main/java/com/oculusinfo/ml/unsupervised/cluster/cognut/HexadicVicenaryTreeClustering.java:126-132 | depth 0 iff empty, 1 for 1 to 20 members, and above 20 members at least 3 with 6^(d−2) < size ≤ 6^(d−1) |
| Hexadic.Capacity | cognut/src/main/java/com/oculusinfo/ml/unsupervised/cluster/cognut/HexadicVicenaryTreeClustering.java:114-121 | capacity 20 at depth 0, then 6, 36 and 216 from depth 3 on |
| Hexadic.HasRoomIff | cognut/src/main/java/com/oculusinfo/ml/unsupervised/cluster/cognut/HexadicVicenaryTreeClustering.java:80-84 | a cluster has room iff it holds fewer than 6 members, or between 21 and 215 |
| Hexadic.ScoreRange | cognut/src/main/java/com/oculusinfo/ml/unsupervised/cluster/cognut/HexadicVicenaryTreeClustering.java:151-152 | the compatibility score is in [0.05, 1] unless the wrapped difference is `MIN_VALUE`, which happens exactly for hashes `MIN_VALUE` and 0, and the score is then 1.4 |
| Hexadic.Score | cognut/src/main/java/com/oculusinfo/ml/unsupervised/cluster/cognut/HexadicVicenaryTreeClustering.java:151-152 | definition, no contract of its own: `1 − (|hx − hm| % 20) / 20` with wrapping difference, Java `Math.abs` and `%`; `ScoreRange` states its range |
| Hexadic.DifferenceAtMin | cognut/src/main/java/com/oculusinfo/ml/unsupervised/cluster/cognut/HexadicVicenaryTreeClustering.java:151 | the wrapped difference of two hashes has `Math.abs` equal to `MIN_VALUE` exactly for `MIN_VALUE` against 0 |
| Hexadic.Compatible | cognut/src/main/java/com/oculusinfo/ml/unsupervised/cluster/cognut/HexadicVicenaryTreeClustering.java:137-160 | compatible iff every member is within branchingThreshold × score; an empty cluster always is |
| Hexadic.Fits | cognut/src/main/java/com/oculusinfo/ml/unsupervised/cluster/cognut/HexadicVicenaryTreeClustering.java:147-155 | definition, no contract of its own: the per-member test, distance at most branchingThreshold times the score; `Compatible` states that the member loop requires it of every member |
| Hexadic.IsCandidate | cognut/src/main/java/com/oculusinfo/ml/unsupervised/cluster/cognut/HexadicVicenaryTreeClustering.java:74-88 | accepts iff the cluster has room at its depth and the instance is compatible with every member |
| Hexadic.CandidateBounds | cognut/src/main/java/com/oculusinfo/ml/unsupervised/cluster/cognut/HexadicVicenaryTreeClustering.java:80-84 | an empty cluster always accepts; a cluster of 6 to 20 members never does |
| Hexadic.RouteSmall | cognut/src/main/java/com/oculusinfo/ml/unsupervised/cluster/cognut/HexadicVicenaryTreeClustering.java:198-205 | routing one instance keeps every branch at 6 members or fewer |
| Hexadic.Route | cognut/src/main/java/com/oculusinfo/ml/unsupervised/cluster/cognut/HexadicVicenaryTreeClustering.java:191-205 | definition, no contract of its own: one pass of the instance loop on the branch map; `RouteSmall`, `RoutePlacesIff`, `RouteOpensBranch` and `RouteTotal` state what it does |
| Hexadic.RouteAll | cognut/src/main/java/com/oculusinfo/ml/unsupervised/cluster/cognut/HexadicVicenaryTreeClustering.java:190-207 | definition, no contract of its own: the branch map after the instances in order; `RouteAllSmall`, `RouteAllMembers` and `RouteAllTotal` state what it holds |
| Hexadic.RouteTotal | cognut/src/main/java/com/oculusinfo/ml/unsupervised/cluster/cognut/HexadicVicenaryTreeClustering.java:191-205 | routing one instance adds at most that instance to the multiset of all branch members; the `put` may also remove some |
| Hexadic.RouteAllTotal | cognut/src/main/java/com/oculusinfo/ml/unsupervised/cluster/cognut/HexadicVicenaryTreeClustering.java:190-207 | the branch map holds each instance at most as often as the input does: an instance can be lost but never duplicated |
| Hexadic.RouteAllSmall | cognut/src/main/java/com/oculusinfo/ml/unsupervised/cluster/cognut/HexadicVicenaryTreeClustering.java:190-207 | no branch `doCluster` builds ever holds more than 6 members |
| Hexadic.RouteAllMembers | cognut/src/main/java/com/oculusinfo/ml/unsupervised/cluster/cognut/HexadicVicenaryTreeClustering.java:190-207 | every member of every branch is one of the routed instances |
| Hexadic.RoutePlacesIff | cognut/src/main/java/com/oculusinfo/ml/unsupervised/cluster/cognut/HexadicVicenaryTreeClustering.java:198-205 | a new instance ends up in a branch iff its primary branch accepts it or the depth limit allows a sub-branch; otherwise it is in no cluster |
| Hexadic.RouteOpensBranch | cognut/src/main/java/com/oculusinfo/ml/unsupervised/cluster/cognut/HexadicVicenaryTreeClustering.java:195-199 | an absent primary branch is opened and the instance becomes its only member |
| Hexadic.HashOfOne | cognut/src/main/java/com/oculusinfo/ml/unsupervised/cluster/cognut/HexadicVicenaryTreeClustering.java:165-178 | one feature with value hash 1 gives hash 1 and primary branch 1 |
| Hexadic.OverwriteExample | cognut/src/main/java/com/oculusinfo/ml/unsupervised/cluster/cognut/HexadicVicenaryTreeClustering.java:204 | two hash-1 instances that do not fit each other leave only the second, under key 1; the first is in no cluster |
| Hexadic.SecondInstanceOverwrites | cognut/src/main/java/com/oculusinfo/ml/unsupervised/cluster/cognut/HexadicVicenaryTreeClustering.java:202-205 | the refused second instance's sub-branch is put under key `size() == 1`, replacing the first instance's branch |
| Hexadic.OptimizedSpec | cognut/src/main/java/com/oculusinfo/ml/unsupervised/cluster/cognut/HexadicVicenaryTreeClustering.java:249-268 | `optimizeVicenaryStructure` keeps the members, changes nothing up to 20 members, and otherwise orders them stably by ascending `hash % 20` |
| Hexadic.Optimized | cognut/src/main/java/com/oculusinfo/ml/unsupervised/cluster/cognut/HexadicVicenaryTreeClustering.java:249-268 | definition, no contract of its own: unchanged up to 20 members, else sorted stably by `hash % 20`; `OptimizedSpec` states what it computes |
| Hexadic.ValuesIn | cognut/src/main/java/com/oculusinfo/ml/unsupervised/cluster/cognut/HexadicVicenaryTreeClustering.java:210 | the branches' member lists in a given key order, one per key |
| Hexadic.ValuesInTotal | cognut/src/main/java/com/oculusinfo/ml/unsupervised/cluster/cognut/HexadicVicenaryTreeClustering.java:210 | listing the branches in any order that names every key once gives exactly the members of the whole map |
| Hexadic.RouteAllNoDuplicates | cognut/src/main/java/com/oculusinfo/ml/unsupervised/cluster/cognut/HexadicVicenaryTreeClustering.java:190-210 | in any iteration order, the branch lists together hold no instance more often than the input |
| Hexadic.NonEmptyNoDuplicates | cognut/src/main/java/com/oculusinfo/ml/unsupervised/cluster/cognut/HexadicVicenaryTreeClustering.java:210-218 | the non-empty branch lists the final loop keeps hold no instance more often than the input |
| Hexadic.GatheredNonEmpty | cognut/src/main/java/com/oculusinfo/ml/unsupervised/cluster/cognut/HexadicVicenaryTreeClustering.java:210-218 | with branches of at most 6 members, the final loop collects exactly the non-empty branches, unchanged, in iteration order |
| Hexadic.GatheredAll | cognut/src/main/java/com/oculusinfo/ml/unsupervised/cluster/cognut/HexadicVicenaryTreeClustering.java:210-218 | the whole final loop keeps exactly the non-empty branches, so the optimisation never reorders one |
| Hexadic.Gathered | cognut/src/main/java/com/oculusinfo/ml/unsupervised/cluster/cognut/HexadicVicenaryTreeClustering.java:210-218 | definition, no contract of its own: the non-empty branches among the first k keys, optimised when asked; `GatheredNonEmpty` and `GatheredAll` state what it keeps |
| Hexadic.IterationOrder | cognut/src/main/java/com/oculusinfo/ml/unsupervised/cluster/cognut/HexadicVicenaryTreeClustering.java:210 | a `HashMap` iteration order: every key exactly once, in an order left unspecified |
| Hexadic.HexadicVicenaryTreeClustering.constructor | cognut/src/main/java/com/oculusinfo/ml/unsupervised/cluster/cognut/HexadicVicenaryTreeClustering.java:65-71 | stores maxTreeDepth, branchingThreshold, enableVicenaryOptimization and penalizeMissingFeatures as given |
| Hexadic.HexadicVicenaryTreeClustering.OptimizeVicenaryStructure | cognut/src/main/java/com/oculusinfo/ml/unsupervised/cluster/cognut/HexadicVicenaryTreeClustering.java:249-268 | the cluster's members become their optimised order |
| Hexadic.HexadicVicenaryTreeClustering.CreateHexadicSubBranch | cognut/src/main/java/com/oculusinfo/ml/unsupervised/cluster/cognut/HexadicVicenaryTreeClustering.java:227-244 | null at the depth limit; otherwise a fresh cluster holding only the instance |
| Hexadic.HexadicVicenaryTreeClustering.OpenBranch | cognut/src/main/java/com/oculusinfo/ml/unsupervised/cluster/cognut/HexadicVicenaryTreeClustering.java:195-196 | `computeIfAbsent` leaves a branch under the key, a fresh empty one when there was none, and changes no other branch |
| Hexadic.HexadicVicenaryTreeClustering.AddToBranch | cognut/src/main/java/com/oculusinfo/ml/unsupervised/cluster/cognut/HexadicVicenaryTreeClustering.java:199 | the branch under the key gains the instance at its end; no other branch changes |
| Hexadic.HexadicVicenaryTreeClustering.PutSubBranch | cognut/src/main/java/com/oculusinfo/ml/unsupervised/cluster/cognut/HexadicVicenaryTreeClustering.java:204 | the sub-branch is stored under key `size()`, replacing whatever was there |
| Hexadic.HexadicVicenaryTreeClustering.RouteInstance | cognut/src/main/java/com/oculusinfo/ml/unsupervised/cluster/cognut/HexadicVicenaryTreeClustering.java:191-206 | one pass of the instance loop leaves the map holding the routed branches |
| Hexadic.HexadicVicenaryTreeClustering.RouteInstances | cognut/src/main/java/com/oculusinfo/ml/unsupervised/cluster/cognut/HexadicVicenaryTreeClustering.java:190-207 | the instance loop leaves a map of fresh, distinct clusters holding the routed branches |
| Hexadic.HexadicVicenaryTreeClustering.CollectBranch | cognut/src/main/java/com/oculusinfo/ml/unsupervised/cluster/cognut/HexadicVicenaryTreeClustering.java:211-217 | a non-empty branch is optimised when asked and kept; an empty one is skipped |
| Hexadic.HexadicVicenaryTreeClustering.CollectBranches | cognut/src/main/java/com/oculusinfo/ml/unsupervised/cluster/cognut/HexadicVicenaryTreeClustering.java:210-218 | the final loop keeps the branches in the given iteration order, as the gathering function says |
| Hexadic.HexadicVicenaryTreeClustering.DoCluster | cognut/src/main/java/com/oculusinfo/ml/unsupervised/cluster/cognut/HexadicVicenaryTreeClustering.java:181-222 | the seeds, then fresh clusters holding the non-empty branches in the map's iteration order, which lists every key once; no instance is in two of them, though an overwritten one is in none |
| BSeries.CoefficientsNearFactorial | cognut/src/main/java/com/oculusinfo/ml/unsupervised/cluster/cognut/BSeriesFoundationClustering.java:50 | each literal coefficient c_k satisfies 0 ≤ c_k · k! − 1 < 10^−4 |
| BSeries.Clamp | cognut/src/main/java/com/oculusinfo/ml/unsupervised/cluster/cognut/BSeriesFoundationClustering.java:67 | `targetOrder` is clamped to [1, 4]: kept in range, 1 below it, 4 above it |
| BSeries.Distances | cognut/src/main/java/com/oculusinfo/ml/unsupervised/cluster/cognut/BSeriesFoundationClustering.java:125-126 | the candidate's distances to the members, in member order |
| BSeries.Products | cognut/src/main/java/com/oculusinfo/ml/unsupervised/cluster/cognut/BSeriesFoundationClustering.java:141-204 | definition, no contract of its own: the sum over index sets i1 < … < ik of the distance products, what the k nested loops add; `NestSumProducts` proves the loops compute it and `ProductsOfEqual` evaluates it for equal distances |
| BSeries.Combinations | cognut/src/main/java/com/oculusinfo/ml/unsupervised/cluster/cognut/BSeriesFoundationClustering.java:151-206 | definition, no contract of its own: the count `n·(n−1)…/k!` in wrapping `int` arithmetic; `CombinationsExact`, `CountsAsWritten` and `Order4Overflow` state its value |
| BSeries.Term | cognut/src/main/java/com/oculusinfo/ml/unsupervised/cluster/cognut/BSeriesFoundationClustering.java:119-208 | definition, no contract of its own: 0 below k members, else the products sum over the count, 0 when the count is not positive; `TermOfEqualDistances` and `SingleMemberOrder1` state what it computes |
| BSeries.Series | cognut/src/main/java/com/oculusinfo/ml/unsupervised/cluster/cognut/BSeriesFoundationClustering.java:87-93 | definition, no contract of its own: the coefficient-weighted terms of orders 1 to the target order; `Value` and `TwoMemberExample` state what it computes |
| BSeries.Candidate | cognut/src/main/java/com/oculusinfo/ml/unsupervised/cluster/cognut/BSeriesFoundationClustering.java:73-81 | definition, no contract of its own: an empty cluster accepts, otherwise the value must be at most the threshold; the method `IsCandidate` is proved against it |
| BSeries.Value | cognut/src/main/java/com/oculusinfo/ml/unsupervised/cluster/cognut/BSeriesFoundationClustering.java:86-96 | the B-series value is non-negative and is ± the weighted sum of the order terms up to the target order |
| BSeries.BinomialFalling | cognut/src/main/java/com/oculusinfo/ml/unsupervised/cluster/cognut/BSeriesFoundationClustering.java:151 | k! · C(n, k) is the falling product n (n−1) … (n−k+1) the counts compute |
| BSeries.FallingFits | cognut/src/main/java/com/oculusinfo/ml/unsupervised/cluster/cognut/BSeriesFoundationClustering.java:206 | up to 216 members the count products do not overflow |
| BSeries.CombinationsExact | cognut/src/main/java/com/oculusinfo/ml/unsupervised/cluster/cognut/BSeriesFoundationClustering.java:151-206 | up to 216 members each order's count is the binomial coefficient C(n, k) ≥ 1 |
| BSeries.Order4Overflow | cognut/src/main/java/com/oculusinfo/ml/unsupervised/cluster/cognut/BSeriesFoundationClustering.java:206-207 | at 217 members the order-4 count overflows to a negative value and the order-4 term is 0 |
| BSeries.CountsAsWritten | cognut/src/main/java/com/oculusinfo/ml/unsupervised/cluster/cognut/BSeriesFoundationClustering.java:151-206 | the counts are the `int` expressions written in the three terms, each product wrapping |
| BSeries.ProductsOfEqual | cognut/src/main/java/com/oculusinfo/ml/unsupervised/cluster/cognut/BSeriesFoundationClustering.java:135-208 | when every distance is d, the products sum is C(n, k) copies of d^k |
| BSeries.TermOfEqualDistances | cognut/src/main/java/com/oculusinfo/ml/unsupervised/cluster/cognut/BSeriesFoundationClustering.java:119-208 | each order term is a mean: with all distances d (and no overflow) the order-k term is d^k |
| BSeries.SingleMemberOrder1 | cognut/src/main/java/com/oculusinfo/ml/unsupervised/cluster/cognut/BSeriesFoundationClustering.java:119-130 | against a one-member cluster the order-1 term is the distance to that member |
| BSeries.TwoMemberExample | cognut/src/main/java/com/oculusinfo/ml/unsupervised/cluster/cognut/BSeriesFoundationClustering.java:86-96 | distances 2 and 3 at order 2 give terms 2.5 and 6 and value 1.0 · 2.5 + 0.5 · 6 = 5.5 |
| BSeries.NestSumProducts | cognut/src/main/java/com/oculusinfo/ml/unsupervised/cluster/cognut/BSeriesFoundationClustering.java:192-204 | a complete nest of k loops adds exactly its factor times the sum over k-subsets of the distance products |
| BSeries.FirstFit | cognut/src/main/java/com/oculusinfo/ml/unsupervised/cluster/cognut/BSeriesFoundationClustering.java:224-230 | the index of the first cluster that accepts, every earlier one refusing, or none |
| BSeries.Place | cognut/src/main/java/com/oculusinfo/ml/unsupervised/cluster/cognut/BSeriesFoundationClustering.java:221-237 | definition, no contract of its own: the first accepting cluster takes the instance, else a new one-member cluster; `PlaceInvariant` states what it keeps |
| BSeries.Assign | cognut/src/main/java/com/oculusinfo/ml/unsupervised/cluster/cognut/BSeriesFoundationClustering.java:220-238 | definition, no contract of its own: the clusters after placing the instances in order; `AssignInvariant` states what it keeps |
| BSeries.PlaceInvariant | cognut/src/main/java/com/oculusinfo/ml/unsupervised/cluster/cognut/BSeriesFoundationClustering.java:220-237 | placing an instance adds exactly it, keeps every cluster non-empty and opens at most one cluster |
| BSeries.AssignInvariant | cognut/src/main/java/com/oculusinfo/ml/unsupervised/cluster/cognut/BSeriesFoundationClustering.java:220-238 | every instance lands in exactly one cluster, none is empty, and there are at most as many clusters as instances |
| BSeries.Without | cognut/src/main/java/com/oculusinfo/ml/unsupervised/cluster/cognut/BSeriesFoundationClustering.java:283-290 | the temporary cluster is the members with every copy of the instance removed |
| BSeries.InstanceKey | cognut/src/main/java/com/oculusinfo/ml/unsupervised/cluster/cognut/BSeriesFoundationClustering.java:266-270 | definition, no contract of its own: a member's sort key, its value against the cluster without it; `OptimizedSpec` states the order it induces |
| BSeries.Optimized | cognut/src/main/java/com/oculusinfo/ml/unsupervised/cluster/cognut/BSeriesFoundationClustering.java:259-278 | definition, no contract of its own: unchanged up to targetOrder members, else sorted stably by that key; `OptimizedSpec` states what it computes |
| BSeries.OptimizedSpec | cognut/src/main/java/com/oculusinfo/ml/unsupervised/cluster/cognut/BSeriesFoundationClustering.java:259-278 | `optimizeBSeriesExpansion` keeps the members, changes nothing up to targetOrder members, and otherwise orders them stably by ascending value against the others |
| BSeries.CollectedKeepsAll | cognut/src/main/java/com/oculusinfo/ml/unsupervised/cluster/cognut/BSeriesFoundationClustering.java:241-249 | with no empty cluster the final loop keeps every cluster in creation order, each optimised when asked |
| BSeries.Collected | cognut/src/main/java/com/oculusinfo/ml/unsupervised/cluster/cognut/BSeriesFoundationClustering.java:241-249 | definition, no contract of its own: the non-empty clusters among the first k, optimised when asked; `CollectedKeepsAll` and `CollectedMembers` state what it keeps |
| BSeries.CollectedMembers | cognut/src/main/java/com/oculusinfo/ml/unsupervised/cluster/cognut/BSeriesFoundationClustering.java:241-249 | the final loop loses and duplicates no instance |
| BSeries.ResultCoversInput | cognut/src/main/java/com/oculusinfo/ml/unsupervised/cluster/cognut/BSeriesFoundationClustering.java:214-249 | the clusters after the seeds hold every instance exactly once, one per cluster created |
| BSeries.BSeriesFoundationClustering.constructor | cognut/src/main/java/com/oculusinfo/ml/unsupervised/cluster/cognut/BSeriesFoundationClustering.java:64-70 | stores the clamped order and the other parameters |
| BSeries.BSeriesFoundationClustering.SetTargetOrder | cognut/src/main/java/com/oculusinfo/ml/unsupervised/cluster/cognut/BSeriesFoundationClustering.java:299-301 | clamps like the constructor and changes no other field |
| BSeries.BSeriesFoundationClustering.Order1Term | cognut/src/main/java/com/oculusinfo/ml/unsupervised/cluster/cognut/BSeriesFoundationClustering.java:119-130 | the mean distance to the members, 0 for an empty cluster |
| BSeries.BSeriesFoundationClustering.Order2Term | cognut/src/main/java/com/oculusinfo/ml/unsupervised/cluster/cognut/BSeriesFoundationClustering.java:135-153 | the order-2 term: the sum over pairs i < j of the distance products, divided by the `int` pair count |
| BSeries.BSeriesFoundationClustering.Order3Term | cognut/src/main/java/com/oculusinfo/ml/unsupervised/cluster/cognut/BSeriesFoundationClustering.java:158-179 | the order-3 term over triples i < j < k |
| BSeries.BSeriesFoundationClustering.Order4Term | cognut/src/main/java/com/oculusinfo/ml/unsupervised/cluster/cognut/BSeriesFoundationClustering.java:184-208 | the order-4 term over quadruples i < j < k < l |
| BSeries.BSeriesFoundationClustering.AddQuadruples | cognut/src/main/java/com/oculusinfo/ml/unsupervised/cluster/cognut/BSeriesFoundationClustering.java:195-201 | the innermost loop adds the products for every l > k |
| BSeries.BSeriesFoundationClustering.OrderTerm | cognut/src/main/java/com/oculusinfo/ml/unsupervised/cluster/cognut/BSeriesFoundationClustering.java:101-114 | the order-k term for k in 1..4 and 0 for any other order |
| BSeries.BSeriesFoundationClustering.SeriesSum | cognut/src/main/java/com/oculusinfo/ml/unsupervised/cluster/cognut/BSeriesFoundationClustering.java:87-93 | the weighted sum of the order terms of orders 1 to the target order |
| BSeries.BSeriesFoundationClustering.BSeriesValue | cognut/src/main/java/com/oculusinfo/ml/unsupervised/cluster/cognut/BSeriesFoundationClustering.java:86-96 | the B-series value of the instance against the cluster |
| BSeries.BSeriesFoundationClustering.IsCandidate | cognut/src/main/java/com/oculusinfo/ml/unsupervised/cluster/cognut/BSeriesFoundationClustering.java:73-81 | accepts iff the cluster is empty or the value is at most seriesThreshold |
| BSeries.BSeriesFoundationClustering.ValueForInstance | cognut/src/main/java/com/oculusinfo/ml/unsupervised/cluster/cognut/BSeriesFoundationClustering.java:283-293 | the value against the cluster's members other than the instance |
| BSeries.BSeriesFoundationClustering.OptimizeBSeriesExpansion | cognut/src/main/java/com/oculusinfo/ml/unsupervised/cluster/cognut/BSeriesFoundationClustering.java:259-278 | the cluster's members become their optimised order |
| BSeries.BSeriesFoundationClustering.TryCluster | cognut/src/main/java/com/oculusinfo/ml/unsupervised/cluster/cognut/BSeriesFoundationClustering.java:225-228 | the cluster takes the instance iff it accepts it; nothing else changes |
| BSeries.BSeriesFoundationClustering.FirstFitScan | cognut/src/main/java/com/oculusinfo/ml/unsupervised/cluster/cognut/BSeriesFoundationClustering.java:224-230 | the first accepting cluster in creation order takes the instance, if there is one |
| BSeries.BSeriesFoundationClustering.PlaceInstance | cognut/src/main/java/com/oculusinfo/ml/unsupervised/cluster/cognut/BSeriesFoundationClustering.java:221-237 | the first accepting cluster takes the instance, else a fresh one-member cluster is added |
| BSeries.BSeriesFoundationClustering.AssignAll | cognut/src/main/java/com/oculusinfo/ml/unsupervised/cluster/cognut/BSeriesFoundationClustering.java:220-238 | the instance loop leaves fresh, distinct clusters holding the first-fit assignment in creation order |
| BSeries.BSeriesFoundationClustering.CollectCluster | cognut/src/main/java/com/oculusinfo/ml/unsupervised/cluster/cognut/BSeriesFoundationClustering.java:242-248 | a non-empty cluster is optimised when asked and kept; an empty one is dropped |
| BSeries.BSeriesFoundationClustering.CollectStep | cognut/src/main/java/com/oculusinfo/ml/unsupervised/cluster/cognut/BSeriesFoundationClustering.java:241-249 | one pass of the final loop extends the collected clusters by the next one |
| BSeries.BSeriesFoundationClustering.CollectAll | cognut/src/main/java/com/oculusinfo/ml/unsupervised/cluster/cognut/BSeriesFoundationClustering.java:241-249 | the final loop keeps the clusters in creation order, optimised when asked |
| BSeries.BSeriesFoundationClustering.DoCluster | cognut/src/main/java/com/oculusinfo/ml/unsupervised/cluster/cognut/BSeriesFoundationClustering.java:211-254 | the seeds, then fresh clusters holding the first-fit clusters in creation order, each optimised when complete expansion is on |
| Triadic.InfluenceSkipsPair | cognut/src/main/java/com/oculusinfo/ml/unsupervised/cluster/cognut/BSeriesOrder5TriadicClustering.java:154-160 | members equal to either instance add nothing to the cluster influence |
| Triadic.Influence | cognut/src/main/java/com/oculusinfo/ml/unsupervised/cluster/cognut/BSeriesOrder5TriadicClustering.java:153-160 | definition, no contract of its own: the sum of `pow(d(x, o)·d(m, o), 2.5)` over the members other than the two instances; `InfluenceSkipsPair` and `InfluenceNonNegative` state what it computes |
| Triadic.Simplified | cognut/src/main/java/com/oculusinfo/ml/unsupervised/cluster/cognut/BSeriesOrder5TriadicClustering.java:146-163 | definition, no contract of its own: the direct distance plus 1/120 of the influence; the method `SimplifiedOrder5` is proved against it |
| Triadic.InfluenceNonNegative | cognut/src/main/java/com/oculusinfo/ml/unsupervised/cluster/cognut/BSeriesOrder5TriadicClustering.java:146-163 | for a non-negative `pow`, the influence is non-negative and the simplified term is at least the direct distance |
| Triadic.DistancesFrom | cognut/src/main/java/com/oculusinfo/ml/unsupervised/cluster/cognut/BSeriesOrder5TriadicClustering.java:127-131 | an instance's distances to the members, in member order |
| Triadic.QuadrupleCountExact | cognut/src/main/java/com/oculusinfo/ml/unsupervised/cluster/cognut/BSeriesOrder5TriadicClustering.java:120-140 | up to 216 members the `int` counter ends at C(n, 4), at least 1 from four members on |
| Triadic.FiveWayTerm | cognut/src/main/java/com/oculusinfo/ml/unsupervised/cluster/cognut/BSeriesOrder5TriadicClustering.java:117-140 | definition, no contract of its own: the 5-way products sum divided by the wrapped `int` counter, 0 when the counter is not positive; the method `FiveWayLoop` is proved against it |
| Triadic.Order5 | cognut/src/main/java/com/oculusinfo/ml/unsupervised/cluster/cognut/BSeriesOrder5TriadicClustering.java:112-141 | definition, no contract of its own: the simplified term below five members, the 5-way term from five on; the method `Order5Term` is proved against it |
| Triadic.Compatibility | cognut/src/main/java/com/oculusinfo/ml/unsupervised/cluster/cognut/BSeriesOrder5TriadicClustering.java:91-107 | definition, no contract of its own: 0 for an empty cluster, else the weighted order-5 terms over `max(1, size)`; the method `TriadicCompatibility` is proved against it |
| Triadic.CandidateCap | cognut/src/main/java/com/oculusinfo/ml/unsupervised/cluster/cognut/BSeriesOrder5TriadicClustering.java:74-86 | under the cap only clusters of fewer than three members accept; an empty cluster always accepts; otherwise acceptance is compatibility ≤ triadicThreshold |
| Triadic.Candidate | cognut/src/main/java/com/oculusinfo/ml/unsupervised/cluster/cognut/BSeriesOrder5TriadicClustering.java:74-86 | definition, no contract of its own: under the cap three or more members refuse, an empty cluster accepts, otherwise compatibility at most the threshold; `CandidateCap` states it case by case |
| Triadic.Square | cognut/src/main/java/com/oculusinfo/ml/unsupervised/cluster/cognut/BSeriesOrder5TriadicClustering.java:182-184 | `Math.pow(v, 2)` is non-negative |
| Triadic.TriangleStability | cognut/src/main/java/com/oculusinfo/ml/unsupervised/cluster/cognut/BSeriesOrder5TriadicClustering.java:176-186 | definition, no contract of its own: 1 / (1 + summed squared deviations from the mean distance); `TriangleStabilityRange` and `TriangleStabilitySymmetric` state what it computes |
| Triadic.Stability | cognut/src/main/java/com/oculusinfo/ml/unsupervised/cluster/cognut/BSeriesOrder5TriadicClustering.java:168-187 | definition, no contract of its own: 0 off three members, else the triangle stability of the members' distances; `StabilityRange` and `StabilityExample` state what it computes |
| Triadic.TriangleStabilityRange | cognut/src/main/java/com/oculusinfo/ml/unsupervised/cluster/cognut/BSeriesOrder5TriadicClustering.java:181-186 | a triangle's stability lies in (0, 1] and is 1 exactly when all three distances are equal |
| Triadic.StabilityRange | cognut/src/main/java/com/oculusinfo/ml/unsupervised/cluster/cognut/BSeriesOrder5TriadicClustering.java:168-187 | stability is 0 off three members and in (0, 1] on three |
| Triadic.StabilityExample | cognut/src/main/java/com/oculusinfo/ml/unsupervised/cluster/cognut/BSeriesOrder5TriadicClustering.java:176-186 | pairwise distances 1, 2 and 3 give stability 1/3 |
| Triadic.Perm | cognut/src/main/java/com/oculusinfo/ml/unsupervised/cluster/cognut/BSeriesOrder5TriadicClustering.java:257-260 | the test cluster built from members i, j, k has three members |
| Triadic.Position | cognut/src/main/java/com/oculusinfo/ml/unsupervised/cluster/cognut/BSeriesOrder5TriadicClustering.java:253-255 | step t of the triple loop visits the indices (i, j, k) with 9i + 3j + k = t |
| Triadic.Decompose | cognut/src/main/java/com/oculusinfo/ml/unsupervised/cluster/cognut/BSeriesOrder5TriadicClustering.java:253-255 | each index triple is visited at its own step |
| Triadic.PermMultiset | cognut/src/main/java/com/oculusinfo/ml/unsupervised/cluster/cognut/BSeriesOrder5TriadicClustering.java:256-260 | a test cluster for pairwise different indices is a permutation of the triad |
| Triadic.Scan | cognut/src/main/java/com/oculusinfo/ml/unsupervised/cluster/cognut/BSeriesOrder5TriadicClustering.java:249-273 | definition, no contract of its own: the best ordering after the first t index triples, switching only on strictly higher stability; `ScanPermutes`, `ScanBest` and `ScanKeeps` state what it computes |
| Triadic.OptimizedTriad | cognut/src/main/java/com/oculusinfo/ml/unsupervised/cluster/cognut/BSeriesOrder5TriadicClustering.java:241-280 | definition, no contract of its own: a triad takes the ordering the whole scan chooses, anything else is unchanged; `OptimizedTriadPermutes` and `OptimizedTriadSpec` state what it computes |
| Triadic.ScanPermutes | cognut/src/main/java/com/oculusinfo/ml/unsupervised/cluster/cognut/BSeriesOrder5TriadicClustering.java:249-273 | the best ordering so far is a permutation of the triad with its own stability, at least the starting one |
| Triadic.ScanBest | cognut/src/main/java/com/oculusinfo/ml/unsupervised/cluster/cognut/BSeriesOrder5TriadicClustering.java:253-273 | the best stability so far is at least that of every permutation visited |
| Triadic.ScanKeeps | cognut/src/main/java/com/oculusinfo/ml/unsupervised/cluster/cognut/BSeriesOrder5TriadicClustering.java:262-269 | when no permutation is strictly more stable, the starting order is kept |
| Triadic.OptimizedTriadPermutes | cognut/src/main/java/com/oculusinfo/ml/unsupervised/cluster/cognut/BSeriesOrder5TriadicClustering.java:241-280 | `optimizeTriadicStructure` keeps the members |
| Triadic.OptimizedTriadSpec | cognut/src/main/java/com/oculusinfo/ml/unsupervised/cluster/cognut/BSeriesOrder5TriadicClustering.java:241-280 | clusters of other than three members are untouched; a triad becomes a permutation at least as stable as every permutation, keeping its order when none is strictly better |
| Triadic.TriangleStabilitySymmetric | cognut/src/main/java/com/oculusinfo/ml/unsupervised/cluster/cognut/BSeriesOrder5TriadicClustering.java:176-186 | the stability does not depend on the order of the three distances |
| Triadic.SymmetricDistanceKeepsOrder | cognut/src/main/java/com/oculusinfo/ml/unsupervised/cluster/cognut/BSeriesOrder5TriadicClustering.java:241-280 | for a symmetric distance (a named assumption) `optimizeTriadicStructure` never changes the order |
| Triadic.FirstFit | cognut/src/main/java/com/oculusinfo/ml/unsupervised/cluster/cognut/BSeriesOrder5TriadicClustering.java:203-209 | the index of the first triadic cluster that accepts, every earlier one refusing, or none |
| Triadic.Place | cognut/src/main/java/com/oculusinfo/ml/unsupervised/cluster/cognut/BSeriesOrder5TriadicClustering.java:200-216 | definition, no contract of its own: the first accepting triadic cluster takes the instance, else a new one; `PlaceInvariant` states what it keeps |
| Triadic.Assign | cognut/src/main/java/com/oculusinfo/ml/unsupervised/cluster/cognut/BSeriesOrder5TriadicClustering.java:199-217 | definition, no contract of its own: the triadic clusters after the instances in order; `AssignInvariant` and `AssignCapped` state what it keeps |
| Triadic.PlaceInvariant | cognut/src/main/java/com/oculusinfo/ml/unsupervised/cluster/cognut/BSeriesOrder5TriadicClustering.java:199-216 | placing an instance adds exactly it, keeps every cluster non-empty and opens at most one cluster |
| Triadic.AssignInvariant | cognut/src/main/java/com/oculusinfo/ml/unsupervised/cluster/cognut/BSeriesOrder5TriadicClustering.java:199-217 | every instance lands in exactly one triadic cluster and none is empty |
| Triadic.AssignCapped | cognut/src/main/java/com/oculusinfo/ml/unsupervised/cluster/cognut/BSeriesOrder5TriadicClustering.java:199-217 | under the cap no cluster the assignment builds holds more than three members |
| Triadic.CollectedKeepsAll | cognut/src/main/java/com/oculusinfo/ml/unsupervised/cluster/cognut/BSeriesOrder5TriadicClustering.java:220-226 | with no empty cluster the optimisation loop keeps every cluster, in order, optimised |
| Triadic.Collected | cognut/src/main/java/com/oculusinfo/ml/unsupervised/cluster/cognut/BSeriesOrder5TriadicClustering.java:220-226 | definition, no contract of its own: the non-empty clusters among the first k, each optimised; `CollectedKeepsAll` and `CollectedMembers` state what it keeps |
| Triadic.Built | cognut/src/main/java/com/oculusinfo/ml/unsupervised/cluster/cognut/BSeriesOrder5TriadicClustering.java:199-226 | definition, no contract of its own: the clusters `doCluster` builds after the seeds, before merging; `BuiltCoversInput` states what it holds |
| Triadic.CollectedMembers | cognut/src/main/java/com/oculusinfo/ml/unsupervised/cluster/cognut/BSeriesOrder5TriadicClustering.java:220-226 | the optimisation loop loses and duplicates no instance |
| Triadic.BuiltCoversInput | cognut/src/main/java/com/oculusinfo/ml/unsupervised/cluster/cognut/BSeriesOrder5TriadicClustering.java:199-226 | the built clusters hold every instance exactly once, none is empty, and under the cap none exceeds three members |
| Triadic.Complete | cognut/src/main/java/com/oculusinfo/ml/unsupervised/cluster/cognut/BSeriesOrder5TriadicClustering.java:290-296 | the lists of exactly three members, in order |
| Triadic.Incomplete | cognut/src/main/java/com/oculusinfo/ml/unsupervised/cluster/cognut/BSeriesOrder5TriadicClustering.java:290-296 | the other lists, in order |
| Triadic.SplitMembers | cognut/src/main/java/com/oculusinfo/ml/unsupervised/cluster/cognut/BSeriesOrder5TriadicClustering.java:290-296 | separating complete from incomplete triads loses and duplicates no list or instance |
| Triadic.MergeLoop | cognut/src/main/java/com/oculusinfo/ml/unsupervised/cluster/cognut/BSeriesOrder5TriadicClustering.java:299-319 | definition, no contract of its own: the merge loop on member lists; `MergeLoopMembers` and `MergeLoopShape` state what it keeps |
| Triadic.Merged | cognut/src/main/java/com/oculusinfo/ml/unsupervised/cluster/cognut/BSeriesOrder5TriadicClustering.java:285-325 | definition, no contract of its own: split, merge loop, complete lists first; `MergedSpec` states what it computes |
| Triadic.MergeLoopMembers | cognut/src/main/java/com/oculusinfo/ml/unsupervised/cluster/cognut/BSeriesOrder5TriadicClustering.java:299-319 | the merge loop terminates and loses and duplicates no instance |
| Triadic.MergeLoopShape | cognut/src/main/java/com/oculusinfo/ml/unsupervised/cluster/cognut/BSeriesOrder5TriadicClustering.java:299-322 | the merge loop never adds a list and keeps every three-member list in front of the rest |
| Triadic.MergedSpec | cognut/src/main/java/com/oculusinfo/ml/unsupervised/cluster/cognut/BSeriesOrder5TriadicClustering.java:285-325 | `mergeIncompleteTriads` keeps every instance exactly once, returns at most as many clusters as it got, and lists the triads first |
| Triadic.MergeExample | cognut/src/main/java/com/oculusinfo/ml/unsupervised/cluster/cognut/BSeriesOrder5TriadicClustering.java:299-319 | three singletons a, b, c merge into the single triad [c, a, b] |
| Triadic.MergeStopsExample | cognut/src/main/java/com/oculusinfo/ml/unsupervised/cluster/cognut/BSeriesOrder5TriadicClustering.java:304-317 | a pair followed by a four-member list stops the loop at once, and both go to the back after the singleton |
| Triadic.BSeriesOrder5TriadicClustering.constructor | cognut/src/main/java/com/oculusinfo/ml/unsupervised/cluster/cognut/BSeriesOrder5TriadicClustering.java:65-71 | stores triadicThreshold, order5Weight, enforceTriadicStructure and penalizeMissingFeatures as given |
| Triadic.BSeriesOrder5TriadicClustering.SimplifiedOrder5 | cognut/src/main/java/com/oculusinfo/ml/unsupervised/cluster/cognut/BSeriesOrder5TriadicClustering.java:146-163 | the direct distance plus 1/120 times the influence of the other members |
| Triadic.BSeriesOrder5TriadicClustering.AddOverL | cognut/src/main/java/com/oculusinfo/ml/unsupervised/cluster/cognut/BSeriesOrder5TriadicClustering.java:126-135 | the innermost loop adds its products for every l > k and counts them in the wrapping `int` counter |
| Triadic.BSeriesOrder5TriadicClustering.AddOverK | cognut/src/main/java/com/oculusinfo/ml/unsupervised/cluster/cognut/BSeriesOrder5TriadicClustering.java:125-136 | the loop over k adds the products for every k < l above j, counted with C(·, 2) |
| Triadic.BSeriesOrder5TriadicClustering.AddOverJ | cognut/src/main/java/com/oculusinfo/ml/unsupervised/cluster/cognut/BSeriesOrder5TriadicClustering.java:124-137 | the loop over j adds the products for every j < k < l above i, counted with C(·, 3) |
| Triadic.BSeriesOrder5TriadicClustering.FiveWayLoop | cognut/src/main/java/com/oculusinfo/ml/unsupervised/cluster/cognut/BSeriesOrder5TriadicClustering.java:123-138 | the 5-way sum over all i < j < k < l, and the counter that ends at C(n, 4) wrapped to 32 bits |
| Triadic.BSeriesOrder5TriadicClustering.Order5Term | cognut/src/main/java/com/oculusinfo/ml/unsupervised/cluster/cognut/BSeriesOrder5TriadicClustering.java:112-141 | the simplified term below five members, else the 5-way sum divided by the count, 0 when the count is not positive |
| Triadic.BSeriesOrder5TriadicClustering.WeightedTerms | cognut/src/main/java/com/oculusinfo/ml/unsupervised/cluster/cognut/BSeriesOrder5TriadicClustering.java:100-103 | the sum of order5Weight times each member's order-5 term, in member order |
| Triadic.BSeriesOrder5TriadicClustering.TriadicCompatibility | cognut/src/main/java/com/oculusinfo/ml/unsupervised/cluster/cognut/BSeriesOrder5TriadicClustering.java:91-107 | 0 for an empty cluster, else the weighted terms divided by `max(1, size)` |
| Triadic.BSeriesOrder5TriadicClustering.IsCandidate | cognut/src/main/java/com/oculusinfo/ml/unsupervised/cluster/cognut/BSeriesOrder5TriadicClustering.java:74-86 | refuses at three or more members under the cap; otherwise accepts an empty cluster, or compatibility ≤ triadicThreshold |
| Triadic.BSeriesOrder5TriadicClustering.TriadicStability | cognut/src/main/java/com/oculusinfo/ml/unsupervised/cluster/cognut/BSeriesOrder5TriadicClustering.java:168-187 | the cluster's triadic stability |
| Triadic.BSeriesOrder5TriadicClustering.TryPermutation | cognut/src/main/java/com/oculusinfo/ml/unsupervised/cluster/cognut/BSeriesOrder5TriadicClustering.java:256-270 | one test of the triple loop is step 9i + 3j + k of the scan |
| Triadic.BSeriesOrder5TriadicClustering.ScanK | cognut/src/main/java/com/oculusinfo/ml/unsupervised/cluster/cognut/BSeriesOrder5TriadicClustering.java:255-271 | the loop over k advances the scan by three steps |
| Triadic.BSeriesOrder5TriadicClustering.ScanJ | cognut/src/main/java/com/oculusinfo/ml/unsupervised/cluster/cognut/BSeriesOrder5TriadicClustering.java:254-272 | the loop over j advances the scan by nine steps |
| Triadic.BSeriesOrder5TriadicClustering.BestOrdering | cognut/src/main/java/com/oculusinfo/ml/unsupervised/cluster/cognut/BSeriesOrder5TriadicClustering.java:249-273 | the triple loop ends with the ordering the whole scan chooses |
| Triadic.BSeriesOrder5TriadicClustering.OptimizeTriadicStructure | cognut/src/main/java/com/oculusinfo/ml/unsupervised/cluster/cognut/BSeriesOrder5TriadicClustering.java:241-280 | the cluster's members become the optimised triad order |
| Triadic.BSeriesOrder5TriadicClustering.TryCluster | cognut/src/main/java/com/oculusinfo/ml/unsupervised/cluster/cognut/BSeriesOrder5TriadicClustering.java:204-208 | the cluster takes the instance iff it accepts it; nothing else changes |
| Triadic.BSeriesOrder5TriadicClustering.FirstFitScan | cognut/src/main/java/com/oculusinfo/ml/unsupervised/cluster/cognut/BSeriesOrder5TriadicClustering.java:203-209 | the first accepting triadic cluster takes the instance, if there is one |
| Triadic.BSeriesOrder5TriadicClustering.PlaceInstance | cognut/src/main/java/com/oculusinfo/ml/unsupervised/cluster/cognut/BSeriesOrder5TriadicClustering.java:200-216 | the first accepting cluster takes the instance, else a fresh one-member cluster is added |
| Triadic.BSeriesOrder5TriadicClustering.AssignAll | cognut/src/main/java/com/oculusinfo/ml/unsupervised/cluster/cognut/BSeriesOrder5TriadicClustering.java:199-217 | the instance loop leaves fresh, distinct clusters holding the first-fit assignment |
| Triadic.BSeriesOrder5TriadicClustering.CollectCluster | cognut/src/main/java/com/oculusinfo/ml/unsupervised/cluster/cognut/BSeriesOrder5TriadicClustering.java:221-225 | a non-empty cluster is optimised and kept; an empty one is dropped |
| Triadic.BSeriesOrder5TriadicClustering.CollectAll | cognut/src/main/java/com/oculusinfo/ml/unsupervised/cluster/cognut/BSeriesOrder5TriadicClustering.java:220-226 | the optimisation loop keeps the non-empty clusters in order, each optimised |
| Triadic.BSeriesOrder5TriadicClustering.AddAll | cognut/src/main/java/com/oculusinfo/ml/unsupervised/cluster/cognut/BSeriesOrder5TriadicClustering.java:305-307 | the target gains the source's members at its end |
| Triadic.BSeriesOrder5TriadicClustering.SplitTriads | cognut/src/main/java/com/oculusinfo/ml/unsupervised/cluster/cognut/BSeriesOrder5TriadicClustering.java:290-296 | the clusters split into distinct complete and incomplete lists holding the complete and incomplete member lists |
| Triadic.BSeriesOrder5TriadicClustering.MergeFront | cognut/src/main/java/com/oculusinfo/ml/unsupervised/cluster/cognut/BSeriesOrder5TriadicClustering.java:300-318 | one pass merges the front two incomplete clusters when they fit in four members, shrinking the queue, or stops the loop; no cluster loses a member |
| Triadic.BSeriesOrder5TriadicClustering.MergeIncompleteTriads | cognut/src/main/java/com/oculusinfo/ml/unsupervised/cluster/cognut/BSeriesOrder5TriadicClustering.java:285-325 | the result clusters hold the merged member lists and are all input clusters; no input cluster loses a member, so an absorbed cluster keeps its members and only leaves the list |
| Triadic.BSeriesOrder5TriadicClustering.DoCluster | cognut/src/main/java/com/oculusinfo/ml/unsupervised/cluster/cognut/BSeriesOrder5TriadicClustering.java:190-236 | every result cluster is a seed or fresh, and no seed loses a member; under the cap the seeds come first, unchanged, then the built clusters; otherwise the result holds the merge of the seeds followed by the built clusters |
| Factory.CreateFractalClusterer | cognut/src/main/java/com/oculusinfo/ml/unsupervised/cluster/cognut/CognutClusteringFactory.java:17-24 | maxDepth 4, fractalDimension 2.0, partitionThreshold 0.5, no missing-feature penalty |
| Factory.CreateCustomFractalClusterer | cognut/src/main/java/com/oculusinfo/ml/unsupervised/cluster/cognut/CognutClusteringFactory.java:29-32 | forwards its arguments unchanged, no missing-feature penalty |
| Factory.CreateUndecadicClusterer | cognut/src/main/java/com/oculusinfo/ml/unsupervised/cluster/cognut/CognutClusteringFactory.java:37-43 | vertexThreshold 0.5, topological sort on, no missing-feature penalty |
| Factory.CreateCustomUndecadicClusterer | cognut/src/main/java/com/oculusinfo/ml/unsupervised/cluster/cognut/CognutClusteringFactory.java:48-51 | forwards its arguments unchanged, no missing-feature penalty |
| Factory.CreateHexadicVicenaryClusterer | cognut/src/main/java/com/oculusinfo/ml/unsupervised/cluster/cognut/CognutClusteringFactory.java:56-63 | maxTreeDepth 4, branchingThreshold 0.4, optimisation on, no missing-feature penalty |
| Factory.CreateCustomHexadicVicenaryClusterer | cognut/src/main/java/com/oculusinfo/ml/unsupervised/cluster/cognut/CognutClusteringFactory.java:68-71 | forwards its arguments unchanged, no missing-feature penalty |
| Factory.CreateBSeriesClusterer | cognut/src/main/java/com/oculusinfo/ml/unsupervised/cluster/cognut/CognutClusteringFactory.java:76-83 | order 2, threshold 0.3, complete expansion on, no missing-feature penalty |
| Factory.CreateBSeriesClustererOfOrder | cognut/src/main/java/com/oculusinfo/ml/unsupervised/cluster/cognut/CognutClusteringFactory.java:88-90 | the order goes through the clamp, so an order in 1..4 is kept; threshold 0.3, complete expansion on |
| Factory.CreateCustomBSeriesClusterer | cognut/src/main/java/com/oculusinfo/ml/unsupervised/cluster/cognut/CognutClusteringFactory.java:95-98 | forwards its arguments, the order clamped, no missing-feature penalty |
| Factory.CreateTriadicClusterer | cognut/src/main/java/com/oculusinfo/ml/unsupervised/cluster/cognut/CognutClusteringFactory.java:103-110 | threshold 0.4, weight 1.0, triads not enforced, no missing-feature penalty |
| Factory.CreateStrictTriadicClusterer | cognut/src/main/java/com/oculusinfo/ml/unsupervised/cluster/cognut/CognutClusteringFactory.java:115-122 | threshold 0.3, weight 1.5, triads enforced, no missing-feature penalty |
| Factory.CreateCustomTriadicClusterer | cognut/src/main/java/com/oculusinfo/ml/unsupervised/cluster/cognut/CognutClusteringFactory.java:127-130 | forwards its arguments unchanged, no missing-feature penalty |
| Whitespace.CrLfToLf | spotless-maven-plugin/src/main/java/com/diffplug/spotless/maven/SpotlessMojo.java:109 | replacing CRLF never lengthens the text |
| Whitespace.CrToLf | spotless-maven-plugin/src/main/java/com/diffplug/spotless/maven/SpotlessMojo.java:110 | replacing CR keeps the length, leaves no CR and keeps every other character |
| Whitespace.UnixLineEndings | spotless-maven-plugin/src/main/java/com/diffplug/spotless/maven/SpotlessMojo.java:109-110 | definition, no contract of its own: each CRLF pair and each other CR becomes one LF; `TwoPassLineEndings` proves it equal to the two `replaceAll` passes, and `LineEndingsKeep` that text without CR is unchanged |
| Whitespace.TwoPassLineEndings | spotless-maven-plugin/src/main/java/com/diffplug/spotless/maven/SpotlessMojo.java:109-110 | the two passes turn each CRLF pair into one LF and each other CR into one LF |
| Whitespace.LineEndingsKeep | spotless-maven-plugin/src/main/java/com/diffplug/spotless/maven/SpotlessMojo.java:109-110 | text without CR passes through both line-ending passes unchanged |
| Whitespace.TrimSpec | spotless-maven-plugin/src/main/java/com/diffplug/spotless/maven/SpotlessMojo.java:111 | after trimming, no newline follows a space or tab; the text is no longer and gains no CR |
| Whitespace.TrimBlanksBeforeNewline | spotless-maven-plugin/src/main/java/com/diffplug/spotless/maven/SpotlessMojo.java:111 | definition, no contract of its own: the regex pass as a scan, dropping a blank run that a newline ends and keeping any other; `TrimSpec`, `TrimKeeps` and `LineTrim.TrimIsTrimLines` state what it computes |
| Whitespace.TrimNoBlank | spotless-maven-plugin/src/main/java/com/diffplug/spotless/maven/SpotlessMojo.java:111 | after trimming, no space or tab is directly followed by a newline |
| Whitespace.TrimShortens | spotless-maven-plugin/src/main/java/com/diffplug/spotless/maven/SpotlessMojo.java:111 | trimming never lengthens the text |
| Whitespace.TrimNoCr | spotless-maven-plugin/src/main/java/com/diffplug/spotless/maven/SpotlessMojo.java:111 | trimming adds no CR to a text that has none |
| Whitespace.TrimKeeps | spotless-maven-plugin/src/main/java/com/diffplug/spotless/maven/SpotlessMojo.java:111 | text with no blank before a newline passes through the trimming pass unchanged |
| Whitespace.CollapseSpec | spotless-maven-plugin/src/main/java/com/diffplug/spotless/maven/SpotlessMojo.java:112 | after collapsing there are no three newlines in a row; the text is no longer, and gains no CR or blank before a newline |
| Whitespace.CollapseNewlines | spotless-maven-plugin/src/main/java/com/diffplug/spotless/maven/SpotlessMojo.java:112 | definition, no contract of its own: a run of three or more newlines becomes two; `CollapseSpec`, `CollapseKeeps` and `CollapseExample` state what it computes |
| Whitespace.CollapseKeeps | spotless-maven-plugin/src/main/java/com/diffplug/spotless/maven/SpotlessMojo.java:112 | text without three newlines in a row passes through the collapsing pass unchanged |
| Whitespace.NormalizeSpec | spotless-maven-plugin/src/main/java/com/diffplug/spotless/maven/SpotlessMojo.java:106-113 | the result has no CR, no blank before a newline and no three newlines in a row, and is never longer than the input |
| Whitespace.NormalizeWhitespace | spotless-maven-plugin/src/main/java/com/diffplug/spotless/maven/SpotlessMojo.java:106-113 | definition, no contract of its own: the four passes in source order; `NormalizeSpec`, `NormalizeKeeps` and `NormalizeIdempotent` state what it computes |
| Whitespace.NormalizeKeeps | spotless-maven-plugin/src/main/java/com/diffplug/spotless/maven/SpotlessMojo.java:106-113 | a file already in that form is returned as it is, so it is not rewritten |
| Whitespace.NormalizeIdempotent | spotless-maven-plugin/src/main/java/com/diffplug/spotless/maven/SpotlessMojo.java:106-113 | normalising twice gives the same text as normalising once |
| Whitespace.LineEndingsExample | spotless-maven-plugin/src/main/java/com/diffplug/spotless/maven/SpotlessMojo.java:109-110 | "a\r\n\rb" becomes "a\n\nb": a CRLF and a lone CR each end one line |
| Whitespace.TrimExample | spotless-maven-plugin/src/main/java/com/diffplug/spotless/maven/SpotlessMojo.java:111 | blanks before a newline go; blanks at the end without a final newline stay |
| Whitespace.CollapseExample | spotless-maven-plugin/src/main/java/com/diffplug/spotless/maven/SpotlessMojo.java:112 | four newlines, three empty lines, leave one empty line |
| LineTrim.LineLength | spotless-maven-plugin/src/main/java/com/diffplug/spotless/maven/SpotlessMojo.java:111 | the first line of a text: no newline before the returned position, and a newline at it unless it is the end of the text |
| LineTrim.StripTrailing | spotless-maven-plugin/src/main/java/com/diffplug/spotless/maven/SpotlessMojo.java:111 | definition, no contract of its own: a line without its trailing spaces and tabs; `StripTrailingSpec` states what it computes |
| LineTrim.StripTrailingSpec | spotless-maven-plugin/src/main/java/com/diffplug/spotless/maven/SpotlessMojo.java:111 | stripping removes a suffix made only of spaces and tabs, and the kept part is empty or ends in a character that is not blank |
| LineTrim.TrimLines | spotless-maven-plugin/src/main/java/com/diffplug/spotless/maven/SpotlessMojo.java:111 | definition, no contract of its own: the text split at its newlines, every line a newline ends stripped of its trailing blanks, the last line kept as it is |
| LineTrim.TrimNoNewline | spotless-maven-plugin/src/main/java/com/diffplug/spotless/maven/SpotlessMojo.java:111 | a text without a newline passes through the trimming pass unchanged, trailing blanks included |
| LineTrim.TrimFirstLine | spotless-maven-plugin/src/main/java/com/diffplug/spotless/maven/SpotlessMojo.java:111 | the first line of a text loses exactly its trailing blanks, and the rest is trimmed on its own |
| LineTrim.TrimUnfoldNewline | spotless-maven-plugin/src/main/java/com/diffplug/spotless/maven/SpotlessMojo.java:111 | a run of blanks that a newline ends is dropped, and the newline kept |
| LineTrim.TrimUnfoldText | spotless-maven-plugin/src/main/java/com/diffplug/spotless/maven/SpotlessMojo.java:111 | a run of blanks that a non-newline character ends is kept, and the scan goes on from that character |
| LineTrim.TrimIsTrimLines | spotless-maven-plugin/src/main/java/com/diffplug/spotless/maven/SpotlessMojo.java:111 | the regex pass equals the line-by-line trimming for every text: blanks go exactly where a newline follows them, and everything else, trailing blanks of the last line included, is kept |

## Left out

- Logging (all slf4j calls), the getters, and setters other than `setTargetOrder`: they have no effect on the clusters.
- `CognutClusteringFactory.getAvailableStrategies`: it only builds a description string.
- `SpotlessMojo.execute` and `processDirectory`: filesystem walking and file reads and writes. Only `normalizeWhitespace` is modelled.
- `calculateHexadicPosition` and the `branchIndex` of `createHexadicSubBranch`: their results are never used, so acceptance and placement do not depend on them. The topology matrix computed in `isValidVertexPosition` is modelled (`HeptavertexTopology`) but likewise never used.
- `AbstractClusterer`, `Cluster.updateCentroid`, the distance implementations and the feature values' `hashCode` are not part of this model. They are uninterpreted parameters, or a hash stored in the feature.
- Floating point: doubles are reals, so rounding, NaN and infinities are not modelled. `Math.pow(v, 2.5)` and `size^(1/fractalDimension)` are uninterpreted. The golden-ratio split is exact rational arithmetic on the literal 1.618033988749.
- Hexadic.Depth: models `Math.ceil(Math.log(size) / Math.log(6))` as the exact ceiling of log base 6. A quotient that floating point rounds just above an integer at an exact power of 6 (such as 36) would give one more.
- Undecadic.UndecadicHash: the `hash += hashCode * Math.pow(11, i % 3)` step is an exact product of integers, narrowed with saturation. The double rounding of sums above 2^53 is not modelled.
- Sorting.StrLeTotal: names are compared character by character as Dafny characters (Unicode scalar values), not as UTF-16 code units. The two orders differ only for characters outside the Basic Multilingual Plane.
- Hexadic.HexadicVicenaryTreeClustering.DoCluster: the `HashMap` iteration order depends on the bucket layout. It is modelled as an arbitrary order of the keys, each key once, returned as a ghost out-parameter, so the order of the result clusters is stated relative to that order.
- BSeries.BSeriesFoundationClustering.DoCluster: the cluster map's keys are 0, 1, 2, … in creation order, and iterating a `HashMap` with such keys yields them in key order while every key is below 2^16, where `Integer.hashCode` is not scrambled by the hash spreading. The model takes creation order throughout, so the order of the result beyond 65536 clusters is not modelled.
- Undecadic.RotateTopology: requires a non-negative rotation. The source only calls it with `variant % 7` of a non-negative size, and a negative rotation would index outside the array.
- Hexadic.RouteAllSmall and Hexadic.GatheredAll: because no branch exceeds 6 members, `optimizeVicenaryStructure` never reorders one in `doCluster`. The reordering is still modelled and proved for clusters of any size (`OptimizedSpec`).
- Triadic.SymmetricDistanceKeepsOrder: distance symmetry is an assumption of that lemma only. No other member relies on metric properties of `dist`.
- BSeries.Without: `Instance.equals` is not part of this model and is taken to be reference identity. The temporary cluster of `calculateBSeriesValueForInstance` (BSeriesFoundationClustering.java:287) drops only the members that are the same object as the instance. An `equals` that matched other instances too would drop those as well.
- Triadic.Influence and Triadic.Simplified: under the same assumption, the influence loop of `calculateSimplifiedOrder5` (BSeriesOrder5TriadicClustering.java:155) skips only the members that are the same object as one of the two instances.
- Triadic.BSeriesOrder5TriadicClustering.DoCluster: without the triadic cap, the seeds must be distinct objects. A seed listed twice would enter the merge queue twice (BSeriesOrder5TriadicClustering.java:290-296). If both copies were merged (java:305-307), the loop would iterate over a cluster's members while adding to that same cluster. That self-merge is not modelled. Under the cap the seeds are only copied, and any seed list is accepted.
