/**
 * `CognutClusteringFactory`: each `create*` method builds a fresh clusterer
 * with documented defaults, or forwards its arguments, and always passes
 * `penalizeMissingFeatures = false`. Java overloads get distinct names here.
 */
module Factory {
  import opened Fractal
  import opened Undecadic
  import opened Hexadic
  import opened BSeries
  import opened Triadic

  /** `createFractalClusterer()`: depth 4, dimension 2.0, threshold 0.5. */
  method CreateFractalClusterer() returns (c: UniversalFractalPartitionSchema)
    ensures fresh(c)
    ensures c.maxDepth == 4 && c.fractalDimension == 2.0 && c.partitionThreshold == 0.5
    ensures !c.penalizeMissingFeatures
  {
    c := new UniversalFractalPartitionSchema(4, 2.0, 0.5, false);
  }

  /** `createFractalClusterer(maxDepth, fractalDimension, partitionThreshold)`. */
  method CreateCustomFractalClusterer(maxDepth: int, fractalDimension: real, partitionThreshold: real)
    returns (c: UniversalFractalPartitionSchema)
    ensures fresh(c)
    ensures c.maxDepth == maxDepth && c.fractalDimension == fractalDimension
    ensures c.partitionThreshold == partitionThreshold && !c.penalizeMissingFeatures
  {
    c := new UniversalFractalPartitionSchema(maxDepth, fractalDimension, partitionThreshold, false);
  }

  /** `createUndecadicClusterer()`: threshold 0.5, topological sort on. */
  method CreateUndecadicClusterer() returns (c: UndecadicHeptavertexClustering)
    ensures fresh(c)
    ensures c.vertexThreshold == 0.5 && c.useTopologicalSort && !c.penalizeMissingFeatures
  {
    c := new UndecadicHeptavertexClustering(0.5, true, false);
  }

  /** `createUndecadicClusterer(vertexThreshold, useTopologicalSort)`. */
  method CreateCustomUndecadicClusterer(vertexThreshold: real, useTopologicalSort: bool)
    returns (c: UndecadicHeptavertexClustering)
    ensures fresh(c)
    ensures c.vertexThreshold == vertexThreshold && c.useTopologicalSort == useTopologicalSort
    ensures !c.penalizeMissingFeatures
  {
    c := new UndecadicHeptavertexClustering(vertexThreshold, useTopologicalSort, false);
  }

  /** `createHexadicVicenaryClusterer()`: depth 4, threshold 0.4, optimisation on. */
  method CreateHexadicVicenaryClusterer() returns (c: HexadicVicenaryTreeClustering)
    ensures fresh(c)
    ensures c.maxTreeDepth == 4 && c.branchingThreshold == 0.4 && c.enableVicenaryOptimization
    ensures !c.penalizeMissingFeatures
  {
    c := new HexadicVicenaryTreeClustering(4, 0.4, true, false);
  }

  /** `createHexadicVicenaryClusterer(maxTreeDepth, branchingThreshold, enableOptimization)`. */
  method CreateCustomHexadicVicenaryClusterer(maxTreeDepth: int, branchingThreshold: real, enableOptimization: bool)
    returns (c: HexadicVicenaryTreeClustering)
    ensures fresh(c)
    ensures c.maxTreeDepth == maxTreeDepth && c.branchingThreshold == branchingThreshold
    ensures c.enableVicenaryOptimization == enableOptimization && !c.penalizeMissingFeatures
  {
    c := new HexadicVicenaryTreeClustering(maxTreeDepth, branchingThreshold, enableOptimization, false);
  }

  /** `createBSeriesClusterer()`: order 2, threshold 0.3, complete expansion on. */
  method CreateBSeriesClusterer() returns (c: BSeriesFoundationClustering)
    ensures fresh(c) && c.Valid()
    ensures c.targetOrder == 2 && c.seriesThreshold == 0.3 && c.useCompleteExpansion
    ensures !c.penalizeMissingFeatures
  {
    c := new BSeriesFoundationClustering(2, 0.3, true, false);
  }

  /** `createBSeriesClusterer(order)`: the order goes through the constructor's clamp to 1 .. 4. */
  method CreateBSeriesClustererOfOrder(order: int) returns (c: BSeriesFoundationClustering)
    ensures fresh(c) && c.Valid()
    ensures c.targetOrder == Clamp(order)
    ensures 1 <= order <= MAX_ORDER ==> c.targetOrder == order
    ensures c.seriesThreshold == 0.3 && c.useCompleteExpansion && !c.penalizeMissingFeatures
  {
    c := new BSeriesFoundationClustering(order, 0.3, true, false);
  }

  /** `createBSeriesClusterer(targetOrder, seriesThreshold, useCompleteExpansion)`. */
  method CreateCustomBSeriesClusterer(targetOrder: int, seriesThreshold: real, useCompleteExpansion: bool)
    returns (c: BSeriesFoundationClustering)
    ensures fresh(c) && c.Valid()
    ensures c.targetOrder == Clamp(targetOrder) && c.seriesThreshold == seriesThreshold
    ensures c.useCompleteExpansion == useCompleteExpansion && !c.penalizeMissingFeatures
  {
    c := new BSeriesFoundationClustering(targetOrder, seriesThreshold, useCompleteExpansion, false);
  }

  /** `createTriadicClusterer()`: threshold 0.4, weight 1.0, triads not enforced. */
  method CreateTriadicClusterer() returns (c: BSeriesOrder5TriadicClustering)
    ensures fresh(c)
    ensures c.triadicThreshold == 0.4 && c.order5Weight == 1.0 && !c.enforceTriadicStructure
    ensures !c.penalizeMissingFeatures
  {
    c := new BSeriesOrder5TriadicClustering(0.4, 1.0, false, false);
  }

  /** `createStrictTriadicClusterer()`: threshold 0.3, weight 1.5, triads enforced. */
  method CreateStrictTriadicClusterer() returns (c: BSeriesOrder5TriadicClustering)
    ensures fresh(c)
    ensures c.triadicThreshold == 0.3 && c.order5Weight == 1.5 && c.enforceTriadicStructure
    ensures !c.penalizeMissingFeatures
  {
    c := new BSeriesOrder5TriadicClustering(0.3, 1.5, true, false);
  }

  /** `createTriadicClusterer(triadicThreshold, order5Weight, enforceTriadicStructure)`. */
  method CreateCustomTriadicClusterer(triadicThreshold: real, order5Weight: real, enforceTriadicStructure: bool)
    returns (c: BSeriesOrder5TriadicClustering)
    ensures fresh(c)
    ensures c.triadicThreshold == triadicThreshold && c.order5Weight == order5Weight
    ensures c.enforceTriadicStructure == enforceTriadicStructure && !c.penalizeMissingFeatures
  {
    c := new BSeriesOrder5TriadicClustering(triadicThreshold, order5Weight, enforceTriadicStructure, false);
  }
}
