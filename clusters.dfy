/**
 * The collaborators every clustering strategy works with: instances and their
 * features, clusters as mutable member lists, and the distance functions,
 * which stay uninterpreted and reach the strategies as parameters.
 */
module Clusters {
  import opened Wrappers
  import opened JavaInt

  /**
   * A named feature; `valueHash` is the `hashCode()` of its value, or `None`
   * when the value is null.
   */
  datatype Feature = Feature(name: string, valueHash: Option<Int32>)

  /**
   * An instance of a data set. It is a reference type, so two instances are
   * equal exactly when they are the same object. The model assumes that
   * `Instance.equals` is this identity; the `Instance` class is not part of
   * this model.
   * `features` is the collection `getFeatures()` enumerates, in its order.
   */
  class Instance {
    const id: string
    const features: seq<Feature>

    constructor (id: string, features: seq<Feature>)
      ensures this.id == id && this.features == features
    {
      this.id := id;
      this.features := features;
    }
  }

  /** `distance(a, b)` between two instances. */
  type Distance = (Instance, Instance) -> real

  /** `distance(x, c)` between an instance and a cluster, given the cluster's members. */
  type ClusterDistance = (Instance, seq<Instance>) -> real

  /** A cluster: an ordered list of member instances. */
  class Cluster {
    var members: seq<Instance>

    constructor ()
      ensures members == []
    {
      members := [];
    }

    function Size(): (n: nat)
      reads this
      ensures n == |members|
    {
      |members|
    }

    method Add(x: Instance)
      modifies this
      ensures members == old(members) + [x]
    {
      members := members + [x];
    }

    method Reset()
      modifies this
      ensures members == []
    {
      members := [];
    }
  }

  /** A fresh cluster holding `ms` in order, built by repeated `add`. */
  method NewClusterOf(ms: seq<Instance>) returns (c: Cluster)
    ensures fresh(c) && c.members == ms
  {
    c := new Cluster();
    for i := 0 to |ms|
      invariant c.members == ms[..i]
    {
      c.Add(ms[i]);
    }
  }

  /** Empties `c` and adds `ms` back in order, the `reset` then re-add rebuild. */
  method Rebuild(c: Cluster, ms: seq<Instance>)
    modifies c
    ensures c.members == ms
  {
    c.Reset();
    for i := 0 to |ms|
      invariant c.members == ms[..i]
    {
      c.Add(ms[i]);
    }
  }

  /** The member lists of a sequence of clusters. */
  function MembersOf(cs: seq<Cluster>): (ms: seq<seq<Instance>>)
    reads cs
    ensures |ms| == |cs| && forall i | 0 <= i < |cs| :: ms[i] == cs[i].members
  {
    if cs == [] then [] else MembersOf(cs[..|cs| - 1]) + [cs[|cs| - 1].members]
  }

  /** The clusters `cs` hold the member lists `ps`, one by one. */
  predicate Holds(cs: seq<Cluster>, ps: seq<seq<Instance>>)
    reads cs
  {
    |cs| == |ps| && forall j | 0 <= j < |cs| :: cs[j].members == ps[j]
  }

  lemma HoldsSnoc(cs: seq<Cluster>, ps: seq<seq<Instance>>, c: Cluster, p: seq<Instance>)
    requires Holds(cs, ps) && c.members == p
    ensures Holds(cs + [c], ps + [p])
  {
  }

  lemma HoldsMembersOf(cs: seq<Cluster>, ps: seq<seq<Instance>>)
    requires Holds(cs, ps)
    ensures MembersOf(cs) == ps
  {
  }

  lemma HoldsAppend(a: seq<Cluster>, pa: seq<seq<Instance>>, b: seq<Cluster>, pb: seq<seq<Instance>>)
    requires Holds(a, pa) && Holds(b, pb)
    ensures Holds(a + b, pa + pb)
  {
  }

  /** The seeds followed by the clusters one run has built. */
  lemma SeedsThenBuilt(seeds: seq<Cluster>, built: seq<Cluster>)
    ensures (seeds + built)[..|seeds|] == seeds && (seeds + built)[|seeds|..] == built
    ensures forall i | |seeds| <= i < |seeds + built| :: (seeds + built)[i] == built[i - |seeds|]
  {
  }

  /** `ps` with `x` appended to the list at index `k`. */
  function AddTo(ps: seq<seq<Instance>>, k: nat, x: Instance): (r: seq<seq<Instance>>)
    requires k < |ps|
    ensures |r| == |ps| && r[k] == ps[k] + [x]
    ensures forall j | 0 <= j < |ps| && j != k :: r[j] == ps[j]
  {
    ps[k := ps[k] + [x]]
  }

  /** No cluster occurs twice. */
  predicate Distinct(cs: seq<Cluster>)
  {
    forall i, j | 0 <= i < j < |cs| :: cs[i] != cs[j]
  }

  lemma DistinctSnoc(cs: seq<Cluster>, c: Cluster)
    requires Distinct(cs) && c !in cs
    ensures Distinct(cs + [c])
  {
  }

  lemma DistinctAppend(a: seq<Cluster>, b: seq<Cluster>)
    requires Distinct(a) && Distinct(b) && forall j | 0 <= j < |b| :: b[j] !in a
    ensures Distinct(a + b)
  {
  }

  /** The concatenation of a sequence of lists, in order. */
  function Flatten<T>(ps: seq<seq<T>>): (r: seq<T>)
    ensures |ps| == 1 ==> r == ps[0]
  {
    if ps == [] then [] else ps[0] + Flatten(ps[1..])
  }

  lemma {:induction false} FlattenAppend<T>(a: seq<seq<T>>, b: seq<seq<T>>)
    ensures Flatten(a + b) == Flatten(a) + Flatten(b)
  {
    if a == [] {
      assert a + b == b;
    } else {
      assert (a + b)[1..] == a[1..] + b;
      FlattenAppend(a[1..], b);
    }
  }

  lemma MultisetSnoc<T>(s: seq<T>)
    requires s != []
    ensures multiset(s) == multiset(s[..|s| - 1]) + multiset{s[|s| - 1]}
  {
    assert s == s[..|s| - 1] + [s[|s| - 1]];
  }

  /** The non-empty lists of `ps`, in order. */
  function NonEmpty<T>(ps: seq<seq<T>>): (r: seq<seq<T>>)
    ensures |r| <= |ps|
    ensures forall p | p in r :: p != [] && p in ps
  {
    if ps == [] then []
    else if ps[|ps| - 1] == [] then NonEmpty(ps[..|ps| - 1])
    else NonEmpty(ps[..|ps| - 1]) + [ps[|ps| - 1]]
  }

  lemma NonEmptyPrefix<T>(ps: seq<seq<T>>, i: nat)
    requires i < |ps|
    ensures NonEmpty(ps[..i + 1]) == if ps[i] == [] then NonEmpty(ps[..i]) else NonEmpty(ps[..i]) + [ps[i]]
  {
    assert ps[..i + 1][..i] == ps[..i];
  }

  /** Dropping empty lists loses no element. */
  lemma {:induction false} FlattenNonEmpty<T>(ps: seq<seq<T>>)
    ensures Flatten(NonEmpty(ps)) == Flatten(ps)
  {
    if ps != [] {
      var init, last := ps[..|ps| - 1], ps[|ps| - 1];
      assert ps == init + [last];
      FlattenNonEmpty(init);
      FlattenAppend(init, [last]);
      if last != [] {
        FlattenAppend(NonEmpty(init), [last]);
      }
    }
  }

  /** The multiset of all members of a sequence of member lists. */
  function AllMembers(ps: seq<seq<Instance>>): multiset<Instance>
  {
    if ps == [] then multiset{} else AllMembers(ps[..|ps| - 1]) + multiset(ps[|ps| - 1])
  }

  lemma {:induction false} AllMembersFlatten(ps: seq<seq<Instance>>)
    ensures AllMembers(ps) == multiset(Flatten(ps))
  {
    if ps != [] {
      var init, last := ps[..|ps| - 1], ps[|ps| - 1];
      assert ps == init + [last];
      AllMembersFlatten(init);
      FlattenAppend(init, [last]);
    }
  }

  lemma {:induction false} AllMembersAppend(a: seq<seq<Instance>>, b: seq<seq<Instance>>)
    ensures AllMembers(a + b) == AllMembers(a) + AllMembers(b)
    decreases |b|
  {
    if b == [] {
      assert a + b == a;
    } else {
      var init := b[..|b| - 1];
      assert (a + b)[..|a + b| - 1] == a + init;
      AllMembersAppend(a, init);
    }
  }

  /** Appending `x` to the list at index `k` adds exactly one `x`. */
  lemma AllMembersSplit(ps: seq<seq<Instance>>, k: nat)
    requires k < |ps|
    ensures AllMembers(ps) == AllMembers(ps[..k]) + multiset(ps[k]) + AllMembers(ps[k + 1..])
  {
    var front, rest := ps[..k + 1], ps[k + 1..];
    assert front + rest == ps;
    AllMembersAppend(front, rest);
    assert front[..k] == ps[..k] && front[k] == ps[k];
  }

  lemma AllMembersUpdate(ps: seq<seq<Instance>>, k: nat, x: Instance)
    requires k < |ps|
    ensures AllMembers(AddTo(ps, k, x)) == AllMembers(ps) + multiset{x}
  {
    var qs := AddTo(ps, k, x);
    AllMembersSplit(ps, k);
    AllMembersSplit(qs, k);
    assert qs[..k] == ps[..k] && qs[k + 1..] == ps[k + 1..];
  }

  lemma {:induction false} AllMembersOfEmpties(ps: seq<seq<Instance>>)
    requires forall i | 0 <= i < |ps| :: ps[i] == []
    ensures AllMembers(ps) == multiset{}
  {
    if ps != [] {
      AllMembersOfEmpties(ps[..|ps| - 1]);
    }
  }
}
