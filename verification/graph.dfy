/**
 * `RenderGraph` (core/graph/graph.rs): render nodes by name, and a depth-first topological
 * sort that marks a node visited before following its dependencies, so it ends even on a
 * cycle. The sort follows each node's dependency list, which node.rs keeps as `after`.
 */
module RenderGraphs {
  import opened Wrappers
  import opened Seqs
  import opened GraphNodes

  /**
   * Every dependency present in the graph ranks strictly below its dependent. A finite
   * graph has such a ranking exactly when its dependencies form no cycle.
   */
  ghost predicate RankedBy(nodes: map<string, GraphNode>, rank: map<string, nat>) {
    nodes.Keys <= rank.Keys
    && forall n, d :: n in nodes && d in nodes[n].after && d in nodes ==> rank[d] < rank[n]
  }

  ghost predicate Acyclic(nodes: map<string, GraphNode>) {
    exists rank :: RankedBy(nodes, rank)
  }

  /** Every listed node comes after each of its dependencies that is in the graph. */
  ghost predicate DepsFirst(nodes: map<string, GraphNode>, sorted: seq<string>) {
    forall i, d :: 0 <= i < |sorted| && sorted[i] in nodes && d in nodes[sorted[i]].after && d in nodes ==> d in sorted[..i]
  }

  /** Two nodes that depend on each other make the graph cyclic. */
  lemma MutualDependencyIsCycle(nodes: map<string, GraphNode>, a: string, b: string)
    requires a in nodes && b in nodes && b in nodes[a].after && a in nodes[b].after
    ensures !Acyclic(nodes)
  {
    forall rank | RankedBy(nodes, rank) ensures false {
    }
  }

  /** Appending a node whose present dependencies are all listed keeps the order. */
  lemma DepsFirstAppend(nodes: map<string, GraphNode>, sorted: seq<string>, name: string)
    requires DepsFirst(nodes, sorted) && name in nodes
    requires forall d :: d in nodes[name].after && d in nodes ==> d in sorted
    ensures DepsFirst(nodes, sorted + [name])
  {
    var s := sorted + [name];
    forall i, d | 0 <= i < |s| && s[i] in nodes && d in nodes[s[i]].after && d in nodes
      ensures d in s[..i]
    {
      if i < |sorted| {
        assert s[..i] == sorted[..i];
      } else {
        assert s[..i] == sorted;
      }
    }
  }

  /**
   * `after` is `before` followed by new entries, which are exactly the names marked
   * between `marked` and `marked'`.
   */
  ghost predicate Extends(before: seq<string>, after: seq<string>, marked: set<string>, marked': set<string>) {
    |before| <= |after| && after[..|before|] == before
    && forall x :: x in after[|before|..] <==> x in marked' && x !in marked
  }

  lemma ExtendsTrans(s1: seq<string>, s2: seq<string>, s3: seq<string>, v1: set<string>, v2: set<string>, v3: set<string>)
    requires Extends(s1, s2, v1, v2) && Extends(s2, s3, v2, v3) && v1 <= v2 <= v3
    ensures Extends(s1, s3, v1, v3)
  {
    assert s3[..|s1|] == s3[..|s2|][..|s1|];
    assert s3[|s1|..] == s2[|s1|..] + s3[|s2|..];
  }

  lemma ExtendsAppend(s1: seq<string>, s2: seq<string>, v1: set<string>, v2: set<string>, name: string)
    requires Extends(s1, s2, v1 + {name}, v2) && name !in v1 && name in v2
    ensures Extends(s1, s2 + [name], v1, v2)
  {
    assert (s2 + [name])[..|s1|] == s2[..|s1|];
    assert (s2 + [name])[|s1|..] == s2[|s1|..] + [name];
  }

  /** An extension keeps every earlier entry, and leaves the marked-but-unlisted names as they were. */
  lemma ExtendsKeeps(s1: seq<string>, s2: seq<string>, v1: set<string>, v2: set<string>)
    requires Extends(s1, s2, v1, v2) && v1 <= v2
    ensures forall x :: x in s1 ==> x in s2
    ensures forall g :: g in v2 && g !in s2 ==> g in v1 && g !in s1
  {
    forall x | x in s1 ensures x in s2 {
      var k :| 0 <= k < |s1| && s1[k] == x;
      assert s2[k] == x;
    }
    forall g | g in v2 && g !in s2 ensures g in v1 {
    }
  }

  /** Marking a name that was unmarked leaves fewer unmarked names. */
  lemma FewerUnmarked(keys: set<string>, v1: set<string>, v2: set<string>, name: string)
    requires name in keys && name !in v1 && v1 + {name} <= v2
    ensures |keys - v2| < |keys - v1|
  {
    var a := keys - v2;
    var b := keys - v1;
    assert a < b by { assert name in b - a; }
    assert b == a + (b - a);
    assert |b| == |a| + |b - a|;
    assert name in b - a;
  }

  /**
   * What the loop over a node's dependencies has done since it started from `sorted` and
   * `visited`: it marked more names, appended exactly those, and kept the list in order.
   */
  ghost predicate Progress(nodes: map<string, GraphNode>, sorted: seq<string>, visited: set<string>,
                           sorted': seq<string>, visited': set<string>, ranked: bool) {
    visited <= visited' <= nodes.Keys && Extends(sorted, sorted', visited, visited')
    && Distinct(sorted') && (forall x :: x in sorted' ==> x in visited')
    && (ranked ==> DepsFirst(nodes, sorted'))
  }

  lemma ProgressRefl(nodes: map<string, GraphNode>, sorted: seq<string>, visited: set<string>, ranked: bool)
    requires visited <= nodes.Keys && Distinct(sorted) && (forall x :: x in sorted ==> x in visited)
    requires ranked ==> DepsFirst(nodes, sorted)
    ensures Progress(nodes, sorted, visited, sorted, visited, ranked)
  {
    assert sorted[|sorted|..] == [];
  }

  /** The nodes marked but not listed during the loop are the ones that were so before it. */
  lemma ProgressPath(nodes: map<string, GraphNode>, rank: map<string, nat>, name: string,
                     sorted: seq<string>, visited: set<string>, sorted': seq<string>, visited': set<string>, ranked: bool)
    requires Progress(nodes, sorted, visited, sorted', visited', ranked) && name in nodes
    requires ranked ==> RankedBy(nodes, rank) && forall g :: g in visited && g !in sorted ==> rank[g] >= rank[name]
    ensures ranked ==> forall g :: g in visited' && g !in sorted' ==> rank[g] >= rank[name]
  {
    ExtendsKeeps(sorted, sorted', visited, visited');
  }

  /** One step of the loop extends its progress by what the step appended. */
  lemma LoopStep(nodes: map<string, GraphNode>, deps: seq<string>, i: nat,
                 sorted: seq<string>, visited: set<string>, s0: seq<string>, v0: set<string>,
                 s1: seq<string>, v1: set<string>, ranked: bool)
    requires i < |deps|
    requires Progress(nodes, sorted, visited, s0, v0, ranked) && Progress(nodes, s0, v0, s1, v1, ranked)
    requires ranked ==> forall j :: 0 <= j < i && deps[j] in nodes ==> deps[j] in s0
    requires ranked && deps[i] in nodes ==> deps[i] in s1
    ensures Progress(nodes, sorted, visited, s1, v1, ranked)
    ensures ranked ==> forall j :: 0 <= j < i + 1 && deps[j] in nodes ==> deps[j] in s1
  {
    ExtendsKeeps(s0, s1, v0, v1);
    ExtendsTrans(sorted, s0, s1, visited, v0, v1);
  }

  /** Marking more names leaves no more unmarked names. */
  lemma SubsetUnmarked(keys: set<string>, v1: set<string>, v2: set<string>)
    requires v1 <= v2
    ensures |keys - v2| <= |keys - v1|
  {
    var a := keys - v2;
    var b := keys - v1;
    assert b == a + (b - a);
    assert |b| == |a| + |b - a|;
  }

  class RenderGraph {
    var nodes: map<string, GraphNode>

    /** Every node is filed under its own name. */
    ghost predicate Valid()
      reads this
    {
      forall k :: k in nodes ==> nodes[k].name == k
    }

    /** `new`: no nodes. */
    constructor ()
      ensures Valid() && nodes == map[]
    {
      nodes := map[];
    }

    /** `add`: files the node under its name, replacing a node of the same name. */
    method Add(node: GraphNode)
      requires Valid()
      modifies this
      ensures Valid() && nodes == old(nodes)[node.name := node]
      ensures Get(node.name) == Some(node)
    {
      nodes := nodes[node.name := node];
    }

    /** `get` (and `get_mut`, which finds the same node). */
    function Get(name: string): (r: Option<GraphNode>)
      reads this
      ensures r.Some? <==> name in nodes
      ensures r.Some? ==> r.value == nodes[name]
    {
      Lookup(nodes, name)
    }

    /** `remove`: hands back the node, after which the name finds nothing. */
    method Remove(name: string) returns (r: Option<GraphNode>)
      requires Valid()
      modifies this
      ensures Valid() && r == old(Get(name)) && nodes == old(nodes) - {name} && Get(name) == None
    {
      r := Get(name);
      nodes := nodes - {name};
    }

    /**
     * `visit`: a node already visited is skipped; otherwise it is marked, its dependencies
     * that exist are visited in list order, and it is appended after them. The nodes
     * appended are exactly the ones newly marked. On a ranked graph the node ends up
     * listed, after its dependencies, provided every node marked but not yet listed (the
     * nodes on the current path) ranks above it.
     */
    method Visit(name: string, visited: set<string>, sorted: seq<string>,
                 ghost rank: map<string, nat>, ghost ranked: bool)
      returns (visited': set<string>, sorted': seq<string>)
      requires name in nodes && visited <= nodes.Keys
      requires Distinct(sorted) && forall x :: x in sorted ==> x in visited
      requires ranked ==> RankedBy(nodes, rank) && DepsFirst(nodes, sorted)
      requires ranked ==> forall g :: g in visited && g !in sorted ==> rank[g] > rank[name]
      decreases |nodes.Keys - visited|, 2
      ensures visited <= visited' <= nodes.Keys && name in visited'
      ensures Extends(sorted, sorted', visited, visited')
      ensures Distinct(sorted') && forall x :: x in sorted' ==> x in visited'
      ensures ranked ==> DepsFirst(nodes, sorted') && name in sorted'
    {
      if name in visited {
        return visited, sorted;
      }
      FewerUnmarked(nodes.Keys, visited, visited + {name}, name);
      visited', sorted' := VisitDependencies(name, visited + {name}, sorted, rank, ranked);
      if ranked {
        DepsFirstAppend(nodes, sorted', name);
      }
      DistinctAppend(sorted', name);
      ExtendsAppend(sorted, sorted', visited, visited', name);
      sorted' := sorted' + [name];
    }

    /** The loop of `visit` over the dependencies of `name`, which is already marked. */
    method VisitDependencies(name: string, visited: set<string>, sorted: seq<string>,
                             ghost rank: map<string, nat>, ghost ranked: bool)
      returns (visited': set<string>, sorted': seq<string>)
      requires name in nodes && name in visited && visited <= nodes.Keys
      requires Distinct(sorted) && forall x :: x in sorted ==> x in visited
      requires ranked ==> RankedBy(nodes, rank) && DepsFirst(nodes, sorted)
      requires ranked ==> forall g :: g in visited && g !in sorted ==> rank[g] >= rank[name]
      decreases |nodes.Keys - visited| + 1, 1
      ensures Progress(nodes, sorted, visited, sorted', visited', ranked)
      ensures ranked ==> forall d :: d in nodes[name].after && d in nodes ==> d in sorted'
    {
      visited' := visited;
      sorted' := sorted;
      var deps := nodes[name].after;
      var i := 0;
      ProgressRefl(nodes, sorted, visited, ranked);
      while i < |deps|
        invariant i <= |deps|
        invariant Progress(nodes, sorted, visited, sorted', visited', ranked)
        invariant ranked ==> forall j :: 0 <= j < i && deps[j] in nodes ==> deps[j] in sorted'
      {
        SubsetUnmarked(nodes.Keys, visited, visited');
        ProgressPath(nodes, rank, name, sorted, visited, sorted', visited', ranked);
        ghost var v0, s0 := visited', sorted';
        visited', sorted' := VisitDependency(name, deps[i], visited', sorted', rank, ranked);
        LoopStep(nodes, deps, i, sorted, visited, s0, v0, sorted', visited', ranked);
        i := i + 1;
      }
    }

    /** One step of that loop: a dependency in the graph is visited, any other is skipped. */
    method VisitDependency(name: string, dep: string, visited: set<string>, sorted: seq<string>,
                           ghost rank: map<string, nat>, ghost ranked: bool)
      returns (visited': set<string>, sorted': seq<string>)
      requires name in nodes && dep in nodes[name].after && visited <= nodes.Keys
      requires Distinct(sorted) && forall x :: x in sorted ==> x in visited
      requires ranked ==> RankedBy(nodes, rank) && DepsFirst(nodes, sorted)
      requires ranked ==> forall g :: g in visited && g !in sorted ==> rank[g] >= rank[name]
      decreases |nodes.Keys - visited| + 1, 0
      ensures Progress(nodes, sorted, visited, sorted', visited', ranked)
      ensures ranked && dep in nodes ==> dep in sorted'
    {
      if dep in nodes {
        if ranked {
          assert forall g :: g in visited && g !in sorted ==> rank[g] > rank[dep];
        }
        visited', sorted' := Visit(dep, visited, sorted, rank, ranked);
      } else {
        visited', sorted' := visited, sorted;
        ProgressRefl(nodes, sorted, visited, ranked);
      }
    }

    /**
     * `topological_sort_mut`, returning node names: `order` is the order in which the hash
     * map hands out its nodes. Every node is listed exactly once, and when the
     * dependencies form no cycle each node comes after every dependency in the graph.
     */
    method TopologicalSort(order: seq<string>) returns (sorted: seq<string>)
      requires Valid() && forall n :: n in order <==> n in nodes
      ensures Distinct(sorted) && forall n :: n in sorted <==> n in nodes
      ensures Acyclic(nodes) ==> DepsFirst(nodes, sorted)
    {
      ghost var ranked := Acyclic(nodes);
      ghost var rank: map<string, nat> := map[];
      if ranked {
        rank :| RankedBy(nodes, rank);
      }
      var visited: set<string> := {};
      sorted := [];
      var i := 0;
      while i < |order|
        invariant i <= |order| && visited <= nodes.Keys
        invariant forall x :: x in sorted <==> x in visited
        invariant forall j :: 0 <= j < i ==> order[j] in visited
        invariant Distinct(sorted)
        invariant ranked ==> DepsFirst(nodes, sorted)
      {
        ghost var v0, s0 := visited, sorted;
        visited, sorted := Visit(order[i], visited, sorted, rank, ranked);
        ExtendsKeeps(s0, sorted, v0, visited);
        forall x | x in visited ensures x in sorted {
          if x !in v0 {
            assert x in sorted[|s0|..];
          }
        }
        i := i + 1;
      }
    }
  }
}
