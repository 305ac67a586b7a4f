/**
 * `compute_z_index_for_nodes` (ui/graph/compute.rs): the UI draw order. Each sibling list
 * is stably sorted by the node's own `z_index`, then the forest is walked depth first and
 * every node gets the current layer as its computed z-index (and as its text's metadata)
 * before the layer counter moves on and its children are numbered.
 */
module ZIndex {
  import opened Wrappers
  import opened Ids

  /**
   * A node of the temporary UI graph: its entity id, the `z_index` of its `Node`, the
   * computed z-index, the metadata of its text if it has one, and its children.
   */
  datatype TempNode = TempNode(id: EntityId, zIndex: int, computedZ: int, text: Option<nat>, children: seq<TempNode>)

  // ---- the stable sort `sort_by(z_index)` ----

  /** Sibling order by `z_index`. */
  ghost predicate SortedByZ(s: seq<TempNode>) {
    forall i, j :: 0 <= i < j < |s| ==> s[i].zIndex <= s[j].zIndex
  }

  /** The nodes of `s` whose `z_index` is `z`, in order. */
  function WithZ(s: seq<TempNode>, z: int): seq<TempNode> {
    if s == [] then [] else (if s[0].zIndex == z then [s[0]] else []) + WithZ(s[1..], z)
  }

  /** `x` placed after every leading node of `t` whose `z_index` is at most its own. */
  function InsertByZ(t: seq<TempNode>, x: TempNode): (r: seq<TempNode>)
    ensures |r| == |t| + 1
  {
    if t == [] || x.zIndex < t[0].zIndex then [x] + t else [t[0]] + InsertByZ(t[1..], x)
  }

  /** `sort_by(|a, b| a.node.z_index.cmp(&b.node.z_index))`, a stable sort: each node is inserted after those before it with the same `z_index`. */
  function SortByZ(s: seq<TempNode>): (r: seq<TempNode>)
    ensures |r| == |s|
  {
    if s == [] then [] else InsertByZ(SortByZ(s[..|s| - 1]), s[|s| - 1])
  }

  lemma {:induction false} InsertPermutes(t: seq<TempNode>, x: TempNode)
    ensures multiset(InsertByZ(t, x)) == multiset(t) + multiset{x}
  {
    if t != [] && x.zIndex >= t[0].zIndex {
      InsertPermutes(t[1..], x);
      assert t == [t[0]] + t[1..];
    }
  }

  /** Sorting only reorders: the result is a permutation of the input. */
  lemma {:induction false} SortPermutes(s: seq<TempNode>)
    ensures multiset(SortByZ(s)) == multiset(s)
  {
    if s != [] {
      SortPermutes(s[..|s| - 1]);
      InsertPermutes(SortByZ(s[..|s| - 1]), s[|s| - 1]);
      assert s == s[..|s| - 1] + [s[|s| - 1]];
    }
  }

  lemma SortMembers(s: seq<TempNode>)
    ensures forall i :: 0 <= i < |SortByZ(s)| ==> SortByZ(s)[i] in s
  {
    SortPermutes(s);
    forall i | 0 <= i < |SortByZ(s)| ensures SortByZ(s)[i] in s {
      assert SortByZ(s)[i] in multiset(SortByZ(s));
    }
  }

  lemma WithZAppend(a: seq<TempNode>, b: seq<TempNode>, z: int)
    ensures WithZ(a + b, z) == WithZ(a, z) + WithZ(b, z)
  {
    if a == [] {
      assert a + b == b;
    } else {
      var h := if a[0].zIndex == z then [a[0]] else [];
      assert (a + b)[0] == a[0] && (a + b)[1..] == a[1..] + b;
      WithZAppend(a[1..], b, z);
      assert WithZ(a + b, z) == h + WithZ(a[1..] + b, z);
      assert WithZ(a, z) == h + WithZ(a[1..], z);
    }
  }

  /** Every node of `InsertByZ(t, x)` has a `z_index` of at least `b` when those of `t` and `x` do. */
  lemma {:induction false} InsertAbove(t: seq<TempNode>, x: TempNode, b: int)
    requires x.zIndex >= b && forall i :: 0 <= i < |t| ==> t[i].zIndex >= b
    ensures forall i :: 0 <= i < |t| + 1 ==> InsertByZ(t, x)[i].zIndex >= b
  {
    if t != [] && x.zIndex >= t[0].zIndex {
      InsertAbove(t[1..], x, b);
    }
  }

  /** Inserting into a sorted list keeps it sorted. */
  lemma {:induction false} InsertSorted(t: seq<TempNode>, x: TempNode)
    requires SortedByZ(t)
    ensures SortedByZ(InsertByZ(t, x))
  {
    if t != [] && x.zIndex >= t[0].zIndex {
      InsertSorted(t[1..], x);
      InsertAbove(t[1..], x, t[0].zIndex);
    }
  }

  lemma {:induction false} NoneWithZ(t: seq<TempNode>, z: int)
    requires forall i :: 0 <= i < |t| ==> t[i].zIndex > z
    ensures WithZ(t, z) == []
  {
    if t != [] {
      NoneWithZ(t[1..], z);
    }
  }

  /** Inserting `x` adds it after the nodes of its own `z_index`: nodes with equal `z_index` keep their order. */
  lemma {:induction false} InsertStable(t: seq<TempNode>, x: TempNode, z: int)
    requires SortedByZ(t)
    ensures WithZ(InsertByZ(t, x), z) == WithZ(t, z) + WithZ([x], z)
  {
    if t == [] {
    } else if x.zIndex < t[0].zIndex {
      InsertFront(t, x, z);
    } else {
      InsertStable(t[1..], x, z);
      InsertPast(t, x, z);
    }
  }

  /** `x` goes in front of a sorted list whose first node has a larger `z_index`. */
  lemma InsertFront(t: seq<TempNode>, x: TempNode, z: int)
    requires SortedByZ(t) && t != [] && x.zIndex < t[0].zIndex
    ensures WithZ(InsertByZ(t, x), z) == WithZ(t, z) + WithZ([x], z)
  {
    assert InsertByZ(t, x) == [x] + t;
    WithZAppend([x], t, z);
    if x.zIndex == z {
      NoneWithZ(t, z);
    }
  }

  /** `x` moves past the first node of `t`. */
  lemma InsertPast(t: seq<TempNode>, x: TempNode, z: int)
    requires t != [] && x.zIndex >= t[0].zIndex
    requires WithZ(InsertByZ(t[1..], x), z) == WithZ(t[1..], z) + WithZ([x], z)
    ensures WithZ(InsertByZ(t, x), z) == WithZ(t, z) + WithZ([x], z)
  {
    var head := if t[0].zIndex == z then [t[0]] else [];
    var rest := InsertByZ(t[1..], x);
    assert InsertByZ(t, x) == [t[0]] + rest;
    assert ([t[0]] + rest)[1..] == rest;
    assert WithZ(InsertByZ(t, x), z) == head + WithZ(rest, z);
    assert WithZ(t, z) == head + WithZ(t[1..], z);
  }

  /** `SortByZ` sorts by `z_index` and keeps nodes of equal `z_index` in their original order. */
  lemma {:induction false} SortByZCorrect(s: seq<TempNode>)
    ensures SortedByZ(SortByZ(s))
    ensures forall z :: WithZ(SortByZ(s), z) == WithZ(s, z)
  {
    if s != [] {
      var init := s[..|s| - 1];
      SortByZCorrect(init);
      InsertSorted(SortByZ(init), s[|s| - 1]);
      forall z ensures WithZ(SortByZ(s), z) == WithZ(s, z) {
        InsertStable(SortByZ(init), s[|s| - 1], z);
        assert s == init + [s[|s| - 1]];
        WithZAppend(init, [s[|s| - 1]], z);
      }
    }
  }

  // ---- the depth-first numbering ----

  /** The computed z-indices of a forest in depth-first pre-order. */
  function Preorder(s: seq<TempNode>): seq<int>
    decreases s
  {
    if s == [] then [] else TreePreorder(s[0]) + Preorder(s[1..])
  }

  function TreePreorder(t: TempNode): seq<int>
    decreases t
  {
    [t.computedZ] + Preorder(t.children)
  }

  /** The number of nodes of a forest. */
  function Count(s: seq<TempNode>): nat {
    |Preorder(s)|
  }

  /** The consecutive layers `start, start + 1, …, start + n - 1`. */
  function Range(start: int, n: nat): (r: seq<int>)
    ensures |r| == n && forall i :: 0 <= i < n ==> r[i] == start + i
  {
    seq(n, i => start + i)
  }

  lemma {:induction false} PreorderAppend(a: seq<TempNode>, b: seq<TempNode>)
    ensures Preorder(a + b) == Preorder(a) + Preorder(b)
  {
    if a == [] {
      assert a + b == b;
    } else {
      assert (a + b)[0] == a[0] && (a + b)[1..] == a[1..] + b;
      PreorderAppend(a[1..], b);
      assert Preorder(a + b) == TreePreorder(a[0]) + Preorder(a[1..] + b);
      assert Preorder(a) == TreePreorder(a[0]) + Preorder(a[1..]);
    }
  }

  lemma PreorderSingle(t: TempNode)
    ensures Preorder([t]) == TreePreorder(t)
  {
    assert [t][1..] == [];
  }

  /** Inserting a tree among its siblings adds its nodes to the count. */
  lemma {:induction false} CountInsert(t: seq<TempNode>, x: TempNode)
    ensures Count(InsertByZ(t, x)) == Count(t) + |TreePreorder(x)|
  {
    if t == [] || x.zIndex < t[0].zIndex {
      PreorderAppend([x], t);
      PreorderSingle(x);
    } else {
      CountInsert(t[1..], x);
      PreorderAppend([t[0]], InsertByZ(t[1..], x));
      PreorderAppend([t[0]], t[1..]);
      PreorderSingle(t[0]);
      assert t == [t[0]] + t[1..];
    }
  }

  /** Sorting the roots of a forest does not change its node count. */
  lemma {:induction false} CountSort(s: seq<TempNode>)
    ensures Count(SortByZ(s)) == Count(s)
  {
    if s != [] {
      var init := s[..|s| - 1];
      CountSort(init);
      CountInsert(SortByZ(init), s[|s| - 1]);
      assert s == init + [s[|s| - 1]];
      PreorderAppend(init, [s[|s| - 1]]);
      PreorderSingle(s[|s| - 1]);
    }
  }

  lemma RangeConcat(a: int, n: nat, m: nat)
    ensures Range(a, n) + Range(a + n, m) == Range(a, n + m)
  {
  }

  /** A node and its numbered copy: same id, `z_index` and text presence, and children that are a sorted copy too. */
  ghost predicate NodeCopy(orig: TempNode, out: TempNode)
    decreases orig, 1
  {
    out.id == orig.id && out.zIndex == orig.zIndex && out.text.Some? == orig.text.Some?
    && SortedCopy(orig.children, out.children)
  }

  /** `out` is `orig` with every sibling list stably sorted by `z_index`, level by level. */
  ghost predicate SortedCopy(orig: seq<TempNode>, out: seq<TempNode>)
    decreases orig, 0
  {
    SortMembers(orig);
    var sorted := SortByZ(orig);
    |out| == |sorted| && forall i :: 0 <= i < |sorted| ==> NodeCopy(sorted[i], out[i])
  }

  /** A node's text, if any, carries its computed z-index as metadata, and so do its descendants'. */
  ghost predicate NodeTagged(t: TempNode)
    decreases t, 1
  {
    (t.text.Some? ==> t.text.value == t.computedZ) && TextTagged(t.children)
  }

  ghost predicate TextTagged(s: seq<TempNode>)
    decreases s, 0
  {
    forall i :: 0 <= i < |s| ==> NodeTagged(s[i])
  }

  /** One step of the numbering loop: appending a numbered tree continues the run of layers. */
  lemma NumberStep(done: seq<TempNode>, sorted: seq<TempNode>, i: nat, layer: int, numbered: TempNode, z: int)
    requires i < |sorted| && Preorder(done) == Range(layer, Count(sorted[..i])) && z == layer + Count(sorted[..i])
    requires numbered.computedZ == z && Preorder(numbered.children) == Range(z + 1, Count(sorted[i].children))
    ensures Preorder(done + [numbered]) == Range(layer, Count(sorted[..i + 1]))
    ensures Count(sorted[..i + 1]) == Count(sorted[..i]) + 1 + Count(sorted[i].children)
  {
    PreorderAppend(done, [numbered]);
    PreorderSingle(numbered);
    assert sorted[..i + 1] == sorted[..i] + [sorted[i]];
    PreorderAppend(sorted[..i], [sorted[i]]);
    PreorderSingle(sorted[i]);
    RangeConcat(layer, Count(sorted[..i]), 1);
    RangeConcat(layer, Count(sorted[..i]) + 1, Count(sorted[i].children));
  }

  /**
   * `compute_z_index_for_nodes`: returns the numbered forest and the advanced layer. The
   * forest is the input with each sibling list stably sorted, the layer has moved past one
   * value per node, and the computed z-indices in pre-order are exactly the layers used.
   */
  method ComputeZIndexForNodes(nodes: seq<TempNode>, layer: nat) returns (nodes': seq<TempNode>, layer': nat)
    ensures layer' == layer + Count(nodes)
    ensures Preorder(nodes') == Range(layer, Count(nodes))
    ensures SortedCopy(nodes, nodes') && TextTagged(nodes')
    decreases nodes
  {
    var sorted := SortByZ(nodes);
    CountSort(nodes);
    SortMembers(nodes);
    nodes', layer' := [], layer;
    for i := 0 to |sorted|
      invariant |nodes'| == i
      invariant layer' == layer + Count(sorted[..i])
      invariant Preorder(nodes') == Range(layer, Count(sorted[..i]))
      invariant forall k :: 0 <= k < i ==> NodeCopy(sorted[k], nodes'[k])
      invariant TextTagged(nodes')
    {
      var node := sorted[i];
      assert node in nodes;
      var z := layer';
      var text := if node.text.Some? then Some(z) else None;
      var children, l := ComputeZIndexForNodes(node.children, z + 1);
      var numbered := node.(computedZ := z, text := text, children := children);
      NumberStep(nodes', sorted, i, layer, numbered, z);
      CopyStep(nodes', sorted, i, numbered);
      nodes', layer' := nodes' + [numbered], l;
    }
    assert sorted[..|sorted|] == sorted;
    SortedCopyIntro(nodes, nodes');
  }

  lemma SortedCopyIntro(orig: seq<TempNode>, out: seq<TempNode>)
    requires |out| == |SortByZ(orig)| && forall k :: 0 <= k < |out| ==> NodeCopy(SortByZ(orig)[k], out[k])
    ensures SortedCopy(orig, out)
  {
  }

  /** One step of the numbering loop: the numbered tree is a tagged copy of the next sorted root. */
  lemma CopyStep(done: seq<TempNode>, sorted: seq<TempNode>, i: nat, numbered: TempNode)
    requires i < |sorted| && |done| == i && forall k :: 0 <= k < i ==> NodeCopy(sorted[k], done[k])
    requires numbered.id == sorted[i].id && numbered.zIndex == sorted[i].zIndex
    requires numbered.text == if sorted[i].text.Some? then Some(numbered.computedZ) else None
    requires SortedCopy(sorted[i].children, numbered.children) && TextTagged(numbered.children)
    requires TextTagged(done)
    ensures forall k :: 0 <= k < i + 1 ==> NodeCopy(sorted[k], (done + [numbered])[k])
    ensures TextTagged(done + [numbered])
  {
    assert NodeCopy(sorted[i], numbered);
    assert NodeTagged(numbered);
  }

  // ---- what the numbering gives ----

  /**
   * The draw order of a numbered forest: within every sibling list the computed z-indices
   * increase, and every node's computed z-index is below all of its descendants'.
   */
  ghost predicate Ordered(s: seq<TempNode>)
    decreases s, 0
  {
    (forall i, j :: 0 <= i < j < |s| ==> s[i].computedZ < s[j].computedZ)
    && forall i :: 0 <= i < |s| ==> NodeOrdered(s[i])
  }

  ghost predicate NodeOrdered(t: TempNode)
    decreases t, 1
  {
    (forall v :: v in Preorder(t.children) ==> t.computedZ < v) && Ordered(t.children)
  }

  /** Root `i` of a forest numbered by consecutive layers gets the block of layers right after its elder siblings'. */
  lemma RootBlock(s: seq<TempNode>, start: int, i: nat)
    requires i < |s| && Preorder(s) == Range(start, Count(s))
    ensures TreePreorder(s[i]) == Range(start + Count(s[..i]), |TreePreorder(s[i])|)
  {
    assert s == s[..i] + ([s[i]] + s[i + 1..]);
    PreorderAppend(s[..i], [s[i]] + s[i + 1..]);
    PreorderAppend([s[i]], s[i + 1..]);
    PreorderSingle(s[i]);
    var c := Count(s[..i]);
    forall k | 0 <= k < |TreePreorder(s[i])| ensures TreePreorder(s[i])[k] == start + c + k {
      assert TreePreorder(s[i])[k] == Preorder(s)[c + k];
    }
  }

  /** Elder siblings come first: the nodes before root `j` outnumber those before an elder root `i`. */
  lemma CountBefore(s: seq<TempNode>, i: nat, j: nat)
    requires i < j <= |s|
    ensures Count(s[..i]) < Count(s[..j])
  {
    assert s[..j] == s[..i] + ([s[i]] + s[i + 1..j]);
    PreorderAppend(s[..i], [s[i]] + s[i + 1..j]);
    PreorderAppend([s[i]], s[i + 1..j]);
    PreorderSingle(s[i]);
  }

  /** A forest numbered by consecutive layers in pre-order is in draw order. */
  lemma {:induction false} ConsecutiveIsOrdered(s: seq<TempNode>, start: int)
    requires Preorder(s) == Range(start, Count(s))
    ensures Ordered(s)
    decreases s
  {
    forall i | 0 <= i < |s| ensures NodeOrdered(s[i]) {
      RootBlock(s, start, i);
      var b := start + Count(s[..i]);
      var c := Preorder(s[i].children);
      assert c == Range(b + 1, |c|) by {
        forall k | 0 <= k < |c| ensures c[k] == b + 1 + k {
          assert c[k] == TreePreorder(s[i])[k + 1];
        }
      }
      assert s[i].computedZ == TreePreorder(s[i])[0] == b;
      forall v | v in c ensures s[i].computedZ < v {
        var k :| 0 <= k < |c| && c[k] == v;
      }
      ConsecutiveIsOrdered(s[i].children, b + 1);
    }
    forall i, j | 0 <= i < j < |s| ensures s[i].computedZ < s[j].computedZ {
      RootBlock(s, start, i);
      RootBlock(s, start, j);
      CountBefore(s, i, j);
      assert s[i].computedZ == TreePreorder(s[i])[0] && s[j].computedZ == TreePreorder(s[j])[0];
    }
  }

  /** The sibling lists of a forest are sorted by `z_index` at every level. */
  ghost predicate SiblingsSorted(s: seq<TempNode>)
    decreases s
  {
    SortedByZ(s) && forall i :: 0 <= i < |s| ==> SiblingsSorted(s[i].children)
  }

  lemma {:induction false} SortedCopySorted(orig: seq<TempNode>, out: seq<TempNode>)
    requires SortedCopy(orig, out)
    ensures SiblingsSorted(out)
    decreases orig
  {
    var sorted := SortByZ(orig);
    SortByZCorrect(orig);
    SortMembers(orig);
    forall i | 0 <= i < |out| ensures SiblingsSorted(out[i].children) {
      assert sorted[i] in orig;
      assert NodeCopy(sorted[i], out[i]);
      SortedCopySorted(sorted[i].children, out[i].children);
    }
  }

  /**
   * After numbering from any starting layer: the computed z-indices are distinct and fill
   * `[layer, layer + n)`, a parent is below all its descendants, siblings are sorted by
   * `z_index` at every level, and among siblings a smaller `z_index` gets a smaller
   * computed z-index.
   */
  lemma NumberingOrder(nodes: seq<TempNode>, layer: nat, nodes': seq<TempNode>)
    requires Preorder(nodes') == Range(layer, Count(nodes)) && SortedCopy(nodes, nodes')
    ensures forall i, j :: 0 <= i < j < |Preorder(nodes')| ==> Preorder(nodes')[i] != Preorder(nodes')[j]
    ensures forall v :: v in Preorder(nodes') <==> layer <= v < layer + Count(nodes)
    ensures Ordered(nodes') && SiblingsSorted(nodes')
    ensures forall i, j :: 0 <= i < |nodes'| && 0 <= j < |nodes'| && nodes'[i].zIndex < nodes'[j].zIndex ==>
      nodes'[i].computedZ < nodes'[j].computedZ
  {
    ConsecutiveIsOrdered(nodes', layer);
    SortedCopySorted(nodes, nodes');
    forall v ensures v in Preorder(nodes') <==> layer <= v < layer + Count(nodes) {
      if layer <= v < layer + Count(nodes) {
        assert Preorder(nodes')[v - layer] == v;
      }
    }
  }
}
