/**
 * `GroupedInstances::generate` (core/standard/grouped.rs): the renderable instances are
 * sorted by material id and then mesh id, cut into maximal runs of one (material, mesh)
 * pair, and each run becomes an instance group holding its length and the offset of its
 * first instance; one transform per instance is collected in the same order. Handles are
 * reduced to their ids and a transform to its matrix columns.
 */
module Grouped {
  import opened Wrappers

  /** One row of the query: the instance's material id, mesh id and global transform. */
  datatype Instance = Instance(material: nat, mesh: nat, transform: Transform)

  /** A global transform as the four columns `to_cols_array_2d` gives. */
  datatype Transform = Transform(columns: seq<seq<real>>)

  /** `InstanceGroup`: `count` instances of one (material, mesh) pair, starting at `offset`. */
  datatype InstanceGroup = InstanceGroup(material: nat, mesh: nat, count: nat, offset: nat)

  /** The comparator of `sort_by`: material id first, then mesh id. */
  predicate KeyLess(a: Instance, b: Instance) {
    a.material < b.material || (a.material == b.material && a.mesh < b.mesh)
  }

  predicate KeyLessEq(a: Instance, b: Instance) {
    !KeyLess(b, a)
  }

  predicate SameKey(a: Instance, b: Instance) {
    a.material == b.material && a.mesh == b.mesh
  }

  ghost predicate SortedByKey(s: seq<Instance>) {
    forall i, j :: 0 <= i < j < |s| ==> KeyLessEq(s[i], s[j])
  }

  /** The instances of `s` that have the pair of `x`, in their order in `s`. */
  function WithKeyOf(s: seq<Instance>, x: Instance): seq<Instance> {
    if s == [] then [] else (if SameKey(s[0], x) then [s[0]] else []) + WithKeyOf(s[1..], x)
  }

  /** `sort_by` is stable: instances with equal pairs keep their relative order. */
  ghost predicate SameOrderPerKey(s: seq<Instance>, t: seq<Instance>) {
    forall x :: WithKeyOf(s, x) == WithKeyOf(t, x)
  }

  lemma {:induction false} WithKeyOfConcat(s: seq<Instance>, t: seq<Instance>, x: Instance)
    ensures WithKeyOf(s + t, x) == WithKeyOf(s, x) + WithKeyOf(t, x)
  {
    if s != [] {
      assert (s + t)[0] == s[0] && (s + t)[1..] == s[1..] + t;
      WithKeyOfConcat(s[1..], t, x);
    } else {
      assert s + t == t;
    }
  }

  /** Swapping two neighbours with different pairs changes no instance's order among its equals. */
  lemma SwapKeepsOrderPerKey(s: seq<Instance>, j: nat)
    requires 0 < j < |s| && !SameKey(s[j - 1], s[j])
    ensures SameOrderPerKey(s[j - 1 := s[j]][j := s[j - 1]], s)
  {
    var t := s[j - 1 := s[j]][j := s[j - 1]];
    assert s == s[..j - 1] + [s[j - 1], s[j]] + s[j + 1..];
    assert t == s[..j - 1] + [s[j], s[j - 1]] + s[j + 1..];
    forall x ensures WithKeyOf(t, x) == WithKeyOf(s, x) {
      WithKeyOfConcat(s[..j - 1] + [s[j - 1], s[j]], s[j + 1..], x);
      WithKeyOfConcat(s[..j - 1], [s[j - 1], s[j]], x);
      WithKeyOfConcat(s[..j - 1] + [s[j], s[j - 1]], s[j + 1..], x);
      WithKeyOfConcat(s[..j - 1], [s[j], s[j - 1]], x);
      WithKeyOfConcat([s[j - 1]], [s[j]], x);
      WithKeyOfConcat([s[j]], [s[j - 1]], x);
    }
  }

  /** `sort_by` with the comparator above, as an insertion sort on the query rows. */
  method SortInstances(a: array<Instance>)
    modifies a
    ensures SortedByKey(a[..]) && multiset(a[..]) == multiset(old(a[..]))
    ensures SameOrderPerKey(a[..], old(a[..]))
  {
    var i := 0;
    while i < a.Length
      invariant 0 <= i <= a.Length
      invariant forall m, n :: 0 <= m < n < i ==> KeyLessEq(a[m], a[n])
      invariant multiset(a[..]) == multiset(old(a[..]))
      invariant SameOrderPerKey(a[..], old(a[..]))
    {
      var j := i;
      while j > 0 && KeyLess(a[j], a[j - 1])
        invariant 0 <= j <= i
        invariant forall m, n :: 0 <= m < n <= i && n != j ==> KeyLessEq(a[m], a[n])
        invariant forall m, n :: 0 <= m < j < n <= i ==> KeyLessEq(a[m], a[n])
        invariant multiset(a[..]) == multiset(old(a[..]))
        invariant SameOrderPerKey(a[..], old(a[..]))
      {
        SwapKeepsOrderPerKey(a[..], j);
        a[j - 1], a[j] := a[j], a[j - 1];
        j := j - 1;
      }
      i := i + 1;
    }
  }

  /**
   * The maximal runs of the first `n` instances of `s`, each with its pair, length and
   * starting offset, built from the front one instance at a time.
   */
  function Runs(s: seq<Instance>, n: nat): seq<InstanceGroup>
    requires n <= |s|
  {
    if n == 0 then [] else Step(Runs(s, n - 1), s[n - 1], n - 1)
  }

  /** Adding instance `x` at position `n`: it lengthens the last run if it has that run's pair, else starts a run of one. */
  function Step(q: seq<InstanceGroup>, x: Instance, n: nat): seq<InstanceGroup> {
    if q != [] && q[|q| - 1].material == x.material && q[|q| - 1].mesh == x.mesh then
      q[..|q| - 1] + [q[|q| - 1].(count := q[|q| - 1].count + 1)]
    else
      q + [InstanceGroup(x.material, x.mesh, 1, n)]
  }

  /**
   * The groups cut `[0, n)` into consecutive non-empty stretches: none for `n == 0`; the
   * first starts at 0, each later one where the previous ends, and the last ends at `n`.
   */
  ghost predicate Tiles(r: seq<InstanceGroup>, n: nat) {
    (r == [] <==> n == 0)
    && (r != [] ==> r[0].offset == 0 && r[|r| - 1].offset + r[|r| - 1].count == n)
    && (forall k :: 0 <= k < |r| ==> 1 <= r[k].count && r[k].offset + r[k].count <= n)
    && (forall k :: 1 <= k < |r| ==> r[k].offset == r[k - 1].offset + r[k - 1].count)
  }

  /** Every instance of `s` a group covers has the group's pair. */
  ghost predicate Labels(s: seq<Instance>, r: seq<InstanceGroup>) {
    forall k, i :: 0 <= k < |r| && r[k].offset <= i < r[k].offset + r[k].count && i < |s| ==>
      s[i].material == r[k].material && s[i].mesh == r[k].mesh
  }

  /** Neighbouring groups have different pairs. */
  ghost predicate Maximal(r: seq<InstanceGroup>) {
    forall k :: 1 <= k < |r| ==> !(r[k - 1].material == r[k].material && r[k - 1].mesh == r[k].mesh)
  }

  lemma StepTiles(q: seq<InstanceGroup>, x: Instance, n: nat)
    requires Tiles(q, n)
    ensures Tiles(Step(q, x, n), n + 1)
  {
    var r := Step(q, x, n);
    if q != [] && q[|q| - 1].material == x.material && q[|q| - 1].mesh == x.mesh {
      assert forall k :: 0 <= k < |q| - 1 ==> r[k] == q[k];
    } else {
      assert forall k :: 0 <= k < |q| ==> r[k] == q[k];
    }
  }

  lemma StepLabels(s: seq<Instance>, q: seq<InstanceGroup>, n: nat)
    requires n < |s| && Tiles(q, n) && Labels(s, q)
    ensures Labels(s, Step(q, s[n], n))
  {
    var r := Step(q, s[n], n);
    forall k, i | 0 <= k < |r| && r[k].offset <= i < r[k].offset + r[k].count && i < |s|
      ensures s[i].material == r[k].material && s[i].mesh == r[k].mesh
    {
      if i < n {
        assert k < |q| && r[k].material == q[k].material && r[k].mesh == q[k].mesh;
        assert q[k].offset <= i < q[k].offset + q[k].count;
      }
    }
  }

  lemma StepMaximal(q: seq<InstanceGroup>, x: Instance, n: nat)
    requires Maximal(q)
    ensures Maximal(Step(q, x, n))
  {
    var r := Step(q, x, n);
    if q != [] && q[|q| - 1].material == x.material && q[|q| - 1].mesh == x.mesh {
      assert forall k :: 0 <= k < |q| - 1 ==> r[k] == q[k];
    } else {
      assert forall k :: 0 <= k < |q| ==> r[k] == q[k];
    }
  }

  /** The sum of the group counts. */
  function Total(r: seq<InstanceGroup>): nat {
    if r == [] then 0 else Total(r[..|r| - 1]) + r[|r| - 1].count
  }

  /** The runs of the first `n` instances tile `[0, n)`, cover instances of their own pair only, and are maximal. */
  lemma {:induction false} RunsProperties(s: seq<Instance>, n: nat)
    requires n <= |s|
    ensures Tiles(Runs(s, n), n) && Labels(s, Runs(s, n)) && Maximal(Runs(s, n))
  {
    if n > 0 {
      RunsProperties(s, n - 1);
      StepTiles(Runs(s, n - 1), s[n - 1], n - 1);
      StepLabels(s, Runs(s, n - 1), n - 1);
      StepMaximal(Runs(s, n - 1), s[n - 1], n - 1);
    }
  }

  /** The last run of the first `n > 0` instances ends at `n`. */
  lemma RunsEnd(s: seq<Instance>, n: nat)
    requires n <= |s|
    ensures n > 0 ==> Runs(s, n) != [] && Runs(s, n)[|Runs(s, n)| - 1].offset + Runs(s, n)[|Runs(s, n)| - 1].count == n
  {
    RunsProperties(s, n);
  }

  /** In a tiling, the groups before group `k` hold `r[k].offset` instances. */
  lemma {:induction false} TotalBefore(r: seq<InstanceGroup>, n: nat, k: nat)
    requires Tiles(r, n) && k < |r|
    ensures Total(r[..k]) == r[k].offset
    decreases k
  {
    if k == 0 {
      assert r[..0] == [];
    } else {
      TotalBefore(r, n, k - 1);
      assert r[..k][..k - 1] == r[..k - 1];
    }
  }

  /** The counts of groups that tile `[0, n)` add up to `n`: each instance is in exactly one group. */
  lemma TilesTotal(r: seq<InstanceGroup>, n: nat)
    requires Tiles(r, n)
    ensures Total(r) == n
  {
    if r != [] {
      TotalBefore(r, n, |r| - 1);
      assert r[..|r|] == r;
    }
  }

  /** The group counts of the runs of `s` add up to `|s|`. */
  lemma RunsTotal(s: seq<Instance>)
    ensures Total(Runs(s, |s|)) == |s|
  {
    RunsProperties(s, |s|);
    TilesTotal(Runs(s, |s|), |s|);
  }

  /** In a tiling, a later group starts after an earlier one. */
  lemma {:induction false} StartsIncrease(r: seq<InstanceGroup>, n: nat, k: nat, l: nat)
    requires Tiles(r, n) && k < l < |r|
    ensures r[k].offset < r[l].offset
    decreases l - k
  {
    if k < l - 1 {
      StartsIncrease(r, n, k, l - 1);
    }
  }

  /**
   * The runs of a sorted list are in strictly increasing (material, mesh) order, so no
   * pair has two groups.
   */
  lemma RunsOfSortedIncrease(s: seq<Instance>)
    requires SortedByKey(s)
    ensures var r := Runs(s, |s|);
      forall k, l :: 0 <= k < l < |r| ==>
        r[k].material < r[l].material || (r[k].material == r[l].material && r[k].mesh < r[l].mesh)
  {
    var r := Runs(s, |s|);
    RunsProperties(s, |s|);
    forall k, l | 0 <= k < l < |r|
      ensures r[k].material < r[l].material || (r[k].material == r[l].material && r[k].mesh < r[l].mesh)
    {
      GroupsOrdered(s, r, k, l);
    }
  }

  /** Two groups of a maximal labelled tiling of a sorted list, compared through their first instances. */
  lemma GroupsOrdered(s: seq<Instance>, r: seq<InstanceGroup>, k: nat, l: nat)
    requires SortedByKey(s) && Tiles(r, |s|) && Labels(s, r) && Maximal(r) && k < l < |r|
    ensures r[k].material < r[l].material || (r[k].material == r[l].material && r[k].mesh < r[l].mesh)
  {
    var first, previous, last := r[k].offset, r[l - 1].offset, r[l].offset;
    if k < l - 1 {
      StartsIncrease(r, |s|, k, l - 1);
    }
    StartsIncrease(r, |s|, l - 1, l);
    assert KeyLessEq(s[first], s[previous]) && KeyLessEq(s[previous], s[last]);
  }

  /**
   * The grouping loop over the sorted rows. `lastEntry` holds the pair and length of the
   * run in progress; a row with another pair closes it as a group; the row at the last
   * index (`len.saturating_sub(1)`, 0 for an empty list) closes the final run.
   */
  method GroupSorted(sorted: seq<Instance>) returns (groups: seq<InstanceGroup>, transforms: seq<Transform>)
    ensures groups == Runs(sorted, |sorted|)
    ensures |transforms| == |sorted| && forall i :: 0 <= i < |sorted| ==> transforms[i] == sorted[i].transform
  {
    var lastIndex := if |sorted| == 0 then 0 else |sorted| - 1;
    var lastEntry: Option<(nat, nat, nat)> := None;
    var instanceCount: nat := 0;
    var instanceOffset: nat := 0;
    groups := [];
    transforms := [];
    ghost var runs: seq<InstanceGroup> := [];
    for i := 0 to |sorted|
      invariant runs == Runs(sorted, i)
      invariant transforms == TransformsOf(sorted, i)
      invariant i == 0 ==> lastEntry.None? && groups == [] && instanceOffset == 0
      invariant 0 < i ==> InProgress(runs, lastEntry, instanceCount, instanceOffset)
      invariant 0 < i ==> groups == Closed(runs, i == |sorted|)
    {
      var x := sorted[i];
      RunsEnd(sorted, i);
      if lastEntry.Some? {
        var (lastMaterial, lastMesh, lastInstanceCount) := lastEntry.value;
        if lastMaterial == x.material && lastMesh == x.mesh {
          StepSameRun(runs, x, i, lastEntry, instanceCount, instanceOffset);
          instanceCount := instanceCount + 1;
        } else {
          StepNewRun(runs, x, i, lastEntry, instanceCount, instanceOffset);
          groups := groups + [InstanceGroup(lastMaterial, lastMesh, lastInstanceCount, instanceOffset)];
          instanceOffset := instanceOffset + lastInstanceCount;
          instanceCount := 1;
        }
      } else {
        instanceCount := 1;
      }
      runs := Step(runs, x, i);
      if i == lastIndex {
        groups := groups + [InstanceGroup(x.material, x.mesh, instanceCount, instanceOffset)];
      }
      lastEntry := Some((x.material, x.mesh, instanceCount));
      transforms := transforms + [x.transform];
    }
    TransformsInOrder(sorted, |sorted|);
  }

  /** The transforms of the first `n` instances, in order. */
  function TransformsOf(s: seq<Instance>, n: nat): seq<Transform>
    requires n <= |s|
  {
    if n == 0 then [] else TransformsOf(s, n - 1) + [s[n - 1].transform]
  }

  lemma {:induction false} TransformsInOrder(s: seq<Instance>, n: nat)
    requires n <= |s|
    ensures |TransformsOf(s, n)| == n && forall i :: 0 <= i < n ==> TransformsOf(s, n)[i] == s[i].transform
  {
    if n > 0 {
      TransformsInOrder(s, n - 1);
    }
  }

  /** The loop state describes the last run of `r`, the one still in progress. */
  ghost predicate InProgress(r: seq<InstanceGroup>, lastEntry: Option<(nat, nat, nat)>, count: nat, offset: nat) {
    r != [] && lastEntry.Some?
    && var g := r[|r| - 1];
    lastEntry.value == (g.material, g.mesh, g.count) && count == g.count && offset == g.offset
  }

  /** An instance with the pair in progress lengthens the last run. */
  lemma StepSameRun(q: seq<InstanceGroup>, x: Instance, n: nat, entry: Option<(nat, nat, nat)>, count: nat, offset: nat)
    requires InProgress(q, entry, count, offset) && entry.value.0 == x.material && entry.value.1 == x.mesh
    ensures InProgress(Step(q, x, n), Some((x.material, x.mesh, count + 1)), count + 1, offset)
    ensures Closed(Step(q, x, n), false) == Closed(q, false)
  {
    var r := Step(q, x, n);
    assert r[..|r| - 1] == q[..|q| - 1];
  }

  /** An instance with another pair closes the run in progress and starts one at its own position. */
  lemma StepNewRun(q: seq<InstanceGroup>, x: Instance, n: nat, entry: Option<(nat, nat, nat)>, count: nat, offset: nat)
    requires InProgress(q, entry, count, offset) && !(entry.value.0 == x.material && entry.value.1 == x.mesh)
    requires q[|q| - 1].offset + q[|q| - 1].count == n
    ensures InProgress(Step(q, x, n), Some((x.material, x.mesh, 1)), 1, offset + entry.value.2)
    ensures Closed(Step(q, x, n), false) == Closed(q, false) + [InstanceGroup(entry.value.0, entry.value.1, entry.value.2, offset)]
  {
    var r := Step(q, x, n);
    assert r[..|r| - 1] == q;
    assert q == q[..|q| - 1] + [q[|q| - 1]];
  }

  /** The groups pushed so far: every run but the one in progress, or all of them once the last row is in. */
  function Closed(r: seq<InstanceGroup>, done: bool): seq<InstanceGroup>
    requires r != []
  {
    if done then r else r[..|r| - 1]
  }

  /**
   * `generate`: the query rows sorted by (material, mesh), the groups as the runs of the
   * sorted rows, and one transform per row in sorted order. An empty query gives no groups.
   */
  method Generate(query: seq<Instance>) returns (sorted: seq<Instance>, groups: seq<InstanceGroup>, transforms: seq<Transform>)
    ensures SortedByKey(sorted) && multiset(sorted) == multiset(query)
    ensures SameOrderPerKey(sorted, query)
    ensures groups == Runs(sorted, |sorted|) && (query == [] ==> groups == [])
    ensures |transforms| == |sorted| && forall i :: 0 <= i < |sorted| ==> transforms[i] == sorted[i].transform
  {
    var a := new Instance[|query|](i requires 0 <= i < |query| => query[i]);
    assert a[..] == query;
    SortInstances(a);
    sorted := a[..];
    groups, transforms := GroupSorted(sorted);
  }
}
