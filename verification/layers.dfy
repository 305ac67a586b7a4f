/**
 * `Batch` and `Layer` (system/scheduler/mod.rs): a layer keeps its systems in batches of
 * mutually non-conflicting systems, placing each new system in the first batch that
 * accepts it. Both are owned values inside their phase.
 */
module Layers {
  import opened Wrappers
  import opened SystemNew
  import opened Conflict

  /** `Batch`: systems that may run in parallel. */
  datatype Batch = Batch(systems: seq<Access>)

  /** `Layer`: a label, its batches, and the labels it must run before and after. */
  datatype Layer = Layer(name: string, batches: seq<Batch>, before: seq<string>, after: seq<string>)

  /** `Layer::new`: no batches and no ordering constraints. */
  function NewLayer(name: string): (r: Layer)
    ensures r.name == name && r.batches == [] && r.before == [] && r.after == []
  {
    Layer(name, [], [], [])
  }

  /**
   * The system conflict relation a batch consults: `is_conflicting_with` as written, which
   * `can_accept` calls, or the corrected relation that also checks the new system's run
   * conditions against the batch's functions.
   */
  datatype Relation = AsWritten | Corrected

  predicate Clashes(rel: Relation, a: Access, b: Access) {
    match rel
    case AsWritten => SystemsClashAsWritten(a, b)
    case Corrected => SystemsClash(a, b)
  }

  /** No system already in the batch conflicts with `s` under `rel`. */
  predicate Accepts(rel: Relation, b: Batch, s: Access) {
    forall i :: 0 <= i < |b.systems| ==> !Clashes(rel, b.systems[i], s)
  }

  /**
   * `Batch::can_accept`: asks each system of the batch whether it conflicts with `s`,
   * stopping at the first that does.
   */
  method CanAccept(b: Batch, s: Access) returns (r: bool)
    ensures r <==> forall i :: 0 <= i < |b.systems| ==> !SystemsClashAsWritten(b.systems[i], s)
    ensures r == Accepts(AsWritten, b, s)
  {
    var i := 0;
    while i < |b.systems|
      invariant i <= |b.systems|
      invariant forall k :: 0 <= k < i ==> !SystemsClashAsWritten(b.systems[k], s)
    {
      var clash := SystemConflictingAsWritten(b.systems[i], s);
      if clash {
        return false;
      }
      i := i + 1;
    }
    return true;
  }

  /** The index of the first batch that accepts `s` under `rel`, if any. */
  function FirstAccepting(rel: Relation, batches: seq<Batch>, s: Access, from: nat): (r: Option<nat>)
    requires from <= |batches|
    decreases |batches| - from
    ensures r.Some? ==> (
      from <= r.value < |batches| && Accepts(rel, batches[r.value], s)
        && forall k :: from <= k < r.value ==> !Accepts(rel, batches[k], s))
    ensures r.None? ==> forall k :: from <= k < |batches| ==> !Accepts(rel, batches[k], s)
  {
    if from == |batches| then None
    else if Accepts(rel, batches[from], s) then Some(from)
    else FirstAccepting(rel, batches, s, from + 1)
  }

  /** The batches after first-fit placement of `s`: the first accepting batch grows, or a new one-system batch is appended. */
  function WithSystem(rel: Relation, batches: seq<Batch>, s: Access): (r: seq<Batch>)
    ensures
      match FirstAccepting(rel, batches, s, 0)
      case Some(k) => r == batches[k := Batch(batches[k].systems + [s])]
      case None => r == batches + [Batch([s])]
  {
    match FirstAccepting(rel, batches, s, 0)
    case Some(k) => batches[k := Batch(batches[k].systems + [s])]
    case None => batches + [Batch([s])]
  }

  /** `Layer::add_system`: tries the batches in order with `can_accept` and appends to the first that accepts. */
  method AddSystem(layer: Layer, s: Access) returns (r: Layer)
    ensures r == layer.(batches := WithSystem(AsWritten, layer.batches, s))
  {
    var i := 0;
    while i < |layer.batches|
      invariant i <= |layer.batches|
      invariant FirstAccepting(AsWritten, layer.batches, s, 0) == FirstAccepting(AsWritten, layer.batches, s, i)
    {
      var ok := CanAccept(layer.batches[i], s);
      if ok {
        var b := layer.batches[i];
        return layer.(batches := layer.batches[i := Batch(b.systems + [s])]);
      }
      i := i + 1;
    }
    return layer.(batches := layer.batches + [Batch([s])]);
  }

  /** The number of systems over all batches. */
  function Count(batches: seq<Batch>): nat {
    if batches == [] then 0 else Count(batches[..|batches| - 1]) + |batches[|batches| - 1].systems|
  }

  lemma {:induction false} CountAppend(batches: seq<Batch>, b: Batch)
    ensures Count(batches + [b]) == Count(batches) + |b.systems|
  {
    assert (batches + [b])[..|batches|] == batches;
  }

  /** Growing one batch by `d` systems grows the count by `d`. */
  lemma {:induction false} CountUpdate(batches: seq<Batch>, k: nat, b: Batch)
    requires k < |batches|
    ensures Count(batches[k := b]) + |batches[k].systems| == Count(batches) + |b.systems|
  {
    var last := |batches| - 1;
    if k == last {
      assert batches[k := b][..last] == batches[..last];
    } else {
      CountUpdate(batches[..last], k, b);
      assert batches[k := b][..last] == batches[..last][k := b];
    }
  }

  /** `add_system` adds exactly one system, and changes at most one existing batch. */
  lemma AddSystemCount(rel: Relation, batches: seq<Batch>, s: Access)
    ensures Count(WithSystem(rel, batches, s)) == Count(batches) + 1
    ensures |WithSystem(rel, batches, s)| >= |batches|
    ensures forall k :: 0 <= k < |batches| && FirstAccepting(rel, batches, s, 0) != Some(k) ==> WithSystem(rel, batches, s)[k] == batches[k]
  {
    match FirstAccepting(rel, batches, s, 0)
    case Some(k) => CountUpdate(batches, k, Batch(batches[k].systems + [s]));
    case None => CountAppend(batches, Batch([s]));
  }

  /** No two systems of the batch conflict under the corrected relation, in either order. */
  predicate ConflictFree(b: Batch) {
    forall i, j :: 0 <= i < |b.systems| && 0 <= j < |b.systems| && i != j ==> !SystemsClash(b.systems[i], b.systems[j])
  }

  /**
   * With the corrected relation, which is symmetric, first-fit placement keeps every batch
   * conflict-free.
   */
  lemma AddSystemConflictFree(batches: seq<Batch>, s: Access)
    requires forall k :: 0 <= k < |batches| ==> ConflictFree(batches[k])
    ensures forall k :: 0 <= k < |WithSystem(Corrected, batches, s)| ==> ConflictFree(WithSystem(Corrected, batches, s)[k])
  {
    var r := WithSystem(Corrected, batches, s);
    match FirstAccepting(Corrected, batches, s, 0)
    case Some(k) =>
      var sys := batches[k].systems + [s];
      forall i, j | 0 <= i < |sys| && 0 <= j < |sys| && i != j ensures !SystemsClash(sys[i], sys[j]) {
        if j == |sys| - 1 {
          assert !Clashes(Corrected, batches[k].systems[i], s);
        } else if i == |sys| - 1 {
          SystemsClashSymmetric(s, batches[k].systems[j]);
          assert !Clashes(Corrected, batches[k].systems[j], s);
        } else {
          assert sys[i] == batches[k].systems[i] && sys[j] == batches[k].systems[j];
        }
      }
      assert ConflictFree(r[k]);
    case None =>
      assert ConflictFree(Batch([s]));
  }

  /** No system of the batch sees, as written, a conflict with a system placed after it. */
  predicate EarlierSeeNoClash(b: Batch) {
    forall i, j :: 0 <= i < j < |b.systems| ==> !SystemsClashAsWritten(b.systems[i], b.systems[j])
  }

  /**
   * What `can_accept` does guarantee: every batch keeps the property that no system in it
   * reports, as written, a conflict with a later one.
   */
  lemma AddSystemEarlierSeeNoClash(batches: seq<Batch>, s: Access)
    requires forall k :: 0 <= k < |batches| ==> EarlierSeeNoClash(batches[k])
    ensures forall k :: 0 <= k < |WithSystem(AsWritten, batches, s)| ==> EarlierSeeNoClash(WithSystem(AsWritten, batches, s)[k])
  {
    var r := WithSystem(AsWritten, batches, s);
    match FirstAccepting(AsWritten, batches, s, 0)
    case Some(k) =>
      var sys := batches[k].systems + [s];
      forall i, j | 0 <= i < j < |sys| ensures !SystemsClashAsWritten(sys[i], sys[j]) {
        if j == |sys| - 1 {
          assert !Clashes(AsWritten, batches[k].systems[i], s);
        } else {
          assert sys[i] == batches[k].systems[i] && sys[j] == batches[k].systems[j];
        }
      }
      assert EarlierSeeNoClash(r[k]);
    case None =>
      assert EarlierSeeNoClash(Batch([s]));
  }

  /**
   * The discrepancy: a system whose run condition reads `T` joins the batch of a system that
   * writes `T`, so the two may run in parallel although they conflict; the corrected relation
   * gives the reader a batch of its own.
   */
  lemma GuardedJoinsWriterBatch(t: TypeInfo)
    ensures
      var writer := Access([ParamInfo(true, t)], []);
      var guarded := Access([], [[ParamInfo(false, t)]]);
      WithSystem(AsWritten, [Batch([writer])], guarded) == [Batch([writer, guarded])]
      && !ConflictFree(Batch([writer, guarded]))
      && WithSystem(Corrected, [Batch([writer])], guarded) == [Batch([writer]), Batch([guarded])]
  {
    var writer := Access([ParamInfo(true, t)], []);
    var guarded := Access([], [[ParamInfo(false, t)]]);
    AsWrittenIsNotSymmetric(t);
    assert Accepts(AsWritten, Batch([writer]), guarded);
    assert ParamConflict(guarded.conditions[0][0], writer.main[0]);
    assert ParamsClash(guarded.conditions[0], writer.main);
    assert Clashes(Corrected, Batch([writer]).systems[0], guarded);
    assert !Accepts(Corrected, Batch([writer]), guarded);
    assert FirstAccepting(AsWritten, [Batch([writer])], guarded, 0) == Some(0);
    assert FirstAccepting(Corrected, [Batch([writer])], guarded, 0) == None;
    var both := Batch([writer, guarded]);
    assert both.systems[0] == writer && both.systems[1] == guarded;
    assert SystemsClash(both.systems[0], both.systems[1]);
    assert [writer] + [guarded] == [writer, guarded];
  }
}
