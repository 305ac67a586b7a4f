/**
 * `Phase` and `PhaseExecutionPolicy` (system/scheduler/phase.rs), and the ordered
 * insertion rule that places a layer in a phase, or a phase in the scheduler, under its
 * `before`/`after` constraints. A phase is an owned value inside the scheduler.
 */
module Phases {
  import opened Wrappers
  import opened Seqs
  import opened Conflict
  import opened Layers

  /** The built-in layer labels, in order (system/scheduler/label.rs). */
  const LAYER_LABELS: seq<string> := ["Pre", "Start", "Main", "End", "Post"]

  /** `position(|s| s.label == l)`: the first index holding `l`. */
  function Position(labels: seq<string>, l: string): (r: Option<nat>)
    ensures r.None? <==> l !in labels
    ensures r.Some? ==> r.value < |labels| && labels[r.value] == l && forall k :: 0 <= k < r.value ==> labels[k] != l
  {
    if labels == [] then None
    else if labels[0] == l then Some(0)
    else
      match Position(labels[1..], l)
      case None => None
      case Some(k) => Some(k + 1)
  }

  /** The minimum over `before` of each label's position, or the length when it is absent; the length when `before` is empty. */
  function MinBefore(labels: seq<string>, before: seq<string>): (r: nat)
    ensures r <= |labels|
    ensures forall j :: 0 <= j < |before| && before[j] in labels ==> r <= Position(labels, before[j]).value
    ensures r == |labels| || exists j :: 0 <= j < |before| && Position(labels, before[j]) == Some(r)
  {
    if before == [] then |labels|
    else
      var here := match Position(labels, before[0]) case Some(k) => k case None => |labels|;
      var rest := MinBefore(labels, before[1..]);
      assert forall j :: 1 <= j < |before| ==> before[j] == before[1..][j - 1];
      if here <= rest then here else rest
  }

  /** The maximum position among the `after` labels that are present. */
  function MaxAfter(labels: seq<string>, after: seq<string>): (r: Option<nat>)
    ensures r.None? <==> forall j :: 0 <= j < |after| ==> after[j] !in labels
    ensures r.Some? ==> (
      r.value < |labels|
        && (forall j :: 0 <= j < |after| && after[j] in labels ==> Position(labels, after[j]).value <= r.value)
        && exists j :: 0 <= j < |after| && Position(labels, after[j]) == Some(r.value))
  {
    if after == [] then None
    else
      var here := Position(labels, after[0]);
      var rest := MaxAfter(labels, after[1..]);
      assert forall j :: 1 <= j < |after| ==> after[j] == after[1..][j - 1];
      if here.None? then rest
      else if rest.None? then here
      else if here.value >= rest.value then here
      else rest
  }

  /** Inserting at `i` puts the new entry before every present `before` label and after every present `after` label. */
  predicate Respects(labels: seq<string>, before: seq<string>, after: seq<string>, i: nat) {
    i <= |labels|
    && (forall j :: 0 <= j < |before| && before[j] in labels ==> i <= Position(labels, before[j]).value)
    && (forall j :: 0 <= j < |after| && after[j] in labels ==> Position(labels, after[j]).value < i)
  }

  /**
   * The insertion index of `add_layer`/`add_phase`: `min_before` when no `after` label is
   * present, `max_after + 1` when that is below `min_before`, and a panic otherwise.
   */
  function InsertIndex(labels: seq<string>, before: seq<string>, after: seq<string>): (r: Result<nat>)
    ensures r.Ok? ==> Respects(labels, before, after, r.value)
  {
    var minBefore := MinBefore(labels, before);
    match MaxAfter(labels, after)
    case None => Ok(minBefore)
    case Some(maxAfter) =>
      if maxAfter < minBefore then Ok(maxAfter + 1)
      else Result<nat>.Panic("Conflicting ordering, cannot insert before and after at the same time")
  }

  /** The rule panics exactly when no position satisfies both kinds of constraint. */
  lemma InsertIndexComplete(labels: seq<string>, before: seq<string>, after: seq<string>)
    ensures InsertIndex(labels, before, after).Panic? <==> forall i: nat :: !Respects(labels, before, after, i)
  {
    if InsertIndex(labels, before, after).Panic? {
      var minBefore := MinBefore(labels, before);
      var maxAfter := MaxAfter(labels, after).value;
      var ja :| 0 <= ja < |after| && Position(labels, after[ja]) == Some(maxAfter);
      forall i: nat ensures !Respects(labels, before, after, i) {
      }
    }
  }

  /** `PhaseExecutionType`. */
  datatype ExecutionType = Sequential | Parallel

  /**
   * `PhaseExecutionPolicy`. A fixed timestep's `FixedTime` is kept as the rate it was
   * built from; a custom policy's condition is a foreign function.
   */
  datatype Policy = Normal | Finite(iterations: nat) | FixedTimestep(hz: nat) | Custom

  /** `decrement_finite`: counts a positive `Finite` down and reports the remainder; otherwise does nothing. */
  function DecrementFinite(p: Policy): (r: (Policy, Option<nat>))
    ensures p.Finite? && p.iterations > 0 ==> r.0 == Finite(p.iterations - 1) && r.1.Some? && r.1.value == p.iterations - 1
    ensures !(p.Finite? && p.iterations > 0) ==> r.0 == p && r.1.None?
  {
    match p
    case Finite(n) =>
      if n > 0 then
        var m: nat := n - 1;
        (Finite(m), Some(m))
      else (p, None)
    case _ => (p, None)
  }

  datatype Phase = Phase(name: string, layers: seq<Layer>, executionType: ExecutionType, policy: Policy,
                         before: seq<string>, after: seq<string>)

  function LayerNames(layers: seq<Layer>): (r: seq<string>)
    ensures |r| == |layers| && forall i :: 0 <= i < |r| ==> r[i] == layers[i].name
  {
    seq(|layers|, i requires 0 <= i < |layers| => layers[i].name)
  }

  /** `Phase::new`: the five built-in layers in order, each empty; `Normal` and `Sequential`. */
  function NewPhase(name: string): (r: Phase)
    ensures r.name == name && LayerNames(r.layers) == LAYER_LABELS
    ensures forall i :: 0 <= i < |r.layers| ==> r.layers[i] == NewLayer(LAYER_LABELS[i])
    ensures r.policy == Normal && r.executionType == Sequential && r.before == [] && r.after == []
  {
    var layers := seq(|LAYER_LABELS|, i requires 0 <= i < |LAYER_LABELS| => NewLayer(LAYER_LABELS[i]));
    assert LayerNames(layers) == LAYER_LABELS;
    Phase(name, layers, Sequential, Normal, [], [])
  }

  /**
   * `add_layer`: panics on a duplicate label or contradictory constraints; otherwise the
   * layer is inserted at the index the ordering rule picks, and the others keep their order.
   */
  function AddLayer(p: Phase, layer: Layer): (r: Result<Phase>)
    ensures r.Panic? <==> layer.name in LayerNames(p.layers) || InsertIndex(LayerNames(p.layers), layer.before, layer.after).Panic?
    ensures r.Ok? ==>
      var i := InsertIndex(LayerNames(p.layers), layer.before, layer.after).value;
      Respects(LayerNames(p.layers), layer.before, layer.after, i)
      && r.value == p.(layers := InsertAt(p.layers, i, layer))
  {
    var names := LayerNames(p.layers);
    if Position(names, layer.name).Some? then Panic("System layer already exists in phase")
    else
      match InsertIndex(names, layer.before, layer.after)
      case Panic(m) => Panic(m)
      case Ok(i) => Ok(p.(layers := InsertAt(p.layers, i, layer)))
  }

  /** `refresh_layer`: takes the layer out and adds it again under its current constraints; panics if absent. */
  function RefreshLayer(p: Phase, name: string): (r: Result<Phase>)
    ensures name !in LayerNames(p.layers) ==> r.Panic?
    ensures name in LayerNames(p.layers) ==>
      var k := Position(LayerNames(p.layers), name).value;
      r == AddLayer(p.(layers := RemoveAt(p.layers, k)), p.layers[k])
  {
    match Position(LayerNames(p.layers), name)
    case None => Panic("System layer not found in scheduler")
    case Some(k) => AddLayer(p.(layers := RemoveAt(p.layers, k)), p.layers[k])
  }

  /** `add_system_to_layer`: the named layer gets the system by first fit; panics if the layer is absent. */
  function AddSystemToLayer(p: Phase, name: string, s: Access): (r: Result<Phase>)
    ensures r.Panic? <==> name !in LayerNames(p.layers)
    ensures r.Ok? ==>
      var k := Position(LayerNames(p.layers), name).value;
      r.value == p.(layers := p.layers[k := p.layers[k].(batches := WithSystem(AsWritten, p.layers[k].batches, s))])
  {
    match Position(LayerNames(p.layers), name)
    case None => Panic("System layer not found in phase")
    case Some(k) => Ok(p.(layers := p.layers[k := p.layers[k].(batches := WithSystem(AsWritten, p.layers[k].batches, s))]))
  }

  /** What the policy dispatch at the start of `Phase::execute` decides. */
  datatype Dispatch = Dispatch(policy: Policy, iterations: nat, queueRemoval: bool, conditionRuns: nat)

  /**
   * The policy dispatch of `Phase::execute`. `Normal` runs once; a positive `Finite` is
   * counted down, runs once, and queues the phase's removal when it reaches zero; a fixed
   * timestep runs as many times as its timer reports (`timestepIterations`); a custom
   * condition is evaluated (ticking the world once) and nothing runs when it is false
   * (`None`). `Finite(0)` matches no branch and panics.
   */
  function ExecutePolicy(p: Policy, timestepIterations: nat, conditionHolds: bool): (r: Result<Option<Dispatch>>)
    ensures r.Panic? <==> p == Finite(0)
    ensures p.Finite? && p.iterations > 0 ==>
      r == Ok(Some(Dispatch(Finite(p.iterations - 1), 1, p.iterations == 1, 0)))
    ensures p.Custom? ==> r == (if conditionHolds then Ok(Some(Dispatch(p, 1, false, 1))) else Ok(None))
    ensures p.Normal? ==> r == Ok(Some(Dispatch(p, 1, false, 0)))
    ensures p.FixedTimestep? ==> r == Ok(Some(Dispatch(p, timestepIterations, false, 0)))
  {
    if p.Normal? then Ok(Some(Dispatch(p, 1, false, 0)))
    else
      var (decremented, remaining) := DecrementFinite(p);
      if remaining.Some? then Ok(Some(Dispatch(decremented, 1, remaining.value == 0, 0)))
      else if p.FixedTimestep? then Ok(Some(Dispatch(p, timestepIterations, false, 0)))
      else if p.Custom? then (if conditionHolds then Ok(Some(Dispatch(p, 1, false, 1))) else Ok(None))
      else Panic("Unknown phase execution policy")
  }
}
