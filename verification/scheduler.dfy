/**
 * `Scheduler` (system/scheduler/mod.rs): the ordered list of phases and the queue of
 * pending changes. Queued changes are boxed closures in the source; the model names the
 * ones the scheduler itself queues as a `Change` datatype and gives each its effect.
 */
module Scheduler {
  import opened Wrappers
  import opened Seqs
  import opened Conflict
  import opened Layers
  import opened Phases

  /** The built-in phase labels in declaration order (system/scheduler/label.rs). */
  const PHASE_LABELS: seq<string> := ["PreStartup", "Startup", "First", "PreUpdate", "FixedUpdate", "Update",
                                      "PostUpdate", "Last", "PreRender", "Render", "PostRender", "FrameEnd"]

  /** `FixedTime::from_hz(60.0)`, the default fixed-update rate. */
  const FIXED_UPDATE_HZ: nat := 60

  /** A queued scheduler change (`SchedulerChanges`). */
  datatype Change =
    | PhaseRemove(phase: string)
    | SystemAdd(phase: string, layer: string, system: Access)
    | SetPolicy(phase: string, policy: Policy)
    | PhaseAdd(phase: string)
    | LayerAdd(phase: string, layer: string)

  function PhaseNames(phases: seq<Phase>): (r: seq<string>)
    ensures |r| == |phases| && forall i :: 0 <= i < |r| ==> r[i] == phases[i].name
  {
    seq(|phases|, i requires 0 <= i < |phases| => phases[i].name)
  }

  /** In a list without duplicates, a label's position is where it stands. */
  lemma PositionOfDistinct(labels: seq<string>, k: nat)
    requires Distinct(labels) && k < |labels|
    ensures Position(labels, labels[k]) == Some(k)
  {
  }

  /** `add_phase`: the same ordering rule as `add_layer`, with a panic on a duplicate label. */
  function PhaseAdded(phases: seq<Phase>, p: Phase): (r: Result<seq<Phase>>)
    ensures r.Panic? <==> p.name in PhaseNames(phases) || InsertIndex(PhaseNames(phases), p.before, p.after).Panic?
    ensures r.Ok? ==>
      var i := InsertIndex(PhaseNames(phases), p.before, p.after).value;
      Respects(PhaseNames(phases), p.before, p.after, i) && r.value == InsertAt(phases, i, p)
  {
    var names := PhaseNames(phases);
    if Position(names, p.name).Some? then Panic("System phase already exists in scheduler")
    else
      match InsertIndex(names, p.before, p.after)
      case Panic(m) => Panic(m)
      case Ok(i) => Ok(InsertAt(phases, i, p))
  }

  /** The effect of one queued change on the phase list; `None` of a lookup panics. */
  function Applied(phases: seq<Phase>, c: Change): (r: Result<seq<Phase>>)
    ensures c.PhaseRemove? || c.SystemAdd? || c.SetPolicy? || c.LayerAdd? ==>
      (r.Panic? <== c.phase !in PhaseNames(phases))
    ensures c.SetPolicy? && c.phase in PhaseNames(phases) ==>
      var k := Position(PhaseNames(phases), c.phase).value;
      r == Ok(phases[k := phases[k].(policy := c.policy)])
    ensures c.PhaseRemove? && c.phase in PhaseNames(phases) ==>
      r == Ok(RemoveAt(phases, Position(PhaseNames(phases), c.phase).value))
  {
    var names := PhaseNames(phases);
    if c.PhaseAdd? then PhaseAdded(phases, NewPhase(c.phase))
    else
      match Position(names, c.phase)
      case None => Panic("System phase not found in scheduler")
      case Some(k) =>
        if c.PhaseRemove? then Ok(RemoveAt(phases, k))
        else if c.SetPolicy? then Ok(phases[k := phases[k].(policy := c.policy)])
        else if c.SystemAdd? then
          (match AddSystemToLayer(phases[k], c.layer, c.system)
           case Panic(m) => Panic(m)
           case Ok(p) => Ok(phases[k := p]))
        else
          (match AddLayer(phases[k], NewLayer(c.layer))
           case Panic(m) => Panic(m)
           case Ok(p) => Ok(phases[k := p]))
  }

  /** Applying queued changes one after another, from the front, stopping at the first panic. */
  function Replay(phases: seq<Phase>, changes: seq<Change>): Result<seq<Phase>>
    decreases |changes|
  {
    if changes == [] then Ok(phases)
    else
      match Applied(phases, changes[0])
      case Panic(m) => Panic(m)
      case Ok(next) => Replay(next, changes[1..])
  }

  /** Draining a queue in two parts is the same as draining it at once: changes apply in FIFO order. */
  lemma {:induction false} ReplayAppend(phases: seq<Phase>, a: seq<Change>, b: seq<Change>)
    decreases |a|
    ensures Replay(phases, a + b) ==
      match Replay(phases, a)
      case Panic(m) => Panic(m)
      case Ok(mid) => Replay(mid, b)
  {
    if a == [] {
      assert a + b == b;
    } else {
      assert (a + b)[0] == a[0] && (a + b)[1..] == a[1..] + b;
      match Applied(phases, a[0])
      case Panic(_) =>
      case Ok(next) => ReplayAppend(next, a[1..], b);
    }
  }

  /** The phases of the default scheduler before its queued policies are applied. */
  function DefaultPhases(): (r: seq<Phase>)
    ensures PhaseNames(r) == PHASE_LABELS
    ensures forall i :: 0 <= i < |r| ==> r[i] == NewPhase(PHASE_LABELS[i])
  {
    var r := seq(|PHASE_LABELS|, i requires 0 <= i < |PHASE_LABELS| => NewPhase(PHASE_LABELS[i]));
    assert PhaseNames(r) == PHASE_LABELS;
    r
  }

  /** The policy changes `Scheduler::default` queues, in order. */
  const DEFAULT_CHANGES: seq<Change> := [SetPolicy(PHASE_LABELS[4], FixedTimestep(FIXED_UPDATE_HZ)),
                                         SetPolicy(PHASE_LABELS[0], Finite(1)),
                                         SetPolicy(PHASE_LABELS[1], Finite(1))]

  lemma PhaseLabelsDistinct()
    ensures Distinct(PHASE_LABELS)
  {
  }

  /** In a phase list with distinct labels, setting a policy by label touches that phase only. */
  lemma SetPolicyStep(ps: seq<Phase>, labels: seq<string>, k: nat, policy: Policy)
    requires Distinct(labels) && PhaseNames(ps) == labels && k < |labels|
    ensures Applied(ps, SetPolicy(labels[k], policy)) == Ok(ps[k := ps[k].(policy := policy)])
    ensures PhaseNames(ps[k := ps[k].(policy := policy)]) == labels
  {
    PositionOfDistinct(labels, k);
  }

  /** Three policy changes, for the phases at 4, 0 and 1, apply in order without panicking. */
  lemma ThreePolicies(p0: seq<Phase>, labels: seq<string>, c: seq<Change>, x: Policy, y: Policy, z: Policy)
    requires Distinct(labels) && PhaseNames(p0) == labels && |labels| > 4
    requires c == [SetPolicy(labels[4], x), SetPolicy(labels[0], y), SetPolicy(labels[1], z)]
    ensures Replay(p0, c).Ok?
    ensures var r := Replay(p0, c).value;
      PhaseNames(r) == labels && r[4].policy == x && r[0].policy == y && r[1].policy == z
      && forall i :: 0 <= i < |r| && i != 0 && i != 1 && i != 4 ==> r[i] == p0[i]
  {
    SetPolicyStep(p0, labels, 4, x);
    var p1 := p0[4 := p0[4].(policy := x)];
    SetPolicyStep(p1, labels, 0, y);
    var p2 := p1[0 := p1[0].(policy := y)];
    SetPolicyStep(p2, labels, 1, z);
    var p3 := p2[1 := p2[1].(policy := z)];
    assert c[1..][1..][1..] == [];
    calc {
      Replay(p0, c);
      Replay(p1, c[1..]);
      Replay(p2, c[1..][1..]);
      Replay(p3, c[1..][1..][1..]);
      Ok(p3);
    }
  }

  /** What `Scheduler::default` ends with once its queued policies are applied. */
  ghost predicate DefaultScheduled(ps: seq<Phase>) {
    PhaseNames(ps) == PHASE_LABELS
    && ps[0].policy == Finite(1) && ps[1].policy == Finite(1)
    && ps[4].policy == FixedTimestep(FIXED_UPDATE_HZ)
    && forall i :: 0 <= i < |ps| && i != 0 && i != 1 && i != 4 ==> ps[i] == NewPhase(PHASE_LABELS[i])
  }

  /** The default queue applies without panicking and yields the default schedule. */
  lemma DefaultReplay(p0: seq<Phase>, c: seq<Change>)
    requires PhaseNames(p0) == PHASE_LABELS && forall i :: 0 <= i < |p0| ==> p0[i] == NewPhase(PHASE_LABELS[i])
    requires c == DEFAULT_CHANGES
    ensures Replay(p0, c).Ok? && DefaultScheduled(Replay(p0, c).value)
  {
    PhaseLabelsDistinct();
    ThreePolicies(p0, PHASE_LABELS, c, FixedTimestep(FIXED_UPDATE_HZ), Finite(1), Finite(1));
  }

  class Scheduler {
    var phases: seq<Phase>
    /** `pending_changes.changes`, oldest first. */
    var pending: seq<Change>

    /**
     * `Scheduler::default`: the twelve built-in phases in declaration order, each with the
     * five built-in layers; PreStartup and Startup run once, FixedUpdate at a fixed timestep.
     */
    constructor ()
      ensures DefaultScheduled(phases) && pending == []
    {
      phases := DefaultPhases();
      pending := DEFAULT_CHANGES;
      new;
      DefaultReplay(phases, pending);
      var _ := ApplyChanges();
    }

    /** `apply_changes`: drains the queue and runs every change in order; a panicking change stops the run. */
    method ApplyChanges() returns (r: Result<()>)
      modifies this
      ensures pending == []
      ensures r.Ok? <==> Replay(old(phases), old(pending)).Ok?
      ensures r.Ok? ==> phases == Replay(old(phases), old(pending)).value
    {
      if pending == [] {
        return Ok(());
      }
      var drained := pending;
      pending := [];
      var i := 0;
      while i < |drained|
        invariant i <= |drained| && pending == []
        invariant Replay(old(phases), drained) == Replay(phases, drained[i..])
      {
        assert drained[i..][0] == drained[i] && drained[i..][1..] == drained[i + 1..];
        var next := Applied(phases, drained[i]);
        if next.Panic? {
          return Panic(next.message);
        }
        phases := next.value;
        i := i + 1;
      }
      return Ok(());
    }

    /** `add_phase`. */
    method AddPhase(p: Phase) returns (r: Result<()>)
      modifies this`phases
      ensures r.Ok? <==> PhaseAdded(old(phases), p).Ok?
      ensures r.Ok? ==> phases == PhaseAdded(old(phases), p).value
    {
      var next := PhaseAdded(phases, p);
      if next.Panic? {
        return Panic(next.message);
      }
      phases := next.value;
      return Ok(());
    }

    /** `refresh_phase`: takes the phase out and adds it again; panics for an unknown label. */
    method RefreshPhase(name: string) returns (r: Result<()>)
      modifies this`phases
      ensures name !in PhaseNames(old(phases)) ==> r.Panic?
      ensures name in PhaseNames(old(phases)) ==>
        var k := Position(PhaseNames(old(phases)), name).value;
        var next := PhaseAdded(RemoveAt(old(phases), k), old(phases)[k]);
        (r.Ok? <==> next.Ok?) && (r.Ok? ==> phases == next.value)
    {
      var k := Position(PhaseNames(phases), name);
      if k.None? {
        return Panic("System phase not found in scheduler");
      }
      var p := phases[k.value];
      phases := RemoveAt(phases, k.value);
      r := AddPhase(p);
    }

    /** `add_system`: only queues the change; it takes effect at the next `apply_changes`. */
    method AddSystem(system: Access, phase: string, layer: string)
      modifies this`pending
      ensures pending == old(pending) + [SystemAdd(phase, layer, system)]
    {
      pending := pending + [SystemAdd(phase, layer, system)];
    }

    /**
     * `execute_phase`, up to running the systems: pending changes are applied, an unknown
     * label panics, and the phase's policy is dispatched; a finite phase that runs out
     * queues its own removal.
     */
    method ExecutePhase(name: string, timestepIterations: nat, conditionHolds: bool) returns (r: Result<Option<Dispatch>>)
      modifies this
      ensures
        var applied := Replay(old(phases), old(pending));
        r.Ok? ==> applied.Ok? && name in PhaseNames(applied.value)
      ensures
        var applied := Replay(old(phases), old(pending));
        applied.Ok? ==> (r.Panic? <==> (
          name !in PhaseNames(applied.value) ||
          ExecutePolicy(applied.value[Position(PhaseNames(applied.value), name).value].policy, timestepIterations, conditionHolds).Panic?))
      ensures r.Ok? && r.value.Some? ==>
        var applied := Replay(old(phases), old(pending)).value;
        var k := Position(PhaseNames(applied), name).value;
        r.value == ExecutePolicy(applied[k].policy, timestepIterations, conditionHolds).value
        && phases == applied[k := applied[k].(policy := r.value.value.policy)]
        && pending == (if r.value.value.queueRemoval then [PhaseRemove(name)] else [])
      ensures r.Ok? && r.value.None? ==>
        phases == Replay(old(phases), old(pending)).value && pending == []
    {
      var applied := ApplyChanges();
      if applied.Panic? {
        return Panic(applied.message);
      }
      var k := Position(PhaseNames(phases), name);
      if k.None? {
        return Panic("System phase not found in scheduler");
      }
      var dispatch := ExecutePolicy(phases[k.value].policy, timestepIterations, conditionHolds);
      if dispatch.Panic? {
        return Panic(dispatch.message);
      }
      if dispatch.value.Some? {
        var d := dispatch.value.value;
        phases := phases[k.value := phases[k.value].(policy := d.policy)];
        if d.queueRemoval {
          pending := pending + [PhaseRemove(name)];
        }
      }
      return dispatch;
    }
  }
}
