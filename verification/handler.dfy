/**
 * `SystemStage` and `SystemHandler` (system/handler.rs): the twelve stages of a frame and a
 * list of registered systems per stage. The twelve `Vec<System>` fields are modelled as one
 * sequence of twelve lists, indexed by the stage's declaration position.
 */
module Handler {
  import opened Phases
  import opened Scheduler

  datatype SystemStage =
    | PreStartup | Startup | First | PreUpdate | FixedUpdate | Update
    | PostUpdate | Last | PreRender | Render | PostRender | FrameEnd

  /** The stage's position in declaration order, which is also the list it owns. */
  function StageIndex(stage: SystemStage): (i: nat)
    ensures i < 12 && PHASE_LABELS[i] == StageName(stage)
  {
    match stage
    case PreStartup => 0
    case Startup => 1
    case First => 2
    case PreUpdate => 3
    case FixedUpdate => 4
    case Update => 5
    case PostUpdate => 6
    case Last => 7
    case PreRender => 8
    case Render => 9
    case PostRender => 10
    case FrameEnd => 11
  }

  /** The stage's name, the label of the scheduler phase of the same name. */
  function StageName(stage: SystemStage): string {
    match stage
    case PreStartup => "PreStartup"
    case Startup => "Startup"
    case First => "First"
    case PreUpdate => "PreUpdate"
    case FixedUpdate => "FixedUpdate"
    case Update => "Update"
    case PostUpdate => "PostUpdate"
    case Last => "Last"
    case PreRender => "PreRender"
    case Render => "Render"
    case PostRender => "PostRender"
    case FrameEnd => "FrameEnd"
  }

  /** Different stages own different lists. */
  lemma StageIndexInjective(a: SystemStage, b: SystemStage)
    ensures StageIndex(a) == StageIndex(b) ==> a == b
  {
  }

  /** `has_fixed_time`. */
  predicate HasFixedTime(stage: SystemStage) {
    stage.FixedUpdate?
  }

  /**
   * `has_fixed_time` agrees with the default scheduler: a stage has a fixed time exactly
   * when the phase of the same name runs on a fixed timestep.
   */
  lemma FixedTimeMatchesDefaultPolicy(ps: seq<Phase>, stage: SystemStage)
    requires DefaultScheduled(ps)
    ensures HasFixedTime(stage) <==> ps[StageIndex(stage)].policy.FixedTimestep?
  {
    var i := StageIndex(stage);
    if i != 0 && i != 1 && i != 4 {
      assert ps[i] == NewPhase(PHASE_LABELS[i]);
    }
  }

  /** The stage whose list `register_system` pushes to, as written: FrameEnd goes to post_render. */
  function RegisterTargetAsWritten(stage: SystemStage): (r: SystemStage)
    ensures stage != FrameEnd ==> r == stage
    ensures stage == FrameEnd ==> r == PostRender
  {
    match stage
    case FrameEnd => PostRender
    case _ => stage
  }

  /** The lists after pushing `system` onto the list of `target`. */
  function Pushed<S>(lists: seq<seq<S>>, target: SystemStage, system: S): (r: seq<seq<S>>)
    requires |lists| == 12
    ensures |r| == 12 && r[StageIndex(target)] == lists[StageIndex(target)] + [system]
    ensures forall i :: 0 <= i < 12 && i != StageIndex(target) ==> r[i] == lists[i]
  {
    lists[StageIndex(target) := lists[StageIndex(target)] + [system]]
  }

  /**
   * As written, a system registered for FrameEnd is never handed out for FrameEnd: it lands
   * at the end of the PostRender list, and the FrameEnd list is unchanged.
   */
  lemma FrameEndRegistrationLost<S>(lists: seq<seq<S>>, system: S)
    requires |lists| == 12
    ensures var r := Pushed(lists, RegisterTargetAsWritten(FrameEnd), system);
      r[StageIndex(FrameEnd)] == lists[StageIndex(FrameEnd)]
      && r[StageIndex(PostRender)] == lists[StageIndex(PostRender)] + [system]
  {
  }

  /** Registering for a stage then reading that stage ends with the system; nothing else moves. */
  lemma RegisterThenGet<S>(lists: seq<seq<S>>, stage: SystemStage, system: S, other: SystemStage)
    requires |lists| == 12
    ensures Pushed(lists, stage, system)[StageIndex(stage)] == lists[StageIndex(stage)] + [system]
    ensures other != stage ==> Pushed(lists, stage, system)[StageIndex(other)] == lists[StageIndex(other)]
  {
    StageIndexInjective(stage, other);
  }

  class SystemHandler<S> {
    var lists: seq<seq<S>>

    ghost predicate Valid()
      reads this
    {
      |lists| == 12
    }

    /** `new`: all twelve lists empty. */
    constructor ()
      ensures Valid() && forall stage :: GetSystems(stage) == []
    {
      lists := seq(12, _ => []);
    }

    /** `register_system` as written, routing FrameEnd to the PostRender list. */
    method RegisterSystemAsWritten(system: S, stage: SystemStage)
      requires Valid()
      modifies this
      ensures Valid() && lists == Pushed(old(lists), RegisterTargetAsWritten(stage), system)
    {
      lists := Pushed(lists, RegisterTargetAsWritten(stage), system);
    }

    /** `register_system`, with every stage routed to its own list. */
    method RegisterSystem(system: S, stage: SystemStage)
      requires Valid()
      modifies this
      ensures Valid() && lists == Pushed(old(lists), stage, system)
      ensures GetSystems(stage) == old(GetSystems(stage)) + [system]
      ensures forall other :: other != stage ==> GetSystems(other) == old(GetSystems(other))
    {
      forall other ensures other != stage ==> Pushed(lists, stage, system)[StageIndex(other)] == lists[StageIndex(other)] {
        RegisterThenGet(lists, stage, system, other);
      }
      lists := Pushed(lists, stage, system);
    }

    /** `get_systems`: the list the stage owns. */
    function GetSystems(stage: SystemStage): (r: seq<S>)
      requires Valid()
      reads this
      ensures r == lists[StageIndex(stage)]
    {
      lists[StageIndex(stage)]
    }
  }
}
