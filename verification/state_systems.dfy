/**
 * `apply_state_transition` (ecs/state/systems.rs) and `StateTransitionEvent`
 * (ecs/state/event.rs). The two resources are looked up by `try_get_mut`, so each may be
 * missing (`null` here). The event writer's `send` is modelled as a write to the staging
 * buffer of the `Events` of transition events.
 */
module StateSystems {
  import opened Wrappers
  import opened State
  import opened Events

  datatype StateTransitionEvent<S> = StateTransitionEvent(from: S, to: S)

  /** `exiting(state)`: the transition leaves `state`. */
  predicate Exiting<S(==)>(e: StateTransitionEvent<S>, state: S) {
    e.from == state
  }

  /** `entering(state)`: the transition enters `state`. */
  predicate Entering<S(==)>(e: StateTransitionEvent<S>, state: S) {
    e.to == state
  }

  /**
   * `apply_state_transition`: a pending value is always consumed once the `NextState`
   * resource exists. The state changes, and exactly one event from the old to the new
   * value is sent, only when the `State` resource exists and differs from the pending value.
   */
  method ApplyStateTransition<S(==)>(current: State?<S>, next: NextState?<S>, writer: Events<StateTransitionEvent<S>>)
    requires writer.Valid()
    modifies current, next, writer.buffers
    ensures writer.Read() == old(writer.Read())
    ensures next != null ==> next.Get() == None
    ensures
      var pending := if next == null then None else old(next.Get());
      if pending.Some? && current != null && old(current.Get()) != pending.value then
        var sent := StateTransitionEvent(old(current.Get()), pending.value);
        writer.Staged() == old(writer.Staged()) + [sent]
        && Exiting(sent, old(current.Get())) && Entering(sent, current.Get())
        && current.Get() == pending.value
      else
        writer.Staged() == old(writer.Staged())
        && (current != null ==> current.Get() == old(current.Get()))
  {
    if next == null {
      return;
    }
    var pending := next.Take();
    if pending.None? {
      return;
    }
    if current == null {
      return;
    }
    if current.Get() == pending.value {
      return;
    }
    writer.Write(StateTransitionEvent(current.Get(), pending.value));
    current.Update(pending.value);
  }
}
