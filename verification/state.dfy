/**
 * `State<S>` and `NextState<S>` (state/mod.rs): the current value of a state machine and
 * the transition queued for the next frame.
 */
module State {
  import opened Wrappers

  /** `State(pub S)`. */
  class State<S> {
    var value: S

    /** `new`: the state type's default value, which the caller supplies. */
    constructor (default: S)
      ensures value == default
    {
      value := default;
    }

    /** `update`: the next `get` returns `v`. */
    method Update(v: S)
      modifies this
      ensures Get() == v
    {
      value := v;
    }

    function Get(): S
      reads this
    {
      value
    }
  }

  /** `NextState(pub Option<S>)`: a pending transition, if any. */
  class NextState<S> {
    var pending: Option<S>

    /** `new`: nothing pending. */
    constructor ()
      ensures Get() == None
    {
      pending := None;
    }

    /** `set`: queues `v`, replacing whatever was queued before. */
    method Set(v: S)
      modifies this
      ensures Get() == Some(v)
    {
      pending := Some(v);
    }

    /** `take`: hands out the pending value and leaves nothing pending. */
    method Take() returns (r: Option<S>)
      modifies this
      ensures r == old(Get()) && Get() == None
    {
      r := pending;
      pending := None;
    }

    function Get(): Option<S>
      reads this
    {
      pending
    }
  }

  /** Only the last of several `set`s in a frame is taken. */
  method SetSetTake<S>(next: NextState<S>, a: S, b: S) returns (taken: Option<S>)
    modifies next
    ensures taken == Some(b) && next.Get() == None
  {
    next.Set(a);
    next.Set(b);
    taken := next.Take();
  }
}
