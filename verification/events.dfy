/**
 * `Events<E>` (event/mod.rs): a double buffer. Events are written to the staging buffer and
 * become readable from the storage buffer after the next `apply`; the `apply` after that
 * drops them.
 */
module Events {
  /** Index of the storage buffer: 1 when swapped, else 0. */
  function StorageIndex(swapped: bool): (i: nat)
    ensures i < 2 && i != StagingIndex(swapped)
  {
    if swapped then 1 else 0
  }

  /** Index of the staging buffer: the other one. */
  function StagingIndex(swapped: bool): (i: nat)
    ensures i < 2 && (i == 1 <==> !swapped)
  {
    if swapped then 0 else 1
  }

  class Events<E> {
    /** `buffers: [Vec<E>; 2]`. */
    const buffers: array<seq<E>>
    var swapped: bool

    ghost predicate Valid()
      reads this
    {
      buffers.Length == 2
    }

    /** The events readable in this frame. */
    function Read(): (r: seq<E>)
      requires Valid()
      reads this, buffers
      ensures r == buffers[StorageIndex(swapped)]
    {
      buffers[if swapped then 1 else 0]
    }

    /** The events written since the last `apply`. */
    function Staged(): (r: seq<E>)
      requires Valid()
      reads this, buffers
      ensures r == buffers[StagingIndex(swapped)]
    {
      buffers[if swapped then 0 else 1]
    }

    /** `is_empty`: nothing readable in this frame. */
    function IsEmpty(): (r: bool)
      requires Valid()
      reads this, buffers
      ensures r <==> Read() == []
    {
      |buffers[StorageIndex(swapped)]| == 0
    }

    /** `new` (`Default`): two empty buffers, not swapped. */
    constructor ()
      ensures Valid() && fresh(buffers) && !swapped
      ensures Read() == [] && Staged() == []
    {
      buffers := new seq<E>[2](_ => []);
      swapped := false;
    }

    /** `write`: appends to staging only; what is readable now does not change. */
    method Write(event: E)
      requires Valid()
      modifies buffers
      ensures Staged() == old(Staged()) + [event]
      ensures Read() == old(Read())
    {
      var i := StagingIndex(swapped);
      buffers[i] := buffers[i] + [event];
    }

    /**
     * `apply`: clears the storage buffer and flips `swapped`. The staged events become
     * readable, and the new staging buffer (the old storage) starts empty.
     */
    method Apply()
      requires Valid()
      modifies this, buffers
      ensures Read() == old(Staged()) && Staged() == []
    {
      var i := StorageIndex(swapped);
      buffers[i] := [];
      swapped := !swapped;
    }
  }

  /**
   * The lifetime of an event: written after one `apply`, it is not readable until the next
   * `apply`, readable (after the events staged before it, in write order) until the one
   * after that, and gone afterwards.
   */
  method Lifetime<E>(events: Events<E>, e: E) returns (before: seq<E>, during: seq<E>, after: seq<E>)
    requires events.Valid()
    modifies events, events.buffers
    ensures before == old(events.Read())
    ensures during == old(events.Staged()) + [e]
    ensures after == []
  {
    events.Write(e);
    before := events.Read();
    events.Apply();
    during := events.Read();
    events.Apply();
    after := events.Read();
  }
}
