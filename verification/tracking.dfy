/**
 * `EntityTracking` (ecs/entities/tracking.rs): a generational id allocator with a LIFO
 * free list, and the table of entity locations indexed by `EntityId.index`.
 */
module Tracking {
  import opened Wrappers
  import opened Ids

  /** `get_location` on a location table: only the index is consulted, never the generation. */
  function LocationOf(locations: seq<Option<EntityLocation>>, e: EntityId): (r: Option<EntityLocation>)
    ensures e.index >= |locations| ==> r == None
  {
    if e.index < |locations| then locations[e.index] else None
  }

  /** After `set_location(e, l)`, every id sharing `e`'s index reads `l`; other ids are unaffected. */
  lemma SetThenGet(locations: seq<Option<EntityLocation>>, e: EntityId, l: EntityLocation, other: EntityId)
    requires e.index < |locations|
    ensures LocationOf(locations[e.index := Some(l)], other) ==
      if other.index == e.index then Some(l) else LocationOf(locations, other)
  {
  }

  class EntityTracking {
    /** Ids freed for reuse; the most recently freed one is last. */
    var freeIds: seq<EntityId>
    var locations: seq<Option<EntityLocation>>

    constructor ()
      ensures freeIds == [] && locations == []
    {
      freeIds := [];
      locations := [];
    }

    /**
     * `new_id`: reuses the most recently freed id with the next generation, or appends a
     * fresh `None` slot whose position (cast to u32) becomes the index, at generation 0.
     * The locations table only ever grows, and by at most one slot.
     */
    method NewId() returns (id: EntityId)
      modifies this
      ensures old(freeIds) != [] ==>
        var last := old(freeIds)[|old(freeIds)| - 1];
        freeIds == old(freeIds)[..|old(freeIds)| - 1]
        && locations == old(locations)
        && id == EntityId(last.index, (last.generation + 1) % U32_LIMIT)
      ensures old(freeIds) == [] ==>
        freeIds == []
        && locations == old(locations) + [None]
        && id == EntityId(|old(locations)| % U32_LIMIT, 0)
    {
      if |freeIds| > 0 {
        var last := freeIds[|freeIds| - 1];
        freeIds := freeIds[..|freeIds| - 1];
        id := EntityId(last.index, (last.generation + 1) % U32_LIMIT);
      } else {
        var next := |locations| % U32_LIMIT;
        locations := locations + [None];
        id := EntityId(next, 0);
      }
    }

    /** `set_location`: the entity's index must already be tracked. */
    method SetLocation(e: EntityId, l: EntityLocation)
      requires e.index < |locations|
      modifies this`locations
      ensures locations == old(locations)[e.index := Some(l)]
      ensures LocationOf(locations, e) == Some(l)
    {
      locations := locations[e.index := Some(l)];
    }

    function GetLocation(e: EntityId): (r: Option<EntityLocation>)
      reads this
      ensures r == LocationOf(locations, e)
    {
      if e.index < |locations| then locations[e.index] else None
    }

    /**
     * `remove_entity`: for a tracked index, empties the slot, pushes the id on the free list
     * and returns the previous location; for an index out of range, changes nothing.
     */
    method RemoveEntity(e: EntityId) returns (r: Option<EntityLocation>)
      modifies this
      ensures r == LocationOf(old(locations), e)
      ensures e.index < |old(locations)| ==>
        locations == old(locations)[e.index := None] && freeIds == old(freeIds) + [e]
      ensures e.index >= |old(locations)| ==>
        locations == old(locations) && freeIds == old(freeIds)
    {
      if e.index < |locations| {
        r := locations[e.index];
        locations := locations[e.index := None];
        freeIds := freeIds + [e];
      } else {
        r := None;
      }
    }
  }

  /** Freeing an id and allocating again hands back the same index at the next generation. */
  method FreeThenReuse(t: EntityTracking, e: EntityId) returns (again: EntityId)
    requires e.index < |t.locations|
    modifies t
    ensures again == EntityId(e.index, (e.generation + 1) % U32_LIMIT)
    ensures t.GetLocation(again) == None && |t.locations| == |old(t.locations)|
  {
    var _ := t.RemoveEntity(e);
    again := t.NewId();
  }
}
