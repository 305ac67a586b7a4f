/**
 * `Children` and `Parent` (ecs/entities/relation.rs): the components that link a parent
 * entity to its children. `Children` keeps a list of child ids without duplicates.
 */
module Relation {
  import opened Ids
  import opened Seqs

  /** `Children::remove` is `retain(|x| x != id)`; it distributes over concatenation, so the order of the kept ids is preserved. */
  lemma {:induction false} RemovedKeepsOrder(a: seq<EntityId>, b: seq<EntityId>, id: EntityId)
    ensures Without(a + b, id) == Without(a, id) + Without(b, id)
  {
    if a == [] {
      assert a + b == b;
    } else {
      assert (a + b)[0] == a[0] && (a + b)[1..] == a[1..] + b;
      RemovedKeepsOrder(a[1..], b, id);
    }
  }

  /** Removing an id that is absent changes nothing. */
  lemma {:induction false} RemoveAbsent(ids: seq<EntityId>, id: EntityId)
    requires id !in ids
    ensures Without(ids, id) == ids
  {
    if ids != [] {
      assert ids == [ids[0]] + ids[1..];
      RemoveAbsent(ids[1..], id);
    }
  }

  /** The `Children` component. */
  class Children {
    var ids: seq<EntityId>

    constructor (ids: seq<EntityId>)
      ensures this.ids == ids
    {
      this.ids := ids;
    }

    /** `add`: a no-op when `id` is already a child, otherwise `id` is appended. */
    method Add(id: EntityId)
      modifies this
      ensures ids == AppendIfAbsent(old(ids), id)
    {
      if id in ids {
        return;
      }
      ids := ids + [id];
    }

    /** `remove`: every occurrence of `id` is dropped. */
    method Remove(id: EntityId)
      modifies this
      ensures ids == Without(old(ids), id)
    {
      ids := Without(ids, id);
    }
  }

  /** The `Parent` component. */
  class Parent {
    var id: EntityId

    constructor (id: EntityId)
      ensures this.id == id
    {
      this.id := id;
    }

    /** `set`: the stored parent id is replaced. */
    method Set(id: EntityId)
      modifies this
      ensures this.id == id
    {
      this.id := id;
    }
  }
}
