/**
 * `Entities` (ecs/entities/mod.rs): every archetype of the world, keyed by its sorted type
 * list, and the `EntityTracking` that records where each entity lives. Inserting or
 * removing a component moves the entity to another archetype; the entity swapped into the
 * vacated slot has its location patched.
 */
module Entities {
  import opened Wrappers
  import opened Ids
  import opened Seqs
  import opened Components
  import opened Archetypes
  import opened Tracking
  import Relation

  /** Type ids of the built-in components `EntityId`, `Parent` and `Children`. */
  const ENTITY_ID_TYPE: TypeId := 0
  const PARENT_TYPE: TypeId := 1
  const CHILDREN_TYPE: TypeId := 2

  /** A component value: one of the built-in components, or the data of any other component. */
  datatype Component =
    | IdComponent(id: EntityId)
    | ParentComponent(parent: EntityId)
    | ChildrenComponent(ids: seq<EntityId>)
    | Data(payload: nat)

  type Archs = map<ArchetypeId, Archetype<Component>>

  type Locs = seq<Option<EntityLocation>>

  /** Every archetype is valid and stored under its own sorted type list. */
  ghost predicate ArchetypesValid(archs: Archs) {
    forall aid :: aid in archs ==> archs[aid].Valid() && archs[aid].id == aid && archs[aid].types == aid
  }

  /** `l` names an existing slot that holds an entity with index `x`. */
  ghost predicate Live(archs: Archs, l: EntityLocation, x: nat) {
    l.archetypeId in archs && l.index < |archs[l.archetypeId].entityIds|
    && archs[l.archetypeId].entityIds[l.index].index == x
  }

  /** Every recorded location, except possibly the one of index `x`, is live. */
  ghost predicate LocatedExcept(archs: Archs, locs: Locs, x: int) {
    forall i :: 0 <= i < |locs| && i != x && locs[i].Some? ==> Live(archs, locs[i].value, i)
  }

  /** Every entity stored in an archetype is tracked at exactly that slot. */
  ghost predicate SlotsTracked(archs: Archs, locs: Locs) {
    forall aid, j :: aid in archs && 0 <= j < |archs[aid].entityIds| ==>
      archs[aid].entityIds[j].index < |locs|
      && locs[archs[aid].entityIds[j].index] == Some(EntityLocation(aid, j))
  }

  /** The invariant of `Entities`: tracked locations and archetype slots correspond one to one. */
  ghost predicate Consistent(archs: Archs, locs: Locs) {
    ArchetypesValid(archs) && LocatedExcept(archs, locs, -1) && SlotsTracked(archs, locs)
  }

  /** No archetype slot holds an entity with index `x`. */
  ghost predicate NoSlotHolds(archs: Archs, x: nat) {
    forall aid, j :: aid in archs && 0 <= j < |archs[aid].entityIds| ==> archs[aid].entityIds[j].index != x
  }

  /** The component of type `t` of the entity tracked at `e`'s index, with its ticks. */
  function RowOf(archs: Archs, locs: Locs, e: EntityId, t: TypeId): Option<Row<Component>> {
    match LocationOf(locs, e)
    case None => None
    case Some(l) => SlotRow(archs, l, t)
  }

  /** The component of type `t` stored at location `l`, with its ticks. */
  function SlotRow(archs: Archs, l: EntityLocation, t: TypeId): Option<Row<Component>> {
    if l.archetypeId !in archs then None
    else
      var a := archs[l.archetypeId];
      match TryComponentIndex(a.types, t)
      case None => None
      case Some(k) =>
        if k < |a.columns| && a.columns[k].Aligned() && l.index < a.columns[k].Len()
        then Some(a.columns[k].Get(l.index))
        else None
  }

  function ValueOf(r: Option<Row<Component>>): Option<Component> {
    if r.Some? then Some(r.value.value) else None
  }

  /** `b` is `a` after `remove_entity` at slot `i`. */
  ghost predicate RemovedSlot(a: Archetype<Component>, b: Archetype<Component>, i: nat) {
    a.Valid() && i < a.Len() && b.Valid() && b.id == a.id && b.types == a.types
    && b.entityIds == SwapRemove(a.entityIds, i)
    && |b.columns| == |a.columns|
    && forall k :: 0 <= k < |a.columns| ==> b.columns[k] == a.columns[k].Remove(i)
  }

  /** `remove_entity` at a live slot: the archetype without it, and the components it held in column order. */
  method TakeSlot(a: Archetype<Component>, l: EntityLocation) returns (b: Archetype<Component>, held: seq<TypedComponent<Component>>)
    requires a.Valid() && l.index < a.Len()
    ensures RemovedSlot(a, b, l.index) && |held| == |a.types|
    ensures forall k :: 0 <= k < |held| ==> held[k] == TypedComponent(a.types[k], a.columns[k].Get(l.index))
  {
    var res := RemoveEntity(a, l);
    b, held := res.value.0, res.value.1.components;
  }

  /** The entity that `remove_entity` at slot `i` moves into slot `i`. */
  function Swapped(a: Archetype<Component>, i: nat): Option<EntityId>
    requires i < a.Len()
  {
    if i < a.Len() - 1 then Some(a.entityIds[a.Len() - 1]) else None
  }

  /** The location table after the swapped entity, if any, is recorded at `l`. */
  function AfterSwap(locs: Locs, s: Option<EntityId>, l: EntityLocation): Locs {
    if s.Some? && s.value.index < |locs| then locs[s.value.index := Some(l)] else locs
  }

  /** `c` is `t` after `insert_entity(e, comps)`. */
  ghost predicate AppendedSlot(t: Archetype<Component>, c: Archetype<Component>, e: EntityId, comps: seq<TypedComponent<Component>>) {
    t.Valid() && c.Valid() && c.id == t.id && c.types == t.types && TypesOf(comps) == t.types
    && c.entityIds == t.entityIds + [e]
    && |c.columns| == |t.columns|
    && forall k :: 0 <= k < |t.columns| ==> c.columns[k] == t.columns[k].Insert(comps[k].row)
  }

  /**
   * Removing the entity at `l` and recording the swapped entity at `l` keeps every other
   * location live and every slot tracked; only the removed entity's own index is left stale.
   */
  lemma RemoveStepValid(archs: Archs, locs: Locs, e: EntityId, l: EntityLocation, b: Archetype<Component>)
    requires Consistent(archs, locs) && LocationOf(locs, e) == Some(l) && l.archetypeId in archs
    requires RemovedSlot(archs[l.archetypeId], b, l.index)
    ensures var s := Swapped(archs[l.archetypeId], l.index);
      s.Some? ==> s.value.index < |locs| && s.value.index != e.index
    ensures var archs1 := archs[l.archetypeId := b];
      var locs1 := AfterSwap(locs, Swapped(archs[l.archetypeId], l.index), l);
      ArchetypesValid(archs1) && LocatedExcept(archs1, locs1, e.index) && SlotsTracked(archs1, locs1)
      && NoSlotHolds(archs1, e.index) && |locs1| == |locs|
  {
    var aid := l.archetypeId;
    var a := archs[aid];
    var s := Swapped(a, l.index);
    var last := a.Len() - 1;
    var archs1 := archs[aid := b];
    var locs1 := AfterSwap(locs, s, l);
    assert Live(archs, l, e.index);
    if s.Some? {
      assert locs[s.value.index] == Some(EntityLocation(aid, last));
    }
    forall i | 0 <= i < |locs1| && i != e.index && locs1[i].Some?
      ensures Live(archs1, locs1[i].value, i)
    {
      if s.Some? && i == s.value.index {
        assert b.entityIds[l.index] == s.value;
      } else {
        var l' := locs[i].value;
        assert Live(archs, l', i);
        if l'.archetypeId == aid {
          assert l'.index != l.index;
          assert s.Some? ==> l'.index != last;
          assert b.entityIds[l'.index] == a.entityIds[l'.index];
        }
      }
    }
    forall aid', j | aid' in archs1 && 0 <= j < |archs1[aid'].entityIds|
      ensures archs1[aid'].entityIds[j].index < |locs1|
      ensures locs1[archs1[aid'].entityIds[j].index] == Some(EntityLocation(aid', j))
      ensures archs1[aid'].entityIds[j].index != e.index
    {
      var x := archs1[aid'].entityIds[j];
      if aid' == aid {
        if j == l.index {
          assert x == s.value;
        } else {
          assert x == a.entityIds[j];
          assert locs[x.index] == Some(EntityLocation(aid, j));
        }
      } else {
        assert x == archs[aid'].entityIds[j];
        assert locs[x.index] == Some(EntityLocation(aid', j));
      }
    }
  }

  /** Removing the entity at `l` leaves the components seen through every other index unchanged. */
  lemma RemoveStepFrame(archs: Archs, locs: Locs, e: EntityId, l: EntityLocation, b: Archetype<Component>, y: EntityId, t: TypeId)
    requires Consistent(archs, locs) && LocationOf(locs, e) == Some(l) && l.archetypeId in archs
    requires RemovedSlot(archs[l.archetypeId], b, l.index)
    requires y.index != e.index
    ensures RowOf(archs[l.archetypeId := b], AfterSwap(locs, Swapped(archs[l.archetypeId], l.index), l), y, t)
      == RowOf(archs, locs, y, t)
  {
    var aid := l.archetypeId;
    var a := archs[aid];
    var s := Swapped(a, l.index);
    var last := a.Len() - 1;
    var locs1 := AfterSwap(locs, s, l);
    assert Live(archs, l, e.index);
    if s.Some? && y.index == s.value.index {
      assert locs[s.value.index] == Some(EntityLocation(aid, last));
      assert LocationOf(locs1, y) == Some(l);
      SlotRowAfterRemove(archs, l, b, l.index, last, t);
    } else if LocationOf(locs, y).Some? {
      var l' := LocationOf(locs, y).value;
      assert LocationOf(locs1, y) == Some(l');
      assert Live(archs, l', y.index);
      if l'.archetypeId == aid {
        assert l'.index != l.index;
        assert s.Some? ==> l'.index != last;
        SlotRowAfterRemove(archs, l, b, l'.index, l'.index, t);
      }
    } else {
      assert LocationOf(locs1, y) == None;
    }
  }

  /** After removing slot `l.index`, slot `j` of the archetype holds the rows slot `from` held. */
  lemma SlotRowAfterRemove(archs: Archs, l: EntityLocation, b: Archetype<Component>, j: nat, from: nat, t: TypeId)
    requires l.archetypeId in archs && RemovedSlot(archs[l.archetypeId], b, l.index)
    requires j < |b.entityIds| && from < archs[l.archetypeId].Len()
    requires from == (if j == l.index then archs[l.archetypeId].Len() - 1 else j)
    ensures SlotRow(archs[l.archetypeId := b], EntityLocation(l.archetypeId, j), t)
      == SlotRow(archs, EntityLocation(l.archetypeId, from), t)
  {
    var a := archs[l.archetypeId];
    assert archs[l.archetypeId := b][l.archetypeId] == b;
    match TryComponentIndex(a.types, t)
    case None =>
    case Some(k) =>
      ColumnRemoveGet(a.columns[k], l.index, j, from);
  }

  lemma ColumnRemoveGet(c: Column<Component>, i: nat, j: nat, from: nat)
    requires c.Aligned() && i < c.Len() && j < c.Len() - 1
    requires from == (if j == i then c.Len() - 1 else j)
    ensures c.Remove(i).Get(j) == c.Get(from)
  {
  }

  /** The components `remove_entity` returns for slot `l.index` are exactly the rows the entity had. */
  lemma SlotRows(archs: Archs, l: EntityLocation, comps: seq<TypedComponent<Component>>, ty: TypeId)
    requires ArchetypesValid(archs) && l.archetypeId in archs && l.index < archs[l.archetypeId].Len()
    requires |comps| == |archs[l.archetypeId].types|
    requires forall k :: 0 <= k < |comps| ==>
      comps[k] == TypedComponent(archs[l.archetypeId].types[k], archs[l.archetypeId].columns[k].Get(l.index))
    ensures TypesOf(comps) == archs[l.archetypeId].types
    ensures FindType(comps, ty) == SlotRow(archs, l, ty)
  {
    var a := archs[l.archetypeId];
    assert TypesOf(comps) == a.types;
    match TryComponentIndex(a.types, ty)
    case None =>
    case Some(k) =>
      FindTypeDistinct(comps, k);
  }

  /** An index with no recorded location is held by no slot. */
  lemma NoSlotHoldsUntracked(archs: Archs, locs: Locs, x: nat)
    requires SlotsTracked(archs, locs) && (x < |locs| ==> locs[x] == None)
    ensures NoSlotHolds(archs, x)
  {
    forall aid, j | aid in archs && 0 <= j < |archs[aid].entityIds|
      ensures archs[aid].entityIds[j].index != x
    {
      assert locs[archs[aid].entityIds[j].index].Some?;
    }
  }

  /** Emptying the stale location of an index that no slot holds restores the invariant. */
  lemma ClearStep(archs: Archs, locs: Locs, x: nat)
    requires ArchetypesValid(archs) && LocatedExcept(archs, locs, x) && SlotsTracked(archs, locs)
    requires NoSlotHolds(archs, x) && x < |locs|
    ensures Consistent(archs, locs[x := None])
  {
    forall aid, j | aid in archs && 0 <= j < |archs[aid].entityIds|
      ensures locs[x := None][archs[aid].entityIds[j].index] == Some(EntityLocation(aid, j))
    {
      assert archs[aid].entityIds[j].index != x;
    }
  }

  /**
   * Appending the entity with index `e.index` to archetype `t` (stored under `tid`, or new)
   * and recording its new slot restores the invariant.
   */
  lemma InsertStepValid(archs: Archs, locs: Locs, e: EntityId, tid: ArchetypeId,
                        t: Archetype<Component>, c: Archetype<Component>, comps: seq<TypedComponent<Component>>)
    requires ArchetypesValid(archs) && LocatedExcept(archs, locs, e.index) && SlotsTracked(archs, locs)
    requires NoSlotHolds(archs, e.index) && e.index < |locs|
    requires t.id == tid && t.types == tid
    requires tid in archs ==> archs[tid] == t
    requires tid !in archs ==> t.entityIds == []
    requires AppendedSlot(t, c, e, comps)
    ensures Consistent(archs[tid := c], locs[e.index := Some(EntityLocation(tid, |t.entityIds|))])
  {
    var archs1 := archs[tid := c];
    var nl := EntityLocation(tid, |t.entityIds|);
    var locs1 := locs[e.index := Some(nl)];
    forall i | 0 <= i < |locs1| && locs1[i].Some?
      ensures Live(archs1, locs1[i].value, i)
    {
      if i != e.index {
        var l' := locs[i].value;
        assert Live(archs, l', i);
        if l'.archetypeId == tid {
          assert c.entityIds[l'.index] == t.entityIds[l'.index];
        }
      }
    }
    forall aid, j | aid in archs1 && 0 <= j < |archs1[aid].entityIds|
      ensures archs1[aid].entityIds[j].index < |locs1|
      ensures locs1[archs1[aid].entityIds[j].index] == Some(EntityLocation(aid, j))
    {
      if aid == tid && j < |t.entityIds| {
        assert archs1[aid].entityIds[j] == t.entityIds[j];
      } else if aid != tid {
        assert archs1[aid].entityIds[j] == archs[aid].entityIds[j];
      }
    }
  }

  /** Appending an entity to `t` leaves the components seen through every other index unchanged. */
  lemma InsertStepFrame(archs: Archs, locs: Locs, e: EntityId, tid: ArchetypeId,
                        t: Archetype<Component>, c: Archetype<Component>, comps: seq<TypedComponent<Component>>,
                        y: EntityId, ty: TypeId)
    requires ArchetypesValid(archs) && LocatedExcept(archs, locs, e.index)
    requires e.index < |locs| && y.index != e.index
    requires t.id == tid && t.types == tid
    requires tid in archs ==> archs[tid] == t
    requires tid !in archs ==> t.entityIds == []
    requires AppendedSlot(t, c, e, comps)
    ensures RowOf(archs[tid := c], locs[e.index := Some(EntityLocation(tid, |t.entityIds|))], y, ty)
      == RowOf(archs, locs, y, ty)
  {
    var locs1 := locs[e.index := Some(EntityLocation(tid, |t.entityIds|))];
    assert LocationOf(locs1, y) == LocationOf(locs, y);
    if LocationOf(locs, y).Some? && LocationOf(locs, y).value.archetypeId == tid {
      var l' := LocationOf(locs, y).value;
      assert Live(archs, l', y.index);
      match TryComponentIndex(tid, ty)
      case None =>
      case Some(k) =>
        assert c.columns[k] == t.columns[k].Insert(comps[k].row);
    }
  }

  /** The entity appended to `c` sees exactly the components it was inserted with. */
  lemma InsertStepRow(archs: Archs, locs: Locs, e: EntityId, tid: ArchetypeId,
                      t: Archetype<Component>, c: Archetype<Component>, comps: seq<TypedComponent<Component>>, ty: TypeId)
    requires e.index < |locs| && t.types == tid
    requires AppendedSlot(t, c, e, comps)
    ensures RowOf(archs[tid := c], locs[e.index := Some(EntityLocation(tid, |t.entityIds|))], e, ty)
      == FindType(comps, ty)
  {
    var nl := EntityLocation(tid, |t.entityIds|);
    var archs1 := archs[tid := c];
    assert LocationOf(locs[e.index := Some(nl)], e) == Some(nl);
    assert archs1[tid] == c;
    match TryComponentIndex(tid, ty)
    case None =>
      assert SlotRow(archs1, nl, ty) == None;
    case Some(k) =>
      assert c.columns[k] == t.columns[k].Insert(comps[k].row);
      assert c.columns[k].Get(nl.index) == comps[k].row;
      assert SlotRow(archs1, nl, ty) == Some(comps[k].row);
      assert comps[k].typeId == ty;
      FindTypeDistinct(comps, k);
  }

  /** Replacing one row in place (`set_component`) keeps the invariant: no entity moves. */
  lemma UpdateStepValid(archs: Archs, locs: Locs, l: EntityLocation, c: TypedComponent<Component>, b: Archetype<Component>)
    requires Consistent(archs, locs) && l.archetypeId in archs
    requires SetComponent(archs[l.archetypeId], l, c) == Ok(b)
    ensures Consistent(archs[l.archetypeId := b], locs)
  {
    var archs1 := archs[l.archetypeId := b];
    forall i | 0 <= i < |locs| && locs[i].Some?
      ensures Live(archs1, locs[i].value, i)
    {
      assert Live(archs, locs[i].value, i);
    }
  }

  /** After `set_component` at `e`'s slot, `e` sees the new row for that type and nothing else changes. */
  lemma UpdateStepRow(archs: Archs, locs: Locs, e: EntityId, l: EntityLocation, c: TypedComponent<Component>,
                      b: Archetype<Component>, y: EntityId, ty: TypeId)
    requires Consistent(archs, locs) && LocationOf(locs, e) == Some(l) && l.archetypeId in archs
    requires SetComponent(archs[l.archetypeId], l, c) == Ok(b)
    ensures RowOf(archs[l.archetypeId := b], locs, y, ty)
      == if y.index == e.index && ty == c.typeId then Some(c.row) else RowOf(archs, locs, y, ty)
  {
    var a := archs[l.archetypeId];
    assert archs[l.archetypeId := b][l.archetypeId] == b;
    match LocationOf(locs, y)
    case None =>
    case Some(l') =>
      assert Live(archs, l', y.index);
      if l'.archetypeId == l.archetypeId {
        match TryComponentIndex(a.types, ty)
        case None =>
        case Some(k) =>
          var kc := ComponentIndex(a.types, c.typeId).value;
          assert b.columns == a.columns[kc := a.columns[kc].Set(l.index, c.row)];
          if y.index != e.index {
            assert l'.index != l.index;
          }
      }
  }

  /** In a consistent world a tracked entity sees a component exactly for its archetype's types. */
  lemma RowOfPresent(archs: Archs, locs: Locs, e: EntityId, t: TypeId)
    requires Consistent(archs, locs) && LocationOf(locs, e).Some?
    ensures LocationOf(locs, e).value.archetypeId in archs
    ensures RowOf(archs, locs, e, t).Some? <==> t in LocationOf(locs, e).value.archetypeId
  {
    var l := LocationOf(locs, e).value;
    assert Live(archs, l, e.index);
  }

  /** Ids sharing an index share their rows: rows are found by index. */
  lemma SameIndexRow(archs: Archs, locs: Locs, a: EntityId, b: EntityId, t: TypeId)
    requires a.index == b.index
    ensures RowOf(archs, locs, a, t) == RowOf(archs, locs, b, t)
  {
  }

  /** Ids sharing an index share their `Children`. */
  lemma SameIndexChildren(archs: Archs, locs: Locs, a: EntityId, b: EntityId)
    requires a.index == b.index
    ensures ChildrenOf(archs, locs, a) == ChildrenOf(archs, locs, b)
  {
    SameIndexRow(archs, locs, a, b, CHILDREN_TYPE);
  }

  /** Every recorded location keeps (or keeps lacking) a value; the table keeps its length. */
  ghost predicate SameTracked(before: Locs, after: Locs) {
    |after| == |before| && forall i :: 0 <= i < |before| ==> (after[i].Some? <==> before[i].Some?)
  }

  /** The components `spawn_entity` is given, each stamped `changed_at = added_at = tick`. */
  function Stamped(components: seq<(TypeId, Component)>, tick: Tick): seq<TypedComponent<Component>> {
    seq(|components|, k requires 0 <= k < |components| => TypedComponent(components[k].0, Row(components[k].1, tick, tick)))
  }

  /** What `spawn_entity` stores: the stamped components and the entity's own `EntityId`. */
  function Spawned(e: EntityId, components: seq<(TypeId, Component)>, tick: Tick): seq<TypedComponent<Component>> {
    Stamped(components, tick) + [TypedComponent(ENTITY_ID_TYPE, Row(IdComponent(e), tick, tick))]
  }

  /** The ids in the entity's `Children` component; none when it has no such component. */
  function ChildrenOf(archs: Archs, locs: Locs, e: EntityId): seq<EntityId> {
    match ValueOf(RowOf(archs, locs, e, CHILDREN_TYPE))
    case Some(ChildrenComponent(ids)) => ids
    case _ => []
  }

  /** The entity `e`'s `Parent` component names, if it has one. */
  function ParentOf(archs: Archs, locs: Locs, e: EntityId): Option<EntityId> {
    match ValueOf(RowOf(archs, locs, e, PARENT_TYPE))
    case Some(ParentComponent(p)) => Some(p)
    case _ => None
  }

  /** `e`'s parent lists it among its children, so breaking the parent link detaches it. */
  predicate ListedByParent(archs: Archs, locs: Locs, e: EntityId) {
    ParentOf(archs, locs, e).Some? && e in ChildrenOf(archs, locs, ParentOf(archs, locs, e).value)
  }

  /**
   * The children `despawn_entity` visits: `e`'s `Children` once the parent link is broken,
   * which drops `e` itself from the list when its parent shares its index.
   */
  function ChildrenToUnlink(archs: Archs, locs: Locs, e: EntityId): seq<EntityId> {
    var p := ParentOf(archs, locs, e);
    if p.Some? && p.value.index == e.index then Without(ChildrenOf(archs, locs, e), e)
    else ChildrenOf(archs, locs, e)
  }

  /**
   * `remove_child(e, c)` for each listed child `c` in turn hits a tracked child without a
   * `Parent`: at the first occurrence of some listed id, its `Parent` is missing already, or
   * was removed beforehand for index `detached` (-1 for none), or was removed for an earlier
   * listed id with the same index.
   */
  predicate ChildLoopPanics(archs: Archs, locs: Locs, ids: seq<EntityId>, detached: int) {
    exists k :: 0 <= k < |ids| && ChildPanicsAt(archs, locs, ids, detached, k)
  }

  /** The `k`-th call of that loop is the first to panic, given the rows before the loop. */
  predicate ChildPanicsAt(archs: Archs, locs: Locs, ids: seq<EntityId>, detached: int, k: nat)
    requires k < |ids|
  {
    ids[k] !in ids[..k] && LocationOf(locs, ids[k]).Some?
    && (RowOf(archs, locs, ids[k], PARENT_TYPE).None? || ids[k].index == detached
        || exists j :: 0 <= j < k && ids[j].index == ids[k].index)
  }

  /**
   * The loop over `ids` panics from rows where the `Parent` at index `detached` was removed
   * exactly when it panics from the rows before that removal with `detached` named.
   */
  lemma ShiftedChildLoop(archs0: Archs, locs0: Locs, archs1: Archs, locs1: Locs, ids: seq<EntityId>, detached: int)
    requires SameTracked(locs0, locs1)
    requires forall c :: c in ids ==>
      (RowOf(archs1, locs1, c, PARENT_TYPE).None? <==> RowOf(archs0, locs0, c, PARENT_TYPE).None? || c.index == detached)
    ensures ChildLoopPanics(archs1, locs1, ids, -1) <==> ChildLoopPanics(archs0, locs0, ids, detached)
  {
    forall k | 0 <= k < |ids|
      ensures ChildPanicsAt(archs1, locs1, ids, -1, k) <==> ChildPanicsAt(archs0, locs0, ids, detached, k)
    {
      assert ids[k] in ids;
    }
  }

  /**
   * Every row is as before except `e`'s `Children` and the `Parent` rows at the indices of
   * `ids`.
   */
  ghost predicate RowsKept(archs0: Archs, locs0: Locs, archs: Archs, locs: Locs, e: EntityId, ids: seq<EntityId>) {
    forall y: EntityId, ty: TypeId ::
      (y.index != e.index || ty != CHILDREN_TYPE) && (ty != PARENT_TYPE || forall c :: c in ids ==> c.index != y.index)
      ==> RowOf(archs, locs, y, ty) == RowOf(archs0, locs0, y, ty)
  }

  lemma RowsKeptTrans(archs0: Archs, locs0: Locs, archs1: Archs, locs1: Locs, archs: Archs, locs: Locs,
                      e: EntityId, xs: seq<EntityId>, ys: seq<EntityId>)
    requires RowsKept(archs0, locs0, archs1, locs1, e, xs) && RowsKept(archs1, locs1, archs, locs, e, ys)
    ensures RowsKept(archs0, locs0, archs, locs, e, xs + ys)
  {
  }

  /**
   * One turn of `despawn_entity`'s loop over the children: `remove_child(e, ids[k])` panics
   * exactly at the first panicking index, given the rows before the loop.
   */
  lemma ChildStepPanics(archs0: Archs, locs0: Locs, archs1: Archs, locs1: Locs,
                        e: EntityId, ids: seq<EntityId>, k: nat)
    requires k < |ids| && SameTracked(locs0, locs1)
    requires ChildrenOf(archs1, locs1, e) == WithoutAll(ids, ids[..k])
    requires forall j :: 0 <= j < k ==> RowOf(archs1, locs1, ids[j], PARENT_TYPE) == None
    requires RowsKept(archs0, locs0, archs1, locs1, e, ids[..k])
    ensures ChildPanicsAt(archs0, locs0, ids, -1, k) <==>
      ids[k] in ChildrenOf(archs1, locs1, e) && LocationOf(locs1, ids[k]).Some?
      && RowOf(archs1, locs1, ids[k], PARENT_TYPE).None?
  {
    var c := ids[k];
    InWithoutAll(ids, ids[..k], c);
    assert LocationOf(locs1, c).Some? <==> LocationOf(locs0, c).Some?;
    if exists j :: 0 <= j < k && ids[j].index == c.index {
      var j :| 0 <= j < k && ids[j].index == c.index;
      SameIndexRow(archs1, locs1, ids[j], c, PARENT_TYPE);
    } else {
      assert forall x :: x in ids[..k] ==> x.index != c.index;
      assert RowOf(archs1, locs1, c, PARENT_TYPE) == RowOf(archs0, locs0, c, PARENT_TYPE);
    }
  }

  /**
   * A turn of that loop that does not panic moves its invariant on by one: the next child
   * is gone from `e`'s `Children`, it has no `Parent`, and no other row changed.
   */
  lemma ChildStepKeeps(archs0: Archs, locs0: Locs, archs1: Archs, locs1: Locs, archs2: Archs, locs2: Locs,
                       e: EntityId, ids: seq<EntityId>, k: nat)
    requires k < |ids|
    requires ChildrenOf(archs1, locs1, e) == WithoutAll(ids, ids[..k])
    requires forall j :: 0 <= j < k ==> RowOf(archs1, locs1, ids[j], PARENT_TYPE) == None
    requires RowsKept(archs0, locs0, archs1, locs1, e, ids[..k])
    requires ChildrenOf(archs2, locs2, e) == Without(ChildrenOf(archs1, locs1, e), ids[k])
    requires ids[k] in ChildrenOf(archs1, locs1, e) ==> RowOf(archs2, locs2, ids[k], PARENT_TYPE) == None
    requires ids[k] !in ChildrenOf(archs1, locs1, e) ==>
      RowOf(archs2, locs2, ids[k], PARENT_TYPE) == RowOf(archs1, locs1, ids[k], PARENT_TYPE)
    requires RowsKept(archs1, locs1, archs2, locs2, e, [ids[k]])
    ensures ChildrenOf(archs2, locs2, e) == WithoutAll(ids, ids[..k + 1])
    ensures forall j :: 0 <= j < k + 1 ==> RowOf(archs2, locs2, ids[j], PARENT_TYPE) == None
    ensures RowsKept(archs0, locs0, archs2, locs2, e, ids[..k + 1])
  {
    var c := ids[k];
    WithoutAllStep(ids, ids, k);
    RowsKeptTrans(archs0, locs0, archs1, locs1, archs2, locs2, e, ids[..k], [c]);
    if c !in ChildrenOf(archs1, locs1, e) {
      InWithoutAll(ids, ids[..k], c);
      var i :| 0 <= i < k && ids[i] == c;
    }
    forall j | 0 <= j < k + 1
      ensures RowOf(archs2, locs2, ids[j], PARENT_TYPE) == None
    {
      if ids[j].index == c.index {
        SameIndexRow(archs2, locs2, ids[j], c, PARENT_TYPE);
      }
    }
  }

  class Entities {
    var archetypes: Archs
    const tracking: EntityTracking
    /** The world tick that `Entities` reads through its `current_tick` pointer. */
    var tick: Tick

    ghost predicate Valid()
      reads this, tracking
    {
      Consistent(archetypes, tracking.locations)
    }

    /** `Entities::new` followed by `initialize`: no archetypes, nothing tracked. */
    constructor (tick: Tick)
      ensures Valid() && fresh(tracking) && this.tick == tick
      ensures archetypes == map[] && tracking.locations == [] && tracking.freeIds == []
    {
      archetypes := map[];
      tracking := new EntityTracking();
      this.tick := tick;
    }

    /** `get_component`: the entity's component of type `t`, found through its tracked location. */
    function GetComponent(e: EntityId, t: TypeId): (r: Option<Component>)
      reads this, tracking
      requires Valid()
      ensures r == ValueOf(RowOf(archetypes, tracking.locations, e, t))
      ensures r.Some? <==> LocationOf(tracking.locations, e).Some? && t in LocationOf(tracking.locations, e).value.archetypeId
    {
      match tracking.GetLocation(e)
      case None => None
      case Some(l) =>
        RowOfPresent(archetypes, tracking.locations, e, t);
        var a := archetypes[l.archetypeId];
        match TryComponentIndex(a.types, t)
        case None => None
        case Some(k) => Some(a.columns[k].Get(l.index).value)
    }

    /**
     * Writing a whole row at the entity's slot, as `set_component` does and as a write through
     * the reference returned by `get_component_mut` does. Nothing moves.
     */
    method ReplaceRow(e: EntityId, t: TypeId, row: Row<Component>)
      requires Valid() && RowOf(archetypes, tracking.locations, e, t).Some?
      modifies this
      ensures Valid() && tick == old(tick)
      ensures forall y: EntityId, ty: TypeId ::
        RowOf(archetypes, tracking.locations, y, ty) == (if y.index == e.index && ty == t then Some(row) else old(RowOf(archetypes, tracking.locations, y, ty)))
    {
      var l := tracking.GetLocation(e).value;
      RowOfPresent(archetypes, tracking.locations, e, t);
      assert Live(archetypes, l, e.index);
      var b := SetComponent(archetypes[l.archetypeId], l, TypedComponent(t, row)).value;
      ghost var archs0 := archetypes;
      archetypes := archetypes[l.archetypeId := b];
      UpdateStepValid(archs0, tracking.locations, l, TypedComponent(t, row), b);
      forall y: EntityId, ty: TypeId
        ensures RowOf(archetypes, tracking.locations, y, ty) ==
          if y.index == e.index && ty == t then Some(row) else RowOf(archs0, tracking.locations, y, ty)
      {
        UpdateStepRow(archs0, tracking.locations, e, l, TypedComponent(t, row), b, y, ty);
      }
    }

    /** `get_component_mut`: returns the component and marks it changed at the current tick. */
    method GetComponentMut(e: EntityId, t: TypeId) returns (r: Option<Component>)
      requires Valid()
      modifies this
      ensures Valid() && tick == old(tick)
      ensures r == ValueOf(old(RowOf(archetypes, tracking.locations, e, t)))
      ensures forall y: EntityId, ty: TypeId ::
        RowOf(archetypes, tracking.locations, y, ty) == (if y.index == e.index && ty == t && r.Some?
         then Some(old(RowOf(archetypes, tracking.locations, e, t)).value.(changedAt := tick))
         else old(RowOf(archetypes, tracking.locations, y, ty)))
    {
      var loc := tracking.GetLocation(e);
      if loc.None? {
        return None;
      }
      var l := loc.value;
      RowOfPresent(archetypes, tracking.locations, e, t);
      assert Live(archetypes, l, e.index);
      var a := archetypes[l.archetypeId];
      var k := TryComponentIndex(a.types, t);
      if k.None? {
        return None;
      }
      var row := a.columns[k.value].Get(l.index);
      ReplaceRow(e, t, row.(changedAt := tick));
      r := Some(row.value);
    }

    /**
     * Moves the entity at `l` out of its archetype (already removed into `b`) and into the
     * archetype of `comps`, creating it if needed; the swapped entity is recorded at `l`.
     */
    method Relocate(e: EntityId, l: EntityLocation, b: Archetype<Component>, comps: seq<TypedComponent<Component>>)
      requires Valid() && LocationOf(tracking.locations, e) == Some(l) && l.archetypeId in archetypes
      requires RemovedSlot(archetypes[l.archetypeId], b, l.index)
      requires StrictlySorted(TypesOf(comps))
      modifies this, tracking`locations
      ensures Valid() && tick == old(tick) && SameTracked(old(tracking.locations), tracking.locations)
      ensures forall y: EntityId, ty: TypeId ::
        RowOf(archetypes, tracking.locations, y, ty) ==
          (if y.index == e.index then FindType(comps, ty) else old(RowOf(archetypes, tracking.locations, y, ty)))
    {
      Vacate(e, l, b);
      Settle(e, comps);
    }

    /** The first half of a move: the archetype loses the slot and the swapped entity is recorded at `l`. */
    method Vacate(e: EntityId, l: EntityLocation, b: Archetype<Component>)
      requires Valid() && LocationOf(tracking.locations, e) == Some(l) && l.archetypeId in archetypes
      requires RemovedSlot(archetypes[l.archetypeId], b, l.index)
      modifies this, tracking`locations
      ensures ArchetypesValid(archetypes) && LocatedExcept(archetypes, tracking.locations, e.index)
      ensures SlotsTracked(archetypes, tracking.locations) && NoSlotHolds(archetypes, e.index)
      ensures e.index < |tracking.locations|
      ensures tick == old(tick) && SameTracked(old(tracking.locations), tracking.locations)
      ensures forall y: EntityId, ty: TypeId :: y.index != e.index ==>
        RowOf(archetypes, tracking.locations, y, ty) == old(RowOf(archetypes, tracking.locations, y, ty))
    {
      ghost var archs0, locs0 := archetypes, tracking.locations;
      var swapped := Swapped(archetypes[l.archetypeId], l.index);
      RemoveStepValid(archs0, locs0, e, l, b);
      archetypes := archetypes[l.archetypeId := b];
      if swapped.Some? {
        tracking.SetLocation(swapped.value, l);
      }
      assert tracking.locations == AfterSwap(locs0, swapped, l);
      forall y: EntityId, ty: TypeId | y.index != e.index
        ensures RowOf(archetypes, tracking.locations, y, ty) == RowOf(archs0, locs0, y, ty)
      {
        RemoveStepFrame(archs0, locs0, e, l, b, y, ty);
      }
    }

    /**
     * The second half of a move: the entity is appended to the archetype of `comps`, made
     * with `Archetype::new` when absent, and its new slot is recorded.
     */
    method Settle(e: EntityId, comps: seq<TypedComponent<Component>>)
      requires ArchetypesValid(archetypes) && LocatedExcept(archetypes, tracking.locations, e.index)
      requires SlotsTracked(archetypes, tracking.locations) && NoSlotHolds(archetypes, e.index)
      requires e.index < |tracking.locations| && StrictlySorted(TypesOf(comps))
      modifies this, tracking`locations
      ensures Valid() && tick == old(tick)
      ensures |tracking.locations| == |old(tracking.locations)| && tracking.locations[e.index].Some?
      ensures tracking.locations == old(tracking.locations)[e.index := tracking.locations[e.index]]
      ensures forall ty: TypeId :: RowOf(archetypes, tracking.locations, e, ty) == FindType(comps, ty)
      ensures forall y: EntityId, ty: TypeId :: y.index != e.index ==>
        RowOf(archetypes, tracking.locations, y, ty) == old(RowOf(archetypes, tracking.locations, y, ty))
    {
      ghost var archs1, locs1 := archetypes, tracking.locations;
      var tid := TypesOf(comps);
      var t: Archetype<Component>;
      if tid in archetypes {
        t := archetypes[tid];
      } else {
        assert Distinct(tid);
        t := New<Component>(tid, tid).value;
        StrictlySortedUnique(t.types, tid);
      }
      var c, nl := InsertEntity(t, e, comps);
      archetypes := archetypes[tid := c];
      tracking.SetLocation(e, nl);
      InsertStepValid(archs1, locs1, e, tid, t, c, comps);
      forall ty: TypeId ensures RowOf(archetypes, tracking.locations, e, ty) == FindType(comps, ty) {
        InsertStepRow(archs1, locs1, e, tid, t, c, comps, ty);
      }
      forall y: EntityId, ty: TypeId | y.index != e.index
        ensures RowOf(archetypes, tracking.locations, y, ty) == RowOf(archs1, locs1, y, ty)
      {
        InsertStepFrame(archs1, locs1, e, tid, t, c, comps, y, ty);
      }
    }

    /**
     * `spawn_entity`: panics when a component is an `EntityId`; stamps every component with
     * the current tick, adds the entity's own `EntityId`, sorts by type and appends the entity
     * to the archetype of those types, created with `Archetype::new` when absent. Duplicate
     * types panic here, as the assertion in `Archetype::new` means to; as written that
     * assertion never fires (see `Archetypes.NewAsWrittenAcceptsDuplicates`), so this is the
     * corrected behaviour. The caller hands over a freshly allocated, untracked id.
     */
    method SpawnEntity(e: EntityId, components: seq<(TypeId, Component)>) returns (r: Result<()>)
      requires Valid() && e.index < |tracking.locations| && tracking.GetLocation(e) == None
      modifies this, tracking`locations
      ensures Valid() && tick == old(tick)
      ensures r.Panic? <==>
        ENTITY_ID_TYPE in TypesOf(Stamped(components, tick)) || !Distinct(TypesOf(Stamped(components, tick)))
      ensures r.Panic? ==> archetypes == old(archetypes) && tracking.locations == old(tracking.locations)
      ensures r.Ok? ==> |tracking.locations| == |old(tracking.locations)| && tracking.locations[e.index].Some?
      ensures r.Ok? ==> tracking.locations == old(tracking.locations)[e.index := tracking.locations[e.index]]
      ensures r.Ok? ==> forall ty: TypeId ::
        RowOf(archetypes, tracking.locations, e, ty) == FindType(Spawned(e, components, tick), ty)
      ensures r.Ok? ==> ValueOf(RowOf(archetypes, tracking.locations, e, ENTITY_ID_TYPE)) == Some(IdComponent(e))
      ensures forall y: EntityId, ty: TypeId :: y.index != e.index ==>
        RowOf(archetypes, tracking.locations, y, ty) == old(RowOf(archetypes, tracking.locations, y, ty))
    {
      var stamped := Stamped(components, tick);
      if ENTITY_ID_TYPE in TypesOf(stamped) {
        return Panic("Cannot insert EntityId as a component");
      }
      var id := TypedComponent(ENTITY_ID_TYPE, Row(IdComponent(e), tick, tick));
      var spawned := stamped + [id];
      var comps := SortByKey(spawned, ComponentOrder);
      var tid := TypesOf(comps);
      PushedTypes(stamped, id);
      if tid in archetypes {
        assert Distinct(tid);
      } else if !Distinct(tid) {
        return Panic("Duplicate types in archetype");
      }
      NoSlotHoldsUntracked(archetypes, tracking.locations, e.index);
      ghost var idRow := FindType(spawned, ENTITY_ID_TYPE);
      FindTypeAppend(stamped, id, ENTITY_ID_TYPE);
      Settle(e, comps);
      forall ty: TypeId ensures FindType(comps, ty) == FindType(spawned, ty) {
        FindTypePermutation(comps, spawned, ty);
      }
      r := Ok(());
    }

    /**
     * `insert_component`: panics for the `EntityId` type; drops the value of an untracked
     * entity; overwrites (when `replace`) or drops a value of a type the entity already has;
     * otherwise moves the entity to the archetype of its types plus `t`.
     */
    method InsertComponent(e: EntityId, t: TypeId, v: Component, replace: bool) returns (r: Result<()>)
      requires Valid()
      modifies this, tracking`locations
      ensures Valid() && tick == old(tick) && SameTracked(old(tracking.locations), tracking.locations)
      ensures r.Panic? <==> t == ENTITY_ID_TYPE
      ensures r.Panic? || old(LocationOf(tracking.locations, e)).None? ==>
        archetypes == old(archetypes) && tracking.locations == old(tracking.locations)
      ensures old(RowOf(archetypes, tracking.locations, e, t)).Some? ==> tracking.locations == old(tracking.locations)
      ensures r.Ok? && old(LocationOf(tracking.locations, e)).Some? ==>
        RowOf(archetypes, tracking.locations, e, t) ==
          (if old(RowOf(archetypes, tracking.locations, e, t)).Some? && !replace
           then old(RowOf(archetypes, tracking.locations, e, t))
           else Some(Row(v, tick, tick)))
      ensures forall y: EntityId, ty: TypeId :: y.index != e.index || ty != t ==>
        RowOf(archetypes, tracking.locations, y, ty) == old(RowOf(archetypes, tracking.locations, y, ty))
    {
      if t == ENTITY_ID_TYPE {
        return Panic("Cannot insert EntityId as a component");
      }
      r := Ok(());
      var loc := tracking.GetLocation(e);
      if loc.None? {
        return;
      }
      RowOfPresent(archetypes, tracking.locations, e, t);
      var a := archetypes[loc.value.archetypeId];
      if HasType(a.types, t) {
        if replace {
          ReplaceRow(e, t, Row(v, tick, tick));
        }
        return;
      }
      AddToEntity(e, loc.value, t, Row(v, tick, tick));
    }

    /** The move of `insert_component`: push the new component, sort, and relocate. */
    method AddToEntity(e: EntityId, l: EntityLocation, t: TypeId, row: Row<Component>)
      requires Valid() && LocationOf(tracking.locations, e) == Some(l) && l.archetypeId in archetypes
      requires t !in archetypes[l.archetypeId].types
      modifies this, tracking`locations
      ensures Valid() && tick == old(tick) && SameTracked(old(tracking.locations), tracking.locations)
      ensures forall y: EntityId, ty: TypeId ::
        RowOf(archetypes, tracking.locations, y, ty) ==
          (if y.index == e.index && ty == t then Some(row) else old(RowOf(archetypes, tracking.locations, y, ty)))
    {
      assert Live(archetypes, l, e.index);
      var b, held := TakeSlot(archetypes[l.archetypeId], l);
      var added := held + [TypedComponent(t, row)];
      var comps := SortByKey(added, ComponentOrder);
      SlotRows(archetypes, l, held, t);
      assert Distinct(TypesOf(held));
      PushedTypes(held, TypedComponent(t, row));
      ghost var archs0, locs0 := archetypes, tracking.locations;
      Relocate(e, l, b, comps);
      forall y: EntityId, ty: TypeId
        ensures RowOf(archetypes, tracking.locations, y, ty) ==
          (if y.index == e.index && ty == t then Some(row) else RowOf(archs0, locs0, y, ty))
      {
        if y.index == e.index {
          PushedRows(archs0, l, held, TypedComponent(t, row), ty);
          assert LocationOf(locs0, y) == Some(l);
        }
      }
    }

    /**
     * `remove_component`: panics for the `EntityId` type, and for a tracked entity without a
     * component of type `t` (`component_index`); otherwise moves the entity to the archetype
     * of its types minus `t`. An untracked entity is left alone.
     */
    method RemoveComponent(e: EntityId, t: TypeId) returns (r: Result<()>)
      requires Valid()
      modifies this, tracking`locations
      ensures Valid() && tick == old(tick) && SameTracked(old(tracking.locations), tracking.locations)
      ensures r.Panic? <==> (t == ENTITY_ID_TYPE
        || (old(LocationOf(tracking.locations, e)).Some? && old(RowOf(archetypes, tracking.locations, e, t)).None?))
      ensures r.Panic? || old(LocationOf(tracking.locations, e)).None? ==>
        archetypes == old(archetypes) && tracking.locations == old(tracking.locations)
      ensures forall y: EntityId, ty: TypeId ::
        RowOf(archetypes, tracking.locations, y, ty) ==
          (if y.index == e.index && ty == t && r.Ok? then None else old(RowOf(archetypes, tracking.locations, y, ty)))
    {
      if t == ENTITY_ID_TYPE {
        return Panic("Cannot remove builtin EntityId component");
      }
      r := Ok(());
      var loc := tracking.GetLocation(e);
      if loc.None? {
        return;
      }
      RowOfPresent(archetypes, tracking.locations, e, t);
      var ci := ComponentIndex(archetypes[loc.value.archetypeId].types, t);
      if ci.Panic? {
        return Panic(ci.message);
      }
      RemoveFromEntity(e, loc.value, t, ci.value);
    }

    /** The move of `remove_component`: drop the component at index `ci` and relocate. */
    method RemoveFromEntity(e: EntityId, l: EntityLocation, t: TypeId, ci: nat)
      requires Valid() && LocationOf(tracking.locations, e) == Some(l) && l.archetypeId in archetypes
      requires ci < |archetypes[l.archetypeId].types| && archetypes[l.archetypeId].types[ci] == t
      modifies this, tracking`locations
      ensures Valid() && tick == old(tick) && SameTracked(old(tracking.locations), tracking.locations)
      ensures forall y: EntityId, ty: TypeId ::
        RowOf(archetypes, tracking.locations, y, ty) ==
          (if y.index == e.index && ty == t then None else old(RowOf(archetypes, tracking.locations, y, ty)))
    {
      assert Live(archetypes, l, e.index);
      var b, held := TakeSlot(archetypes[l.archetypeId], l);
      var comps := RemoveAt(held, ci);
      SlotRows(archetypes, l, held, t);
      LeftTypes(archetypes[l.archetypeId].types, held, ci);
      DroppedEntityRows(archetypes, tracking.locations, e, l, held, ci);
      Relocate(e, l, b, comps);
    }

    /**
     * `add_child`: panics when parent and child are the same id or either is untracked;
     * adds the child to the parent's `Children` (creating the component when absent) and
     * gives the child a `Parent` component naming the parent, replacing any previous one.
     */
    method AddChild(p: EntityId, c: EntityId) returns (r: Result<()>)
      requires Valid()
      modifies this, tracking`locations
      ensures Valid() && tick == old(tick) && SameTracked(old(tracking.locations), tracking.locations)
      ensures r.Panic? <==>
        p == c || old(LocationOf(tracking.locations, p)).None? || old(LocationOf(tracking.locations, c)).None?
      ensures r.Panic? ==> archetypes == old(archetypes) && tracking.locations == old(tracking.locations)
      ensures r.Ok? ==>
        ValueOf(RowOf(archetypes, tracking.locations, p, CHILDREN_TYPE))
        == Some(ChildrenComponent(Seqs.AppendIfAbsent(old(ChildrenOf(archetypes, tracking.locations, p)), c)))
      ensures r.Ok? ==> ValueOf(RowOf(archetypes, tracking.locations, c, PARENT_TYPE)) == Some(ParentComponent(p))
      ensures forall y: EntityId, ty: TypeId ::
        (y.index != p.index || ty != CHILDREN_TYPE) && (y.index != c.index || ty != PARENT_TYPE) ==>
        RowOf(archetypes, tracking.locations, y, ty) == old(RowOf(archetypes, tracking.locations, y, ty))
    {
      if p == c {
        return Panic("Parent and child cannot be the same entity");
      }
      if tracking.GetLocation(p).None? {
        return Panic("Parent entity does not exist");
      }
      if tracking.GetLocation(c).None? {
        return Panic("Child entity does not exist");
      }
      AddToChildren(p, c);
      var _ := InsertComponent(c, PARENT_TYPE, ParentComponent(p), true);
      r := Ok(());
    }

    /** The parent's half of `add_child`: `Children::add` on its component, or a new `Children([c])`. */
    method AddToChildren(p: EntityId, c: EntityId)
      requires Valid() && LocationOf(tracking.locations, p).Some?
      modifies this, tracking`locations
      ensures Valid() && tick == old(tick) && SameTracked(old(tracking.locations), tracking.locations)
      ensures ValueOf(RowOf(archetypes, tracking.locations, p, CHILDREN_TYPE))
        == Some(ChildrenComponent(Seqs.AppendIfAbsent(old(ChildrenOf(archetypes, tracking.locations, p)), c)))
      ensures forall y: EntityId, ty: TypeId :: y.index != p.index || ty != CHILDREN_TYPE ==>
        RowOf(archetypes, tracking.locations, y, ty) == old(RowOf(archetypes, tracking.locations, y, ty))
    {
      ghost var kids := ChildrenOf(archetypes, tracking.locations, p);
      var children := GetComponentMut(p, CHILDREN_TYPE);
      if children.Some? && children.value.ChildrenComponent? {
        assert kids == children.value.ids;
        var row := RowOf(archetypes, tracking.locations, p, CHILDREN_TYPE).value;
        var added := row.(value := ChildrenComponent(Seqs.AppendIfAbsent(children.value.ids, c)));
        ReplaceRow(p, CHILDREN_TYPE, added);
        assert RowOf(archetypes, tracking.locations, p, CHILDREN_TYPE) == Some(added);
      } else {
        assert kids == [];
        var _ := InsertComponent(p, CHILDREN_TYPE, ChildrenComponent([c]), true);
        assert RowOf(archetypes, tracking.locations, p, CHILDREN_TYPE) == Some(Row(ChildrenComponent([c]), tick, tick));
      }
    }

    /**
     * `remove_child`: when the parent's `Children` lists the child, drops it there, removes
     * the child's `Parent` (which panics for a tracked child without one), and removes the
     * parent's `Children` once it is empty. The parent's `Children` is marked changed
     * whenever it exists, since it is fetched with `get_component_mut`.
     */
    method RemoveChild(p: EntityId, c: EntityId) returns (r: Result<()>)
      requires Valid()
      modifies this, tracking`locations
      ensures Valid() && tick == old(tick) && SameTracked(old(tracking.locations), tracking.locations)
      ensures r.Panic? <==>
        (c in old(ChildrenOf(archetypes, tracking.locations, p))
         && old(LocationOf(tracking.locations, c)).Some?
         && old(RowOf(archetypes, tracking.locations, c, PARENT_TYPE)).None?)
      ensures r.Ok? ==>
        ChildrenOf(archetypes, tracking.locations, p) == Without(old(ChildrenOf(archetypes, tracking.locations, p)), c)
      ensures r.Ok? && c in old(ChildrenOf(archetypes, tracking.locations, p)) ==>
        RowOf(archetypes, tracking.locations, c, PARENT_TYPE) == None
      ensures r.Ok? && c in old(ChildrenOf(archetypes, tracking.locations, p)) ==>
        (Without(old(ChildrenOf(archetypes, tracking.locations, p)), c) == [] ==>
         RowOf(archetypes, tracking.locations, p, CHILDREN_TYPE) == None)
      ensures forall y: EntityId, ty: TypeId ::
        (y.index != p.index || ty != CHILDREN_TYPE) && (y.index != c.index || ty != PARENT_TYPE) ==>
        RowOf(archetypes, tracking.locations, y, ty) == old(RowOf(archetypes, tracking.locations, y, ty))
      ensures c !in old(ChildrenOf(archetypes, tracking.locations, p)) ==> r.Ok? && forall y: EntityId, ty: TypeId ::
        RowOf(archetypes, tracking.locations, y, ty) ==
          (if y.index == p.index && ty == CHILDREN_TYPE && old(RowOf(archetypes, tracking.locations, p, CHILDREN_TYPE)).Some?
           then Some(old(RowOf(archetypes, tracking.locations, p, CHILDREN_TYPE)).value.(changedAt := tick))
           else old(RowOf(archetypes, tracking.locations, y, ty)))
    {
      r := Ok(());
      var children := GetComponentMut(p, CHILDREN_TYPE);
      if children.Some? && children.value.ChildrenComponent? {
        if c in children.value.ids {
          r := Detach(p, c, children.value.ids);
        } else {
          Relation.RemoveAbsent(children.value.ids, c);
        }
      }
    }

    /** The body of `remove_child` once the parent's `Children` is known to list the child. */
    method Detach(p: EntityId, c: EntityId, ids: seq<EntityId>) returns (r: Result<()>)
      requires Valid() && ValueOf(RowOf(archetypes, tracking.locations, p, CHILDREN_TYPE)) == Some(ChildrenComponent(ids))
      modifies this, tracking`locations
      ensures Valid() && tick == old(tick) && SameTracked(old(tracking.locations), tracking.locations)
      ensures r.Panic? <==>
        old(LocationOf(tracking.locations, c)).Some? && old(RowOf(archetypes, tracking.locations, c, PARENT_TYPE)).None?
      ensures r.Ok? ==> ChildrenOf(archetypes, tracking.locations, p) == Without(ids, c)
      ensures r.Ok? ==> RowOf(archetypes, tracking.locations, c, PARENT_TYPE) == None
      ensures r.Ok? && Without(ids, c) == [] ==> RowOf(archetypes, tracking.locations, p, CHILDREN_TYPE) == None
      ensures forall y: EntityId, ty: TypeId ::
        (y.index != p.index || ty != CHILDREN_TYPE) && (y.index != c.index || ty != PARENT_TYPE) ==>
        RowOf(archetypes, tracking.locations, y, ty) == old(RowOf(archetypes, tracking.locations, y, ty))
    {
      ghost var parentRow := RowOf(archetypes, tracking.locations, c, PARENT_TYPE);
      var rest := Without(ids, c);
      var row := RowOf(archetypes, tracking.locations, p, CHILDREN_TYPE).value;
      var kept := row.(value := ChildrenComponent(rest));
      ReplaceRow(p, CHILDREN_TYPE, kept);
      assert RowOf(archetypes, tracking.locations, p, CHILDREN_TYPE) == Some(kept);
      assert RowOf(archetypes, tracking.locations, c, PARENT_TYPE) == parentRow;
      r := DropParentLink(p, c, rest);
    }

    /** The second half of `remove_child`: the child loses `Parent`, then an emptied `Children` is removed. */
    method DropParentLink(p: EntityId, c: EntityId, rest: seq<EntityId>) returns (r: Result<()>)
      requires Valid() && ValueOf(RowOf(archetypes, tracking.locations, p, CHILDREN_TYPE)) == Some(ChildrenComponent(rest))
      modifies this, tracking`locations
      ensures Valid() && tick == old(tick) && SameTracked(old(tracking.locations), tracking.locations)
      ensures r.Panic? <==>
        old(LocationOf(tracking.locations, c)).Some? && old(RowOf(archetypes, tracking.locations, c, PARENT_TYPE)).None?
      ensures r.Ok? ==> ChildrenOf(archetypes, tracking.locations, p) == rest
      ensures r.Ok? ==> RowOf(archetypes, tracking.locations, c, PARENT_TYPE) == None
      ensures r.Ok? && rest == [] ==> RowOf(archetypes, tracking.locations, p, CHILDREN_TYPE) == None
      ensures forall y: EntityId, ty: TypeId ::
        (y.index != p.index || ty != CHILDREN_TYPE) && (y.index != c.index || ty != PARENT_TYPE) ==>
        RowOf(archetypes, tracking.locations, y, ty) == old(RowOf(archetypes, tracking.locations, y, ty))
    {
      r := RemoveComponent(c, PARENT_TYPE);
      if r.Panic? {
        return;
      }
      ClearEmptyChildren(p, rest);
    }

    /** A `Children` component left empty is removed from its entity. */
    method ClearEmptyChildren(p: EntityId, rest: seq<EntityId>)
      requires Valid() && ValueOf(RowOf(archetypes, tracking.locations, p, CHILDREN_TYPE)) == Some(ChildrenComponent(rest))
      modifies this, tracking`locations
      ensures Valid() && tick == old(tick) && SameTracked(old(tracking.locations), tracking.locations)
      ensures ChildrenOf(archetypes, tracking.locations, p) == rest
      ensures rest == [] ==> RowOf(archetypes, tracking.locations, p, CHILDREN_TYPE) == None
      ensures forall y: EntityId, ty: TypeId :: y.index != p.index || ty != CHILDREN_TYPE ==>
        RowOf(archetypes, tracking.locations, y, ty) == old(RowOf(archetypes, tracking.locations, y, ty))
    {
      if |rest| == 0 {
        assert LocationOf(tracking.locations, p).Some?;
        var _ := RemoveComponent(p, CHILDREN_TYPE);
      }
    }

    /**
     * `despawn_entity`: breaks the link to its parent and to each of its children, then
     * removes the entity from its archetype and from tracking (its id goes on the free list);
     * the entity swapped into its slot is recorded there. An untracked entity is left alone.
     * It panics exactly when `remove_child` does for one of the children.
     */
    method DespawnEntity(e: EntityId) returns (r: Result<()>)
      requires Valid()
      modifies this, tracking
      ensures Valid() && tick == old(tick) && |tracking.locations| == |old(tracking.locations)|
      ensures r.Panic? <==>
        old(ChildLoopPanics(archetypes, tracking.locations, ChildrenToUnlink(archetypes, tracking.locations, e),
                            if ListedByParent(archetypes, tracking.locations, e) then e.index else -1))
      ensures r.Ok? ==> LocationOf(tracking.locations, e) == None
      ensures r.Ok? ==>
        tracking.freeIds == old(tracking.freeIds) + (if old(LocationOf(tracking.locations, e)).Some? then [e] else [])
      ensures r.Ok? ==> forall i :: 0 <= i < |tracking.locations| && i != e.index ==>
        (tracking.locations[i].Some? <==> old(tracking.locations)[i].Some?)
      ensures r.Ok? && old(ParentOf(archetypes, tracking.locations, e)).Some? ==>
        var q := old(ParentOf(archetypes, tracking.locations, e)).value;
        q.index != e.index ==>
          ChildrenOf(archetypes, tracking.locations, q) == Without(old(ChildrenOf(archetypes, tracking.locations, q)), e)
          && (old(ListedByParent(archetypes, tracking.locations, e)) && Without(old(ChildrenOf(archetypes, tracking.locations, q)), e) == []
              ==> RowOf(archetypes, tracking.locations, q, CHILDREN_TYPE) == None)
      ensures r.Ok? ==> forall c :: c in old(ChildrenOf(archetypes, tracking.locations, e)) ==>
        RowOf(archetypes, tracking.locations, c, PARENT_TYPE) == None
      ensures r.Ok? ==> forall y: EntityId, ty: TypeId ::
        y.index != e.index
        && (ty != CHILDREN_TYPE || old(ParentOf(archetypes, tracking.locations, e)).None?
            || y.index != old(ParentOf(archetypes, tracking.locations, e)).value.index)
        && (ty != PARENT_TYPE || forall c :: c in old(ChildrenOf(archetypes, tracking.locations, e)) ==> c.index != y.index)
        ==> RowOf(archetypes, tracking.locations, y, ty) == old(RowOf(archetypes, tracking.locations, y, ty))
    {
      ghost var kids0 := ChildrenOf(archetypes, tracking.locations, e);
      ghost var locs0 := tracking.locations;
      r := Unlink(e);
      if r.Panic? {
        return;
      }
      assert LocationOf(tracking.locations, e).Some? <==> LocationOf(locs0, e).Some?;
      Forget(e);
      forall c | c in kids0
        ensures RowOf(archetypes, tracking.locations, c, PARENT_TYPE) == None
      {
        if c.index == e.index {
          SameIndexRow(archetypes, tracking.locations, c, e, PARENT_TYPE);
        }
      }
    }

    /**
     * The link-breaking half of `despawn_entity`: `remove_child(parent, e)` when `e` has a
     * `Parent`, then `remove_child(e, c)` for each id `c` of its `Children` at that point.
     */
    method Unlink(e: EntityId) returns (r: Result<()>)
      requires Valid()
      modifies this, tracking`locations
      ensures Valid() && tick == old(tick) && SameTracked(old(tracking.locations), tracking.locations)
      ensures r.Panic? <==>
        old(ChildLoopPanics(archetypes, tracking.locations, ChildrenToUnlink(archetypes, tracking.locations, e),
                            if ListedByParent(archetypes, tracking.locations, e) then e.index else -1))
      ensures r.Ok? && old(ParentOf(archetypes, tracking.locations, e)).Some? ==>
        var q := old(ParentOf(archetypes, tracking.locations, e)).value;
        q.index != e.index ==>
          ChildrenOf(archetypes, tracking.locations, q) == Without(old(ChildrenOf(archetypes, tracking.locations, q)), e)
          && (old(ListedByParent(archetypes, tracking.locations, e)) && Without(old(ChildrenOf(archetypes, tracking.locations, q)), e) == []
              ==> RowOf(archetypes, tracking.locations, q, CHILDREN_TYPE) == None)
      ensures r.Ok? ==> forall c :: c in old(ChildrenOf(archetypes, tracking.locations, e)) && c.index != e.index ==>
        RowOf(archetypes, tracking.locations, c, PARENT_TYPE) == None
      ensures r.Ok? ==> forall y: EntityId, ty: TypeId ::
        y.index != e.index
        && (ty != CHILDREN_TYPE || old(ParentOf(archetypes, tracking.locations, e)).None?
            || y.index != old(ParentOf(archetypes, tracking.locations, e)).value.index)
        && (ty != PARENT_TYPE || forall c :: c in old(ChildrenOf(archetypes, tracking.locations, e)) ==> c.index != y.index)
        ==> RowOf(archetypes, tracking.locations, y, ty) == old(RowOf(archetypes, tracking.locations, y, ty))
    {
      ghost var archs0, locs0 := archetypes, tracking.locations;
      ghost var kids0 := ChildrenOf(archs0, locs0, e);
      ghost var parent := ParentOf(archs0, locs0, e);
      ghost var detached := if ListedByParent(archs0, locs0, e) then e.index else -1;
      UnlinkParent(e);
      ghost var archs1, locs1 := archetypes, tracking.locations;
      ghost var ids := ChildrenToUnlink(archs0, locs0, e);
      if parent.Some? && parent.value.index == e.index {
        SameIndexChildren(archs0, locs0, parent.value, e);
        SameIndexChildren(archs1, locs1, parent.value, e);
      }
      assert ChildrenOf(archs1, locs1, e) == ids;
      forall c | c in ids
        ensures RowOf(archs1, locs1, c, PARENT_TYPE).None? <==>
          RowOf(archs0, locs0, c, PARENT_TYPE).None? || c.index == detached
      {
        if c.index == e.index {
          SameIndexRow(archs0, locs0, c, e, PARENT_TYPE);
          SameIndexRow(archs1, locs1, c, e, PARENT_TYPE);
        }
      }
      ShiftedChildLoop(archs0, locs0, archs1, locs1, ids, detached);
      r := UnlinkChildren(e);
      if r.Panic? {
        return;
      }
      forall c | c in kids0 && c.index != e.index
        ensures RowOf(archetypes, tracking.locations, c, PARENT_TYPE) == None
      {
        assert c in ids;
      }
    }

    /**
     * The parent half of `despawn_entity`: `remove_child(parent, e)` when `e` has a `Parent`.
     * It never panics, since `e` itself has the `Parent` that `remove_child` removes.
     */
    method UnlinkParent(e: EntityId)
      requires Valid()
      modifies this, tracking`locations
      ensures Valid() && tick == old(tick) && SameTracked(old(tracking.locations), tracking.locations)
      ensures old(ParentOf(archetypes, tracking.locations, e)).None? ==>
        archetypes == old(archetypes) && tracking.locations == old(tracking.locations)
      ensures old(ParentOf(archetypes, tracking.locations, e)).Some? ==>
        var q := old(ParentOf(archetypes, tracking.locations, e)).value;
        ChildrenOf(archetypes, tracking.locations, q) == Without(old(ChildrenOf(archetypes, tracking.locations, q)), e)
        && (old(ListedByParent(archetypes, tracking.locations, e)) ==>
              RowOf(archetypes, tracking.locations, e, PARENT_TYPE) == None
              && (Without(old(ChildrenOf(archetypes, tracking.locations, q)), e) == [] ==>
                    RowOf(archetypes, tracking.locations, q, CHILDREN_TYPE) == None))
        && (!old(ListedByParent(archetypes, tracking.locations, e)) ==>
              RowOf(archetypes, tracking.locations, e, PARENT_TYPE) == old(RowOf(archetypes, tracking.locations, e, PARENT_TYPE)))
        && forall y: EntityId, ty: TypeId ::
             (y.index != q.index || ty != CHILDREN_TYPE) && (y.index != e.index || ty != PARENT_TYPE) ==>
             RowOf(archetypes, tracking.locations, y, ty) == old(RowOf(archetypes, tracking.locations, y, ty))
    {
      var parent := GetComponent(e, PARENT_TYPE);
      if parent.Some? && parent.value.ParentComponent? {
        var _ := RemoveChild(parent.value.parent, e);
      }
    }

    /**
     * The children half of `despawn_entity`: `remove_child(e, c)` for each id `c` of `e`'s
     * `Children`, in order, stopping at the first panic.
     */
    method UnlinkChildren(e: EntityId) returns (r: Result<()>)
      requires Valid()
      modifies this, tracking`locations
      ensures Valid() && tick == old(tick) && SameTracked(old(tracking.locations), tracking.locations)
      ensures r.Panic? <==>
        old(ChildLoopPanics(archetypes, tracking.locations, ChildrenOf(archetypes, tracking.locations, e), -1))
      ensures r.Ok? ==> ChildrenOf(archetypes, tracking.locations, e) == []
      ensures r.Ok? ==> forall c :: c in old(ChildrenOf(archetypes, tracking.locations, e)) ==>
        RowOf(archetypes, tracking.locations, c, PARENT_TYPE) == None
      ensures r.Ok? ==> forall y: EntityId, ty: TypeId ::
        (y.index != e.index || ty != CHILDREN_TYPE)
        && (ty != PARENT_TYPE || forall c :: c in old(ChildrenOf(archetypes, tracking.locations, e)) ==> c.index != y.index)
        ==> RowOf(archetypes, tracking.locations, y, ty) == old(RowOf(archetypes, tracking.locations, y, ty))
    {
      ghost var archs0, locs0 := archetypes, tracking.locations;
      r := Ok(());
      var children := GetComponent(e, CHILDREN_TYPE);
      if children.None? || !children.value.ChildrenComponent? {
        assert ChildrenOf(archs0, locs0, e) == [];
        return;
      }
      var ids := children.value.ids;
      assert ids == ChildrenOf(archs0, locs0, e);
      var k := 0;
      while k < |ids|
        invariant 0 <= k <= |ids| && r.Ok?
        invariant Valid() && tick == old(tick) && SameTracked(old(tracking.locations), tracking.locations)
        invariant ChildrenOf(archetypes, tracking.locations, e) == WithoutAll(ids, ids[..k])
        invariant forall j :: 0 <= j < k ==> RowOf(archetypes, tracking.locations, ids[j], PARENT_TYPE) == None
        invariant forall i :: 0 <= i < k ==> !ChildPanicsAt(archs0, locs0, ids, -1, i)
        invariant RowsKept(archs0, locs0, archetypes, tracking.locations, e, ids[..k])
      {
        ghost var archs1, locs1 := archetypes, tracking.locations;
        ChildStepPanics(archs0, locs0, archs1, locs1, e, ids, k);
        r := RemoveChild(e, ids[k]);
        if r.Panic? {
          return;
        }
        forall i | 0 <= i < k + 1 ensures !ChildPanicsAt(archs0, locs0, ids, -1, i) {
        }
        assert RowsKept(archs1, locs1, archetypes, tracking.locations, e, [ids[k]]);
        ChildStepKeeps(archs0, locs0, archs1, locs1, archetypes, tracking.locations, e, ids, k);
        k := k + 1;
      }
      assert ids[..k] == ids;
      assert !ChildLoopPanics(archs0, locs0, ids, -1);
      ghost var rest := WithoutAll(ids, ids);
      if rest != [] {
        InWithoutAll(ids, ids, rest[0]);
      }
    }

    /** The storage half of `despawn_entity`: the slot is swap-removed and the id freed. */
    method Forget(e: EntityId)
      requires Valid()
      modifies this, tracking
      ensures Valid() && tick == old(tick) && |tracking.locations| == |old(tracking.locations)|
      ensures LocationOf(tracking.locations, e) == None
      ensures tracking.freeIds ==
        old(tracking.freeIds) + (if old(LocationOf(tracking.locations, e)).Some? then [e] else [])
      ensures forall i :: 0 <= i < |tracking.locations| && i != e.index ==>
        (tracking.locations[i].Some? <==> old(tracking.locations)[i].Some?)
      ensures forall y: EntityId, ty: TypeId :: y.index != e.index ==>
        RowOf(archetypes, tracking.locations, y, ty) == old(RowOf(archetypes, tracking.locations, y, ty))
    {
      var loc := tracking.GetLocation(e);
      if loc.None? {
        return;
      }
      var l := loc.value;
      assert Live(archetypes, l, e.index);
      var a := archetypes[l.archetypeId];
      var res := RemoveEntity(a, l);
      var (b, removed) := res.value;
      ghost var archs0, locs0 := archetypes, tracking.locations;
      RemoveStepValid(archs0, locs0, e, l, b);
      archetypes := archetypes[l.archetypeId := b];
      var _ := tracking.RemoveEntity(e);
      if removed.swapped.Some? {
        tracking.SetLocation(removed.swapped.value, l);
      }
      ghost var after := AfterSwap(locs0, Swapped(a, l.index), l);
      assert tracking.locations == after[e.index := None];
      ClearStep(archetypes, after, e.index);
      forall y: EntityId, ty: TypeId | y.index != e.index
        ensures RowOf(archetypes, tracking.locations, y, ty) == RowOf(archs0, locs0, y, ty)
      {
        RemoveStepFrame(archs0, locs0, e, l, b, y, ty);
        assert LocationOf(tracking.locations, y) == LocationOf(after, y);
      }
    }
  }

  /**
   * The entity moved by `insert_component` sees the pushed component under its type and
   * every component it had before under the others.
   */
  lemma PushedRows(archs: Archs, l: EntityLocation, cs: seq<TypedComponent<Component>>, x: TypedComponent<Component>, ty: TypeId)
    requires ArchetypesValid(archs) && l.archetypeId in archs && l.index < archs[l.archetypeId].Len()
    requires |cs| == |archs[l.archetypeId].types|
    requires forall k :: 0 <= k < |cs| ==>
      cs[k] == TypedComponent(archs[l.archetypeId].types[k], archs[l.archetypeId].columns[k].Get(l.index))
    requires x.typeId !in archs[l.archetypeId].types
    ensures FindType(SortByKey(cs + [x], ComponentOrder), ty) == if ty == x.typeId then Some(x.row) else SlotRow(archs, l, ty)
  {
    SlotRows(archs, l, cs, ty);
    assert Distinct(TypesOf(cs));
    PushedTypes(cs, x);
    FindTypePermutation(SortByKey(cs + [x], ComponentOrder), cs + [x], ty);
    FindTypeAppend(cs, x, ty);
  }

  /** Every id with `e`'s index finds, after dropping component `i`, the rows it had except that one. */
  lemma DroppedEntityRows(archs: Archs, locs: Locs, e: EntityId, l: EntityLocation, cs: seq<TypedComponent<Component>>, i: nat)
    requires ArchetypesValid(archs) && LocationOf(locs, e) == Some(l)
    requires l.archetypeId in archs && l.index < archs[l.archetypeId].Len()
    requires |cs| == |archs[l.archetypeId].types| && i < |cs|
    requires forall k :: 0 <= k < |cs| ==>
      cs[k] == TypedComponent(archs[l.archetypeId].types[k], archs[l.archetypeId].columns[k].Get(l.index))
    ensures forall y: EntityId, ty: TypeId :: y.index == e.index ==>
      FindType(RemoveAt(cs, i), ty) == if ty == archs[l.archetypeId].types[i] then None else RowOf(archs, locs, y, ty)
  {
    forall y: EntityId, ty: TypeId | y.index == e.index
      ensures FindType(RemoveAt(cs, i), ty) == if ty == archs[l.archetypeId].types[i] then None else RowOf(archs, locs, y, ty)
    {
      DroppedRows(archs, l, cs, i, ty);
      assert LocationOf(locs, y) == Some(l);
    }
  }

  lemma DroppedRows(archs: Archs, l: EntityLocation, cs: seq<TypedComponent<Component>>, i: nat, ty: TypeId)
    requires ArchetypesValid(archs) && l.archetypeId in archs && l.index < archs[l.archetypeId].Len()
    requires |cs| == |archs[l.archetypeId].types| && i < |cs|
    requires forall k :: 0 <= k < |cs| ==>
      cs[k] == TypedComponent(archs[l.archetypeId].types[k], archs[l.archetypeId].columns[k].Get(l.index))
    ensures FindType(RemoveAt(cs, i), ty) == if ty == archs[l.archetypeId].types[i] then None else SlotRow(archs, l, ty)
  {
    SlotRows(archs, l, cs, ty);
    assert Distinct(TypesOf(cs));
    FindTypeRemoveAt(cs, i, ty);
  }

  /**
   * Pushing a component of a new type and sorting by type, as `spawn_entity` and
   * `insert_component` do: the types are duplicate-free exactly when they were before, and
   * then the sorted list is strictly increasing.
   */
  lemma PushedTypes(cs: seq<TypedComponent<Component>>, x: TypedComponent<Component>)
    requires x.typeId !in TypesOf(cs)
    ensures Distinct(TypesOf(cs + [x])) <==> Distinct(TypesOf(cs))
    ensures Distinct(TypesOf(SortByKey(cs + [x], ComponentOrder))) <==> Distinct(TypesOf(cs))
    ensures Distinct(TypesOf(cs)) ==> StrictlySorted(TypesOf(SortByKey(cs + [x], ComponentOrder)))
  {
    var ts := TypesOf(cs + [x]);
    TypesOfConcat(cs, [x]);
    assert ts == TypesOf(cs) + [x.typeId];
    DistinctAppend(TypesOf(cs), x.typeId);
    var sorted := SortByKey(ts, Identity);
    TypesOfSort(cs + [x]);
    DistinctPermutation(sorted, ts);
    if Distinct(ts) {
      SortedDistinctStrict(sorted);
    }
  }

  /** The components after `remove_component` drops one type keep strictly sorted types. */
  lemma LeftTypes(types: seq<TypeId>, cs: seq<TypedComponent<Component>>, i: nat)
    requires StrictlySorted(types) && TypesOf(cs) == types && i < |cs|
    ensures StrictlySorted(TypesOf(RemoveAt(cs, i)))
  {
    assert TypesOf(RemoveAt(cs, i)) == RemoveAt(types, i);
    RemoveAtStrictlySorted(types, i);
  }
}
