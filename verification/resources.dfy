/**
 * `Resources` (ecs/resources/resources.rs): one entry per resource type, each holding at
 * most one value (its `BlobVec` is modelled as a sequence) and the ticks at which the
 * value was last changed and added. Removing a resource empties its entry but keeps it.
 */
module Resources {
  import opened Wrappers
  import opened Ids

  /** `ResourceData`: the type id, the stored values and the two tick stamps. */
  datatype ResourceData<V> = ResourceData(typeId: TypeId, data: seq<V>, changedAt: Tick, addedAt: Tick)

  /** What `try_get` hands out: the value and the tick stamps it reads against. */
  datatype Res<V> = Res(value: V, changedAt: Tick, addedAt: Tick, currentTick: Tick, lastRun: Tick)

  type Table<V> = map<TypeId, ResourceData<V>>

  /** Every entry is filed under its own type and holds at most one value. */
  ghost predicate TableValid<V>(m: Table<V>) {
    forall t :: t in m ==> m[t].typeId == t && |m[t].data| <= 1
  }

  /** `contains`: an entry exists and is non-empty. */
  predicate Holds<V>(m: Table<V>, t: TypeId) {
    t in m && |m[t].data| > 0
  }

  /**
   * The table after `insert(value)` at `tick`: an existing entry is cleared, re-ticked and
   * refilled; otherwise `ResourceData::new` creates one. Either way the entry holds exactly
   * the new value with both ticks at `tick`, and every other entry is untouched.
   */
  function Inserted<V>(m: Table<V>, t: TypeId, v: V, tick: Tick): (r: Table<V>)
    ensures t in r && r[t].data == [v] && r[t].changedAt == tick && r[t].addedAt == tick
    ensures r.Keys == m.Keys + {t}
    ensures forall u :: u in m && u != t ==> r[u] == m[u]
  {
    if t in m then
      m[t := m[t].(data := [], changedAt := tick, addedAt := tick).(data := [v])]
    else
      m[t := ResourceData(t, [v], tick, tick)]
  }

  /** `remove_by_type`: the entry, when there is one, is emptied but kept with its ticks. */
  function Emptied<V>(m: Table<V>, t: TypeId): (r: Table<V>)
    ensures r.Keys == m.Keys && !Holds(r, t)
    ensures t in m ==> r[t].changedAt == m[t].changedAt && r[t].addedAt == m[t].addedAt
    ensures forall u :: u in m && u != t ==> r[u] == m[u]
  {
    if t in m then m[t := m[t].(data := [])] else m
  }

  /** Insertion keeps every entry at one value or fewer, and filed under its own type. */
  lemma InsertedValid<V>(m: Table<V>, t: TypeId, v: V, tick: Tick)
    requires TableValid(m)
    ensures TableValid(Inserted(m, t, v, tick))
  {
  }

  /** Removal keeps the table valid. */
  lemma EmptiedValid<V>(m: Table<V>, t: TypeId)
    requires TableValid(m)
    ensures TableValid(Emptied(m, t))
  {
  }

  /** Inserting makes the type present; removing makes it absent; neither touches another type. */
  lemma HoldsAfter<V>(m: Table<V>, t: TypeId, u: TypeId, v: V, tick: Tick)
    ensures Holds(Inserted(m, t, v, tick), u) <==> u == t || Holds(m, u)
    ensures Holds(Emptied(m, t), u) <==> u != t && Holds(m, u)
  {
  }

  /** A second insert replaces the first one completely: the earlier value and ticks are gone. */
  lemma InsertTwice<V>(m: Table<V>, t: TypeId, v: V, w: V, tick1: Tick, tick2: Tick)
    ensures Inserted(Inserted(m, t, v, tick1), t, w, tick2) == Inserted(m, t, w, tick2)
  {
  }

  class Resources<V> {
    var resources: Table<V>
    /** The world tick that `current_tick` points at. */
    var currentTick: Tick
    var systemLastRun: Tick

    ghost predicate Valid()
      reads this
    {
      TableValid(resources)
    }

    /** `new` (`Default`): no entries and zero ticks. */
    constructor ()
      ensures Valid() && resources == map[] && currentTick == 0 && systemLastRun == 0
    {
      resources := map[];
      currentTick := 0;
      systemLastRun := 0;
    }

    /** `initialize_tick`: the world tick read by later operations. */
    method InitializeTick(tick: Tick)
      modifies this`currentTick
      ensures currentTick == tick
    {
      currentTick := tick;
    }

    method SetSystemLastRun(lastRun: Tick)
      modifies this`systemLastRun
      ensures systemLastRun == lastRun
    {
      systemLastRun := lastRun;
    }

    /** `contains::<R>()`. */
    function Contains(t: TypeId): (r: bool)
      reads this
      ensures r <==> t in resources && resources[t].data != []
    {
      t in resources && |resources[t].data| > 0
    }

    /** `insert(value)`: the entry for `t` holds exactly `v`, stamped with the current tick. */
    method Insert(t: TypeId, v: V)
      requires Valid()
      modifies this`resources
      ensures Valid() && resources == Inserted(old(resources), t, v, currentTick)
      ensures Contains(t)
    {
      var tick := currentTick;
      if t in resources {
        var entry := resources[t];
        entry := entry.(data := []);
        entry := entry.(changedAt := tick, addedAt := tick);
        entry := entry.(data := entry.data + [v]);
        assert entry == old(resources)[t].(data := [], changedAt := tick, addedAt := tick).(data := [v]);
        resources := resources[t := entry];
      } else {
        resources := resources[t := ResourceData(t, [v], tick, tick)];
      }
      InsertedValid(old(resources), t, v, tick);
    }

    /** `remove_by_type`: the value is dropped, the entry stays; an absent type is a no-op. */
    method RemoveByType(t: TypeId)
      requires Valid()
      modifies this`resources
      ensures Valid() && resources == Emptied(old(resources), t)
      ensures !Contains(t)
    {
      if t in resources {
        resources := resources[t := resources[t].(data := [])];
      }
      EmptiedValid(old(resources), t);
    }

    /**
     * `remove::<R>(type_id)`: hands back the stored value once and leaves the entry empty;
     * `None` for an absent or empty entry, which is then left as it was.
     */
    method Remove(t: TypeId) returns (r: Option<V>)
      requires Valid()
      modifies this`resources
      ensures Valid() && !Contains(t)
      ensures old(Contains(t)) ==> r == Some(old(resources)[t].data[0]) && resources == Emptied(old(resources), t)
      ensures !old(Contains(t)) ==> r == None && resources == old(resources)
    {
      if t !in resources || |resources[t].data| == 0 {
        return None;
      }
      var entry := resources[t];
      // `data.remove(0)` swap-removes from a one-element buffer.
      var removed := entry.data[0];
      resources := resources[t := entry.(data := [])];
      r := Some(removed);
      EmptiedValid(old(resources), t);
    }

    /** `try_get` (and `try_get_mut`, which reads the same entry): the value with its stamps. */
    function TryGet(t: TypeId): (r: Option<Res<V>>)
      reads this
      ensures r.None? <==> !Contains(t)
      ensures r.Some? ==>
        r.value.value == resources[t].data[0]
        && r.value.changedAt == resources[t].changedAt && r.value.addedAt == resources[t].addedAt
        && r.value.currentTick == currentTick && r.value.lastRun == systemLastRun
    {
      if t in resources && |resources[t].data| > 0 then
        var e := resources[t];
        Some(Res(e.data[0], e.changedAt, e.addedAt, currentTick, systemLastRun))
      else
        None
    }

    /** `get` (and `get_mut`): panics exactly where `try_get` finds nothing. */
    function Get(t: TypeId): (r: Result<Res<V>>)
      reads this
      ensures r.Panic? <==> !Contains(t)
      ensures r.Ok? ==> r.value.value == resources[t].data[0] && r.value.changedAt == resources[t].changedAt
    {
      match TryGet(t)
      case Some(res) => Ok(res)
      case None => Panic("Cannot get resource because it does not exist")
    }
  }

  /** Inserting and then reading gives back the inserted value, stamped with the insert tick. */
  method InsertThenGet<V>(res: Resources<V>, t: TypeId, v: V) returns (got: Res<V>)
    requires res.Valid()
    modifies res`resources
    ensures got.value == v && got.changedAt == res.currentTick && got.addedAt == res.currentTick
  {
    res.Insert(t, v);
    got := res.Get(t).value;
  }

  /** A removed resource can be removed only once: the second attempt yields `None`. */
  method RemoveTwice<V>(res: Resources<V>, t: TypeId) returns (first: Option<V>, second: Option<V>)
    requires res.Valid()
    modifies res`resources
    ensures first.Some? <==> old(res.Contains(t))
    ensures second == None && !res.Contains(t)
  {
    first := res.Remove(t);
    second := res.Remove(t);
  }
}
