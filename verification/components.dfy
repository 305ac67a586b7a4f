/**
 * `ComponentsData` (ecs/entities/components.rs): one column of components of a single
 * type, stored in a `BlobVec`, with two tick columns kept in lock-step with it.
 */
module Components {
  import opened Ids
  import opened Blob
  import Seqs

  /** A component together with its `changed_at` and `added_at` ticks. */
  datatype Row<V> = Row(value: V, changedAt: Tick, addedAt: Tick)

  /** The value held by a `ComponentsData`: its type and its three parallel columns. */
  datatype Column<V> = Column(typeId: TypeId, data: seq<V>, changedAt: seq<Tick>, addedAt: seq<Tick>)
  {
    predicate Aligned() {
      |changedAt| == |data| && |addedAt| == |data|
    }

    /** `len`: the length of the data column. */
    function Len(): nat {
      |data|
    }

    /** `get` with `get_ticks`: the component and the ticks stored at the same index. */
    function Get(i: nat): (r: Row<V>)
      requires Aligned() && i < Len()
    {
      Row(data[i], changedAt[i], addedAt[i])
    }

    /** `insert`: the row is appended to all three columns. */
    function Insert(row: Row<V>): (c: Column<V>)
      requires Aligned()
      ensures c.Aligned() && c.typeId == typeId && c.Len() == Len() + 1
      ensures c.Get(Len()) == row
      ensures forall k :: 0 <= k < Len() ==> c.Get(k) == Get(k)
    {
      Column(typeId, data + [row.value], changedAt + [row.changedAt], addedAt + [row.addedAt])
    }

    /**
     * `set(i, data)` as `Archetype::set_component` calls it: the row at `i` is replaced,
     * value and ticks, and every other row is kept.
     */
    function Set(i: nat, row: Row<V>): (c: Column<V>)
      requires Aligned() && i < Len()
      ensures c.Aligned() && c.typeId == typeId && c.Len() == Len()
      ensures c.Get(i) == row && forall k :: 0 <= k < Len() && k != i ==> c.Get(k) == Get(k)
    {
      Column(typeId, data[i := row.value], changedAt[i := row.changedAt], addedAt[i := row.addedAt])
    }

    /** `remove(i)` leaves the columns swap-removed together: the last row now sits at `i`. */
    function Remove(i: nat): (c: Column<V>)
      requires Aligned() && i < Len()
      ensures c.Aligned() && c.typeId == typeId && c.Len() == Len() - 1
      ensures forall k :: 0 <= k < c.Len() ==> c.Get(k) == Get(if k == i then Len() - 1 else k)
    {
      Column(typeId, Seqs.SwapRemove(data, i), Seqs.SwapRemove(changedAt, i), Seqs.SwapRemove(addedAt, i))
    }
  }

  function Empty<V>(typeId: TypeId): (c: Column<V>)
    ensures c.Aligned() && c.Len() == 0 && c.typeId == typeId
  {
    Column(typeId, [], [], [])
  }

  class ComponentsData<V> {
    const typeId: TypeId
    const data: BlobVec<V>
    var changedAt: seq<Tick>
    var addedAt: seq<Tick>

    ghost predicate Valid()
      reads this, data
    {
      data.Valid() && |changedAt| == |data.items| && |addedAt| == |data.items|
    }

    ghost function Model(): (c: Column<V>)
      reads this, data
      requires Valid()
      ensures c.Aligned() && c.typeId == typeId
    {
      Column(typeId, data.items, changedAt, addedAt)
    }

    /** `new`: an empty column whose blob was created with capacity 0, which never panics. */
    constructor (typeId: TypeId, size: nat, hasDrop: bool)
      ensures Valid() && fresh(data) && Model() == Empty(typeId)
    {
      this.typeId := typeId;
      var blob := BlobVec<V>.New(size, hasDrop, 0);
      data := blob.value;
      changedAt := [];
      addedAt := [];
    }

    /** `len` agrees with both tick columns. */
    function Len(): (n: nat)
      reads this, data
      requires Valid()
      ensures n == |changedAt| && n == |addedAt|
    {
      |data.items|
    }

    /** `get`/`get_mut` with `get_ticks`: the row at `i`, which must be below `len`. */
    function Get(i: nat): (r: Row<V>)
      reads this, data
      requires Valid() && i < Len()
      ensures r == Model().Get(i)
    {
      Row(data.items[i], changedAt[i], addedAt[i])
    }

    /** `insert`: pushes the component, then both ticks; a panicking push changes nothing. */
    method Insert(v: V, changed: Tick, added: Tick) returns (ok: bool)
      requires Valid()
      modifies this, data
      ensures Valid()
      ensures ok == Reserved(data.size, |old(data.items)|, old(data.capacity), 1).Some?
      ensures Model() == if ok then old(Model()).Insert(Row(v, changed, added)) else old(Model())
    {
      ok := data.Push(v);
      if ok {
        changedAt := changedAt + [changed];
        addedAt := addedAt + [added];
      }
    }

    /** `remove(i)`: the removed row, and the three columns swap-removed together. */
    method Remove(i: nat) returns (r: Row<V>)
      requires Valid() && i < Len()
      modifies this, data
      ensures Valid()
      ensures r == old(Model()).Get(i)
      ensures Model() == old(Model()).Remove(i)
    {
      var v := data.Remove(i);
      var c := changedAt[i];
      var a := addedAt[i];
      changedAt := Seqs.SwapRemove(changedAt, i);
      addedAt := Seqs.SwapRemove(addedAt, i);
      r := Row(v, c, a);
    }
  }
}
