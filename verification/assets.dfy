/**
 * `Assets<T>` (assets/assets.rs): assets of one type stored under handles. `add` hands out
 * handles from a counter; `insert` stores under a caller-chosen handle and leaves the
 * counter alone. A `Handle<T>` (assets/handle.rs) is its `u64` id; equality and hashing
 * look at the id only.
 */
module Assets {
  import opened Wrappers

  datatype Handle = Handle(id: nat)

  class Assets<T> {
    var storage: map<Handle, T>
    var nextId: nat

    /** `new`: empty, counting from 0. */
    constructor ()
      ensures storage == map[] && nextId == 0
    {
      storage := map[];
      nextId := 0;
    }

    /** `step_id`: the current counter as a handle; the counter moves on by one. */
    method StepId() returns (h: Handle)
      modifies this`nextId
      ensures h.id == old(nextId) && nextId == old(nextId) + 1
    {
      h := Handle(nextId);
      nextId := nextId + 1;
    }

    /** `add`: stores the asset under a handle taken from the counter. */
    method Add(asset: T) returns (h: Handle)
      modifies this
      ensures h.id == old(nextId) && nextId == old(nextId) + 1
      ensures storage == old(storage)[h := asset]
      ensures Get(h) == Some(asset)
    {
      h := StepId();
      storage := storage[h := asset];
    }

    /** `insert`: stores under `h`, replacing what was there; the counter does not move. */
    method Insert(h: Handle, asset: T)
      modifies this`storage
      ensures storage == old(storage)[h := asset]
      ensures Get(h) == Some(asset)
    {
      storage := storage[h := asset];
    }

    /** `get` (and `get_mut`, which finds the same entry). */
    function Get(h: Handle): (r: Option<T>)
      reads this
      ensures r.Some? <==> h in storage
      ensures r.Some? ==> r.value == storage[h]
    {
      Lookup(storage, h)
    }

    /** `remove`: hands back the stored asset, after which the handle finds nothing. */
    method Remove(h: Handle) returns (r: Option<T>)
      modifies this`storage
      ensures r == old(Get(h))
      ensures storage == old(storage) - {h} && Get(h) == None
    {
      r := Get(h);
      storage := storage - {h};
    }
  }

  /** Handles from successive `add`s differ, and each still finds its own asset. */
  method AddTwice<T>(assets: Assets<T>, a: T, b: T) returns (ha: Handle, hb: Handle)
    modifies assets
    ensures ha != hb
    ensures assets.Get(ha) == Some(a) && assets.Get(hb) == Some(b)
  {
    ha := assets.Add(a);
    hb := assets.Add(b);
  }

  /**
   * `insert` under the handle the counter will produce next is overwritten by the next
   * `add`: the counter does not know about inserted handles.
   */
  method InsertThenAdd<T>(assets: Assets<T>, a: T, b: T) returns (h: Handle, added: Handle)
    modifies assets
    ensures h == added && assets.Get(h) == Some(b)
  {
    h := Handle(assets.nextId);
    assets.Insert(h, a);
    added := assets.Add(b);
  }
}
