/**
 * `RenderAssets<T>` (render_assets/render_assets.rs): GPU-side values stored under render
 * handles, plus three maps that remember which render handle was made for an asset
 * handle, for an (entity, component type) pair and for a resource type. Creating a render
 * value calls into the renderer; the model receives the value that call would produce.
 */
module RenderAssets {
  import opened Wrappers
  import opened Ids

  /** `RenderHandle<T>`: its `u64` id. */
  type RenderHandle = nat

  /** `AssetHandleId`: the asset type and the asset handle's id. */
  datatype AssetHandleId = AssetHandleId(assetType: TypeId, id: nat)

  /** `EntityComponentId`: the entity's raw `u32` id and the component type. */
  datatype EntityComponentId = EntityComponentId(entity: U32, component: TypeId)

  class RenderAssets<T> {
    var storage: map<RenderHandle, T>
    var handleMap: map<AssetHandleId, RenderHandle>
    var entityMap: map<EntityComponentId, RenderHandle>
    var resourceMap: map<TypeId, RenderHandle>
    var nextId: nat

    /** Every render handle in use came from the counter. */
    ghost predicate Valid()
      reads this
    {
      (forall h :: h in storage ==> h < nextId)
      && (forall k :: k in handleMap ==> handleMap[k] < nextId)
      && (forall k :: k in entityMap ==> entityMap[k] < nextId)
      && (forall k :: k in resourceMap ==> resourceMap[k] < nextId)
    }

    /** `new`: nothing stored or mapped, counting from 0. */
    constructor ()
      ensures Valid() && storage == map[] && nextId == 0
      ensures handleMap == map[] && entityMap == map[] && resourceMap == map[]
    {
      storage := map[];
      handleMap := map[];
      entityMap := map[];
      resourceMap := map[];
      nextId := 0;
    }

    /** `insert`: stores under a fresh handle from the counter, never replacing an entry. */
    method Insert(asset: T) returns (h: RenderHandle)
      requires Valid()
      modifies this`storage, this`nextId
      ensures Valid() && h == old(nextId) && nextId == old(nextId) + 1
      ensures h !in old(storage) && storage == old(storage)[h := asset]
      ensures Get(h) == Some(asset)
    {
      h := nextId;
      nextId := nextId + 1;
      storage := storage[h := asset];
    }

    /** `get`. */
    function Get(h: RenderHandle): (r: Option<T>)
      reads this
      ensures r.Some? <==> h in storage
      ensures r.Some? ==> r.value == storage[h]
    {
      Lookup(storage, h)
    }

    /**
     * `get_by_entity`: the value made for this entity and component type. A mapped key
     * whose entry is present is returned as is; a mapped key whose entry was removed is
     * recreated under the same handle; an unmapped key gets a new handle and a mapping.
     */
    method GetByEntity(key: EntityComponentId, created: T) returns (r: T)
      requires Valid()
      modifies this`storage, this`nextId, this`entityMap
      ensures Valid() && key in entityMap && Get(entityMap[key]) == Some(r)
      ensures key in old(entityMap) && old(entityMap[key]) in old(storage) ==>
        r == old(storage[entityMap[key]]) && storage == old(storage)
        && entityMap == old(entityMap) && nextId == old(nextId)
      ensures key in old(entityMap) && old(entityMap[key]) !in old(storage) ==>
        r == created && storage == old(storage)[old(entityMap[key]) := created]
        && entityMap == old(entityMap) && nextId == old(nextId)
      ensures key !in old(entityMap) ==>
        r == created && storage == old(storage)[old(nextId) := created]
        && entityMap == old(entityMap)[key := old(nextId)] && nextId == old(nextId) + 1
    {
      if key in entityMap {
        var h := entityMap[key];
        if h !in storage {
          storage := storage[h := created];
        }
        r := storage[h];
      } else {
        var h := Insert(created);
        entityMap := entityMap[key := h];
        r := created;
      }
    }

    /**
     * `get_by_handle`: as `get_by_entity`, keyed by asset handle. Creating the value looks
     * the asset up first, which panics when the asset store or the asset is missing
     * (`created` is then `Panic`); a value already stored needs no lookup.
     */
    method GetByHandle(key: AssetHandleId, created: Result<T>) returns (r: Result<T>)
      requires Valid()
      modifies this`storage, this`nextId, this`handleMap
      ensures Valid()
      ensures r.Ok? ==> key in handleMap && Get(handleMap[key]) == Some(r.value)
      ensures key in old(handleMap) && old(handleMap[key]) in old(storage) ==>
        r == Ok(old(storage[handleMap[key]])) && storage == old(storage)
        && handleMap == old(handleMap) && nextId == old(nextId)
      ensures key in old(handleMap) && old(handleMap[key]) !in old(storage) ==>
        r == created && handleMap == old(handleMap) && nextId == old(nextId)
        && (created.Ok? ==> storage == old(storage)[old(handleMap[key]) := created.value])
      ensures key !in old(handleMap) ==>
        r == created
        && (created.Ok? ==>
              storage == old(storage)[old(nextId) := created.value]
              && handleMap == old(handleMap)[key := old(nextId)] && nextId == old(nextId) + 1)
    {
      if key in handleMap {
        var h := handleMap[key];
        if h !in storage {
          if created.Panic? {
            return created;
          }
          storage := storage[h := created.value];
        }
        r := Ok(storage[h]);
      } else {
        if created.Panic? {
          return created;
        }
        var h := Insert(created.value);
        handleMap := handleMap[key := h];
        r := created;
      }
    }

    /**
     * `get_by_resource`: as `get_by_entity`, keyed by resource type; with `replace` a mapped
     * entry is dropped first, so the value is always recreated under the existing handle.
     */
    method GetByResource(key: TypeId, created: T, replace: bool) returns (r: T)
      requires Valid()
      modifies this`storage, this`nextId, this`resourceMap
      ensures Valid() && key in resourceMap && Get(resourceMap[key]) == Some(r)
      ensures key in old(resourceMap) && (replace || old(resourceMap[key]) !in old(storage)) ==>
        r == created && storage == old(storage)[old(resourceMap[key]) := created]
        && resourceMap == old(resourceMap) && nextId == old(nextId)
      ensures key in old(resourceMap) && !replace && old(resourceMap[key]) in old(storage) ==>
        r == old(storage[resourceMap[key]]) && storage == old(storage)
        && resourceMap == old(resourceMap) && nextId == old(nextId)
      ensures key !in old(resourceMap) ==>
        r == created && storage == old(storage)[old(nextId) := created]
        && resourceMap == old(resourceMap)[key := old(nextId)] && nextId == old(nextId) + 1
    {
      if key in resourceMap {
        var h := resourceMap[key];
        if replace {
          storage := storage - {h};
        }
        if h !in storage {
          storage := storage[h := created];
        }
        r := storage[h];
      } else {
        var h := Insert(created);
        resourceMap := resourceMap[key := h];
        r := created;
      }
    }

    /** `remove`: drops the mapping and its entry; `None` when the handle was not mapped. */
    method Remove(key: AssetHandleId) returns (r: Option<T>)
      requires Valid()
      modifies this`storage, this`handleMap
      ensures Valid() && key !in handleMap
      ensures key !in old(handleMap) ==> r == None && storage == old(storage) && handleMap == old(handleMap)
      ensures key in old(handleMap) ==>
        r == old(Get(handleMap[key])) && handleMap == old(handleMap) - {key}
        && storage == old(storage) - {old(handleMap[key])}
    {
      if key !in handleMap {
        return None;
      }
      var h := handleMap[key];
      handleMap := handleMap - {key};
      r := Get(h);
      storage := storage - {h};
    }

    /** `remove_by_entity`: as `remove`, for the entity map. */
    method RemoveByEntity(key: EntityComponentId) returns (r: Option<T>)
      requires Valid()
      modifies this`storage, this`entityMap
      ensures Valid() && key !in entityMap
      ensures key !in old(entityMap) ==> r == None && storage == old(storage) && entityMap == old(entityMap)
      ensures key in old(entityMap) ==>
        r == old(Get(entityMap[key])) && entityMap == old(entityMap) - {key}
        && storage == old(storage) - {old(entityMap[key])}
    {
      if key !in entityMap {
        return None;
      }
      var h := entityMap[key];
      entityMap := entityMap - {key};
      r := Get(h);
      storage := storage - {h};
    }
  }

  /** A second `get_by_handle` returns what the first one stored and creates nothing. */
  method GetByHandleTwice<T>(ra: RenderAssets<T>, key: AssetHandleId, first: Result<T>, second: Result<T>)
    returns (r1: Result<T>, r2: Result<T>)
    requires ra.Valid()
    modifies ra
    ensures r1.Ok? ==> r2 == r1
  {
    r1 := ra.GetByHandle(key, first);
    r2 := ra.GetByHandle(key, second);
  }

  /** Two component types of one entity get separate render values. */
  method EntityComponentsSeparate<T>(ra: RenderAssets<T>, entity: U32, c1: TypeId, c2: TypeId, v1: T, v2: T)
    returns (r1: T, r2: T)
    requires ra.Valid() && c1 != c2
    requires EntityComponentId(entity, c1) !in ra.entityMap && EntityComponentId(entity, c2) !in ra.entityMap
    modifies ra
    ensures r1 == v1 && r2 == v2
    ensures EntityComponentId(entity, c1) in ra.entityMap && EntityComponentId(entity, c2) in ra.entityMap
    ensures ra.entityMap[EntityComponentId(entity, c1)] != ra.entityMap[EntityComponentId(entity, c2)]
  {
    r1 := ra.GetByEntity(EntityComponentId(entity, c1), v1);
    r2 := ra.GetByEntity(EntityComponentId(entity, c2), v2);
  }
}
