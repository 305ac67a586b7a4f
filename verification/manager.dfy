/**
 * `LightAndShadowManager` (core/lighting/manager.rs): numbers the lights of each shadow
 * casting kind with shadow map layers, sizes the three shadow map arrays and keeps the
 * light storage in step with the list. The GPU arrays are reduced to their layer counts
 * and the storage buffer to the records it holds.
 */
module LightManager {
  import opened Wrappers
  import opened Lights

  /** The shadow map array a light uses, in the order `update` and `create_view` test. */
  datatype ShadowKind = DirectionalMap | PointMap | SpotMap | NoMap

  /** The first type test that holds: directional, then point, then spot. */
  function KindOf(l: Light): ShadowKind {
    if IsDirectional(l) then DirectionalMap
    else if IsPoint(l) then PointMap
    else if IsSpot(l) then SpotMap
    else NoMap
  }

  /** The number of records of kind `k` in `s`. */
  function Count(k: ShadowKind, s: seq<Light>): (n: nat)
    ensures n <= |s|
  {
    if s == [] then 0
    else Count(k, s[..|s| - 1]) + (if KindOf(s[|s| - 1]) == k then 1 else 0)
  }

  /** The number of records of the same kind as record `i` that come before it. */
  function Rank(s: seq<Light>, i: nat): nat
    requires i < |s|
  {
    Count(KindOf(s[i]), s[..i])
  }

  /** Record `i` of `s` once `update` has numbered it: its rank among the records of its kind. */
  function Numbered(s: seq<Light>, i: nat): Light
    requires i < |s|
  {
    if KindOf(s[i]) == NoMap then s[i]
    else s[i].(shadowMapIndex := Rank(s, i))
  }

  function Max(a: nat, b: nat): nat {
    if a < b then b else a
  }

  const DIRECTIONAL_SHADOW_MAP_SIZE: nat := 2048
  const POINT_SHADOW_MAP_SIZE: nat := 512
  const SPOT_SHADOW_MAP_SIZE: nat := 1024

  /** Counting a kind over a longer prefix never gives less. */
  lemma {:induction false} CountMonotone(k: ShadowKind, s: seq<Light>, i: nat, j: nat)
    requires i <= j <= |s|
    ensures Count(k, s[..i]) <= Count(k, s[..j])
    decreases j - i
  {
    if i < j {
      CountMonotone(k, s, i, j - 1);
      assert s[..j][..j - 1] == s[..j - 1];
    }
  }

  /**
   * Every record of a shadow-casting kind gets a layer below the number of records of that
   * kind, and two records of one kind never share a layer.
   */
  lemma NumberedDistinctAndInRange(s: seq<Light>, i: nat, j: nat)
    requires i < j < |s| && KindOf(s[i]) != NoMap
    ensures Numbered(s, i).shadowMapIndex == Rank(s, i) < Count(KindOf(s[i]), s)
    ensures KindOf(s[j]) == KindOf(s[i]) ==> Rank(s, i) < Rank(s, j) && Numbered(s, i).shadowMapIndex < Numbered(s, j).shadowMapIndex
  {
    var k := KindOf(s[i]);
    assert s[..i + 1][..i] == s[..i];
    CountMonotone(k, s, i + 1, j);
    CountMonotone(k, s, j, |s|);
    assert s[..|s|] == s;
  }

  /** The layer a view is created for in one of the three shadow map arrays. */
  datatype View = View(target: ShadowKind, layer: nat)

  /** `create_view`: a one-layer view of the light's layer in its kind's array; panics for ambient lights. */
  function CreateView(l: Light): (r: Result<View>)
    ensures r.Panic? <==> !IsDirectional(l) && !IsPoint(l) && !IsSpot(l)
    ensures r.Ok? ==> r.value.layer == l.shadowMapIndex && r.value.target == KindOf(l)
  {
    match KindOf(l)
    case DirectionalMap => Ok(View(DirectionalMap, l.shadowMapIndex))
    case PointMap => Ok(View(PointMap, l.shadowMapIndex))
    case SpotMap => Ok(View(SpotMap, l.shadowMapIndex))
    case NoMap => Panic("Could not create view, light type not supported for shadow mapping")
  }

  /** `unsafe_create_view`: type code 0, 1, 2 selects the directional, point or spot array. */
  function UnsafeCreateView(index: nat, lightType: nat): (r: Result<View>)
    ensures r.Ok? <==> lightType < 3
    ensures r.Ok? ==> r.value.layer == index && r.value.target != NoMap && TypeCode(r.value.target) == lightType
  {
    if lightType == 0 then Ok(View(DirectionalMap, index))
    else if lightType == 1 then Ok(View(PointMap, index))
    else if lightType == 2 then Ok(View(SpotMap, index))
    else Panic("Could not create view, invalid light type")
  }

  /** The type code `unsafe_create_view` documents for each array. */
  function TypeCode(k: ShadowKind): nat
    requires k != NoMap
  {
    match k
    case DirectionalMap => 0
    case PointMap => 1
    case SpotMap => 2
  }

  /** For a shadow-casting light, `create_view` and `unsafe_create_view` with its type code agree. */
  lemma CreateViewMatchesTypeCode(l: Light)
    requires KindOf(l) != NoMap
    ensures CreateView(l) == UnsafeCreateView(l.shadowMapIndex, TypeCode(KindOf(l)))
  {
  }

  /**
   * The loop of `update`: three counters, one per shadow-casting kind, write each light's
   * rank among its kind into its `shadow_map_index`; other lights are left alone.
   */
  method NumberLights(lights: array<Light>) returns (directional: nat, point: nat, spot: nat)
    modifies lights
    ensures forall i :: 0 <= i < lights.Length ==> lights[i] == Numbered(old(lights[..]), i)
    ensures directional == Count(DirectionalMap, old(lights[..]))
    ensures point == Count(PointMap, old(lights[..]))
    ensures spot == Count(SpotMap, old(lights[..]))
  {
    ghost var s := lights[..];
    directional, point, spot := 0, 0, 0;
    var i := 0;
    while i < lights.Length
      invariant 0 <= i <= lights.Length
      invariant forall j :: 0 <= j < i ==> lights[j] == Numbered(s, j)
      invariant forall j :: i <= j < lights.Length ==> lights[j] == s[j]
      invariant directional == Count(DirectionalMap, s[..i])
      invariant point == Count(PointMap, s[..i])
      invariant spot == Count(SpotMap, s[..i])
    {
      assert s[..i + 1][..i] == s[..i];
      var light := lights[i];
      if IsDirectional(light) {
        lights[i] := light.(shadowMapIndex := directional);
        directional := directional + 1;
      } else if IsPoint(light) {
        lights[i] := light.(shadowMapIndex := point);
        point := point + 1;
      } else if IsSpot(light) {
        lights[i] := light.(shadowMapIndex := spot);
        spot := spot + 1;
      }
      i := i + 1;
    }
    assert s[..lights.Length] == s;
  }

  class LightAndShadowManager {
    /** The records the light storage buffer holds. */
    var stored: seq<Light>
    /** The layer counts of the three shadow map arrays. */
    var directionalLayers: nat
    var pointLayers: nat
    var spotLayers: nat

    /** `new`: one directional layer, six point layers (one cube), one spot layer. */
    constructor ()
      ensures stored == [] && directionalLayers == 1 && pointLayers == 6 && spotLayers == 1
    {
      stored := [];
      directionalLayers := 1;
      pointLayers := 6;
      spotLayers := 1;
    }

    /**
     * `update`: numbers every light in place, then panics unless the point records come in
     * whole cubes; otherwise resizes the arrays to the per-kind counts (at least 1, 6 and 1)
     * and stores the whole list, ambient records included.
     */
    method Update(lights: array<Light>) returns (r: Result<()>)
      modifies this, lights
      ensures forall i :: 0 <= i < lights.Length ==> lights[i] == Numbered(old(lights[..]), i)
      ensures r.Ok? <==> Count(PointMap, old(lights[..])) % 6 == 0
      ensures r.Ok? ==>
        directionalLayers == Max(Count(DirectionalMap, old(lights[..])), 1)
        && pointLayers == Max(Count(PointMap, old(lights[..])), 6)
        && spotLayers == Max(Count(SpotMap, old(lights[..])), 1)
        && stored == lights[..]
      ensures r.Panic? ==>
        stored == old(stored) && directionalLayers == old(directionalLayers)
        && pointLayers == old(pointLayers) && spotLayers == old(spotLayers)
    {
      var directional, point, spot := NumberLights(lights);
      if point % 6 != 0 {
        return Panic("Point lights must be a multiple of 6, one for each cube face");
      }
      directionalLayers := Max(directional, 1);
      pointLayers := Max(point, 6);
      spotLayers := Max(spot, 1);
      stored := lights[..];
      return Ok(());
    }
  }
}
