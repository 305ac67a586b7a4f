/**
 * Sphere meshes (math/shapes/sphere.rs): an icosphere refined by repeated subdivision, with
 * a map from edges to the index of their midpoint so that neighbouring triangles share it,
 * and a UV sphere of rings and sectors. The float functions the generators call (square
 * root, sine and cosine, atan2 and asin) are given as parameters: `unit` normalises a
 * vector, `uvOf` is the spherical texture coordinate of a point, and `direction` and
 * `uvAt` are the unit vector and texture coordinate of a ring and sector.
 */
module Spheres {
  import opened Wrappers
  import opened Meshes

  datatype SphereKind = Icosphere(subdivisions: nat) | UvSphere(rings: nat, sectors: nat)
  datatype Sphere = Sphere(radius: real, kind: SphereKind)

  /** `Sphere::new`: an icosphere with three subdivisions. */
  function NewSphere(radius: real): (s: Sphere)
    ensures s.radius == radius && s.kind == Icosphere(3)
  {
    Sphere(radius, Icosphere(3))
  }

  /** An edge between two vertex indices, smaller index first. */
  datatype EdgeKey = EdgeKey(lo: nat, hi: nat)

  /** `EdgeKey::new`: the edge between `a` and `b`, whichever way round. */
  function NewEdgeKey(a: nat, b: nat): (k: EdgeKey)
    ensures k.lo <= k.hi
    ensures (k.lo == a && k.hi == b) || (k.lo == b && k.hi == a)
  {
    if a < b then EdgeKey(a, b) else EdgeKey(b, a)
  }

  /** An edge has one key, whichever end is named first. */
  lemma EdgeKeySymmetric(a: nat, b: nat)
    ensures NewEdgeKey(a, b) == NewEdgeKey(b, a)
  {
  }

  function Scale(v: Float3, k: real): Float3 {
    Float3(v.x * k, v.y * k, v.z * k)
  }

  function Midpoint(a: Float3, b: Float3): Float3 {
    Float3((a.x + b.x) / 2.0, (a.y + b.y) / 2.0, (a.z + b.z) / 2.0)
  }

  /** Every cached midpoint names an existing position. */
  ghost predicate MapInRange(edgeMap: map<EdgeKey, nat>, n: nat) {
    forall e :: e in edgeMap ==> edgeMap[e] < n
  }

  /**
   * `get_middle_point`: the cached index for an edge seen before, positions untouched;
   * otherwise the normalised midpoint is appended, and its index (the old length) is cached
   * and returned.
   */
  method GetMiddlePoint(v1: nat, v2: nat, positions: seq<Float3>, edgeMap: map<EdgeKey, nat>, unit: Float3 -> Float3)
    returns (index: nat, positions': seq<Float3>, edgeMap': map<EdgeKey, nat>)
    requires NewEdgeKey(v1, v2) !in edgeMap ==> v1 < |positions| && v2 < |positions|
    ensures NewEdgeKey(v1, v2) in edgeMap ==>
      index == edgeMap[NewEdgeKey(v1, v2)] && positions' == positions && edgeMap' == edgeMap
    ensures NewEdgeKey(v1, v2) !in edgeMap ==>
      index == |positions| && positions' == positions + [unit(Midpoint(positions[v1], positions[v2]))]
      && edgeMap' == edgeMap[NewEdgeKey(v1, v2) := index]
    ensures |positions| <= |positions'| && positions'[..|positions|] == positions
    ensures MapInRange(edgeMap, |positions|) ==>
      MapInRange(edgeMap', |positions'|) && index < |positions'| && NewEdgeKey(v1, v2) in edgeMap'
  {
    var edge := NewEdgeKey(v1, v2);
    if edge in edgeMap {
      return edgeMap[edge], positions, edgeMap;
    }
    var midpoint := unit(Midpoint(positions[v1], positions[v2]));
    index := |positions|;
    positions' := positions + [midpoint];
    edgeMap' := edgeMap[edge := index];
  }

  /** A triangle of vertex indices. */
  datatype Tri = Tri(a: nat, b: nat, c: nat)

  ghost predicate TrisInRange(tris: seq<Tri>, n: nat) {
    forall k :: 0 <= k < |tris| ==> tris[k].a < n && tris[k].b < n && tris[k].c < n
  }

  function Pow4(s: nat): nat {
    if s == 0 then 1 else 4 * Pow4(s - 1)
  }

  /** The golden ratio as the f32 value of `(1 + sqrt 5) / 2`. */
  const T: real := 1.618034

  /** The twelve vertices of the icosahedron, before normalisation. */
  const ICOSAHEDRON: seq<Float3> := [
    Float3(-1.0, T, 0.0), Float3(1.0, T, 0.0), Float3(-1.0, -T, 0.0), Float3(1.0, -T, 0.0),
    Float3(0.0, -1.0, T), Float3(0.0, 1.0, T), Float3(0.0, -1.0, -T), Float3(0.0, 1.0, -T),
    Float3(T, 0.0, -1.0), Float3(T, 0.0, 1.0), Float3(-T, 0.0, -1.0), Float3(-T, 0.0, 1.0)]

  /** Its twenty faces. */
  const ICOSAHEDRON_FACES: seq<Tri> := [
    Tri(0, 11, 5), Tri(0, 5, 1), Tri(0, 1, 7), Tri(0, 7, 10), Tri(0, 10, 11),
    Tri(1, 5, 9), Tri(5, 11, 4), Tri(11, 10, 2), Tri(10, 7, 6), Tri(7, 1, 8),
    Tri(3, 9, 4), Tri(3, 4, 2), Tri(3, 2, 6), Tri(3, 6, 8), Tri(3, 8, 9),
    Tri(4, 9, 5), Tri(2, 4, 11), Tri(6, 2, 10), Tri(8, 6, 7), Tri(9, 8, 1)]

  /** The faces as a flat index list, three indices per face in order. */
  function Flatten(tris: seq<Tri>): (r: seq<nat>)
    ensures |r| == 3 * |tris|
    ensures forall k :: 0 <= k < |tris| ==> r[3 * k] == tris[k].a && r[3 * k + 1] == tris[k].b && r[3 * k + 2] == tris[k].c
  {
    if tris == [] then []
    else
      var rest := Flatten(tris[1..]);
      var r := [tris[0].a, tris[0].b, tris[0].c] + rest;
      assert forall k :: 1 <= k < |tris| ==> r[3 * k] == rest[3 * (k - 1)] && tris[k] == tris[1..][k - 1];
      r
  }

  /** A flat index list of faces that name positions below `n` names positions below `n`. */
  lemma FlattenInRange(tris: seq<Tri>, n: nat)
    requires TrisInRange(tris, n)
    ensures forall i :: 0 <= i < |Flatten(tris)| ==> Flatten(tris)[i] < n
  {
    var r := Flatten(tris);
    forall i | 0 <= i < |r| ensures r[i] < n {
      var k := i / 3;
      assert 0 <= k < |tris|;
      if i == 3 * k {
        assert r[3 * k] == tris[k].a;
      } else if i == 3 * k + 1 {
        assert r[3 * k + 1] == tris[k].b;
      } else {
        assert i == 3 * k + 2 && r[3 * k + 2] == tris[k].c;
      }
    }
  }

  /** `b` extends `a`: it starts with all of `a`. */
  ghost predicate Extends<T>(a: seq<T>, b: seq<T>) {
    |a| <= |b| && b[..|a|] == a
  }

  /**
   * The split of one face (v1, v2, v3), with midpoints a, b, c of its edges v1v2, v2v3 and
   * v3v1, into (v1, a, c), (v2, b, a), (v3, c, b) and (a, b, c).
   */
  method SplitFace(t: Tri, positions: seq<Float3>, edgeMap: map<EdgeKey, nat>, unit: Float3 -> Float3)
    returns (four: seq<Tri>, positions': seq<Float3>, edgeMap': map<EdgeKey, nat>)
    requires t.a < |positions| && t.b < |positions| && t.c < |positions| && MapInRange(edgeMap, |positions|)
    ensures |four| == 4 && four[0].a == t.a && four[1].a == t.b && four[2].a == t.c
    ensures four[0].b == four[1].c == four[3].a && four[1].b == four[2].c == four[3].b
    ensures four[2].b == four[0].c == four[3].c
    ensures TrisInRange(four, |positions'|) && MapInRange(edgeMap', |positions'|)
    ensures Extends(positions, positions')
  {
    var a, b, c;
    a, positions', edgeMap' := GetMiddlePoint(t.a, t.b, positions, edgeMap, unit);
    ghost var p1 := positions';
    b, positions', edgeMap' := GetMiddlePoint(t.b, t.c, positions', edgeMap', unit);
    ghost var p2 := positions';
    c, positions', edgeMap' := GetMiddlePoint(t.c, t.a, positions', edgeMap', unit);
    assert Extends(positions, p1) && Extends(p1, p2) && Extends(p2, positions');
    four := [Tri(t.a, a, c), Tri(t.b, b, a), Tri(t.c, c, b), Tri(a, b, c)];
  }

  /** Faces within `n` positions stay within any larger count. */
  lemma TrisInRangeGrows(tris: seq<Tri>, n: nat, m: nat)
    requires TrisInRange(tris, n) && n <= m
    ensures TrisInRange(tris, m)
  {
  }

  /** One subdivision round: every face split in four, in order, with the edge map carried through. */
  method Subdivide(indices: seq<Tri>, positions: seq<Float3>, edgeMap: map<EdgeKey, nat>, unit: Float3 -> Float3)
    returns (newIndices: seq<Tri>, positions': seq<Float3>, edgeMap': map<EdgeKey, nat>)
    requires TrisInRange(indices, |positions|) && MapInRange(edgeMap, |positions|)
    ensures |newIndices| == 4 * |indices|
    ensures TrisInRange(newIndices, |positions'|) && MapInRange(edgeMap', |positions'|)
    ensures Extends(positions, positions')
    ensures forall k :: 0 <= k < |indices| ==>
      newIndices[4 * k].a == indices[k].a && newIndices[4 * k + 1].a == indices[k].b
      && newIndices[4 * k + 2].a == indices[k].c
  {
    newIndices, positions', edgeMap' := [], positions, edgeMap;
    for k := 0 to |indices|
      invariant |newIndices| == 4 * k
      invariant Extends(positions, positions')
      invariant TrisInRange(newIndices, |positions'|) && MapInRange(edgeMap', |positions'|)
      invariant forall j :: 0 <= j < k ==>
        newIndices[4 * j].a == indices[j].a && newIndices[4 * j + 1].a == indices[j].b
        && newIndices[4 * j + 2].a == indices[j].c
    {
      ghost var before := positions';
      var four;
      four, positions', edgeMap' := SplitFace(indices[k], positions', edgeMap', unit);
      assert positions'[..|positions|] == positions'[..|before|][..|positions|];
      TrisInRangeGrows(newIndices, |before|, |positions'|);
      newIndices := newIndices + four;
    }
  }

  /**
   * `generate_icosphere`: the twelve normalised icosahedron vertices and twenty faces,
   * subdivided `subdivisions` times with one edge map shared by all rounds, then scaled by
   * the radius; one normal and one uv per position; the faces flattened to an index list.
   */
  method GenerateIcosphere(radius: real, subdivisions: nat, unit: Float3 -> Float3, uvOf: Float3 -> Float2)
    returns (positions: seq<Float3>, uvs: seq<Float2>, normals: seq<Float3>, indices: seq<nat>)
    ensures |indices| == 3 * 20 * Pow4(subdivisions)
    ensures forall i :: 0 <= i < |indices| ==> indices[i] < |positions|
    ensures |positions| >= 12 && |normals| == |positions| && |uvs| == |positions|
    ensures forall i :: 0 <= i < 12 ==> positions[i] == Scale(unit(ICOSAHEDRON[i]), radius)
    ensures forall i :: 0 <= i < |positions| ==> normals[i] == unit(positions[i]) && uvs[i] == uvOf(positions[i])
  {
    positions := ICOSAHEDRON;
    var tris := ICOSAHEDRON_FACES;
    for i := 0 to |positions|
      invariant |positions| == 12
      invariant forall j :: 0 <= j < i ==> positions[j] == unit(ICOSAHEDRON[j])
      invariant forall j :: i <= j < 12 ==> positions[j] == ICOSAHEDRON[j]
    {
      positions := positions[i := unit(positions[i])];
    }
    ghost var corners := positions;
    var edgeMap: map<EdgeKey, nat> := map[];
    for s := 0 to subdivisions
      invariant |tris| == 20 * Pow4(s)
      invariant |positions| >= 12 && positions[..12] == corners
      invariant TrisInRange(tris, |positions|) && MapInRange(edgeMap, |positions|)
    {
      ghost var before := positions;
      tris, positions, edgeMap := Subdivide(tris, positions, edgeMap, unit);
      assert positions[..12] == before[..|before|][..12];
    }
    ghost var unscaled := positions;
    for i := 0 to |positions|
      invariant |positions| == |unscaled|
      invariant forall j :: 0 <= j < i ==> positions[j] == Scale(unscaled[j], radius)
      invariant forall j :: i <= j < |positions| ==> positions[j] == unscaled[j]
    {
      positions := positions[i := Scale(positions[i], radius)];
    }
    assert forall i :: 0 <= i < 12 ==> unscaled[i] == corners[i];
    normals, uvs := [], [];
    for i := 0 to |positions|
      invariant |normals| == i && |uvs| == i
      invariant forall j :: 0 <= j < i ==> normals[j] == unit(positions[j]) && uvs[j] == uvOf(positions[j])
    {
      normals := normals + [unit(positions[i])];
      uvs := uvs + [uvOf(positions[i])];
    }
    indices := Flatten(tris);
    FlattenInRange(tris, |positions|);
  }

  /** The index of ring `r`, sector `s` among the `(rings + 1)(sectors + 1)` UV-sphere vertices. */
  function GridIndex(r: nat, s: nat, sectors: nat): nat {
    r * (sectors + 1) + s
  }

  /** Vertices of earlier rings come before every vertex of ring `r`. */
  lemma GridIndexBefore(r': nat, s': nat, r: nat, sectors: nat)
    requires r' < r && s' <= sectors
    ensures GridIndex(r', s', sectors) < r * (sectors + 1)
  {
    assert (r' + 1) * (sectors + 1) <= r * (sectors + 1);
  }

  /** The first index of the two triangles of the quad at ring `r`, sector `s`. */
  function QuadStart(r: nat, s: nat, sectors: nat): nat {
    6 * (r * sectors + s)
  }

  /** Quads of earlier rings come before every quad of ring `r`. */
  lemma QuadStartBefore(r': nat, s': nat, r: nat, sectors: nat)
    requires r' < r && s' < sectors
    ensures QuadStart(r', s', sectors) + 6 <= QuadStart(r, 0, sectors)
  {
    assert (r' + 1) * sectors <= r * sectors;
  }

  /** The two triangles of the quad at ring `r`, sector `s`. */
  function Quad(r: nat, s: nat, sectors: nat): seq<nat> {
    var cur := GridIndex(r, s, sectors);
    var next := cur + sectors + 1;
    [cur, next, cur + 1, cur + 1, next, next + 1]
  }

  /** A quad of ring `r < rings` and sector `s < sectors` names vertices of the grid. */
  lemma QuadInGrid(r: nat, s: nat, rings: nat, sectors: nat)
    requires r < rings && s < sectors
    ensures forall i :: 0 <= i < 6 ==> Quad(r, s, sectors)[i] < (rings + 1) * (sectors + 1)
  {
    assert GridIndex(r, s, sectors) + sectors + 2 == GridIndex(r + 1, s + 1, sectors);
    assert (r + 1) * (sectors + 1) <= rings * (sectors + 1);
  }

  /** The vertices of a UV sphere, ring-major; every vertex is `direction` scaled by the radius. */
  ghost predicate GridVertices(positions: seq<Float3>, normals: seq<Float3>, uvs: seq<Float2>, radius: real,
                               rows: nat, sectors: nat, direction: (nat, nat) -> Float3, uvAt: (nat, nat) -> Float2)
  {
    forall r, s :: 0 <= r < rows && 0 <= s <= sectors ==>
      GridIndex(r, s, sectors) < |positions| && GridIndex(r, s, sectors) < |normals| && GridIndex(r, s, sectors) < |uvs|
      && positions[GridIndex(r, s, sectors)] == Scale(direction(r, s), radius)
      && normals[GridIndex(r, s, sectors)] == direction(r, s)
      && uvs[GridIndex(r, s, sectors)] == uvAt(r, s)
  }

  /** The index list of a UV sphere: the two triangles of every quad of the first `rows` rings. */
  ghost predicate GridQuads(indices: seq<nat>, rows: nat, sectors: nat) {
    forall r, s :: 0 <= r < rows && 0 <= s < sectors ==>
      QuadStart(r, s, sectors) + 6 <= |indices|
      && indices[QuadStart(r, s, sectors) .. QuadStart(r, s, sectors) + 6] == Quad(r, s, sectors)
  }

  /**
   * `indices` holds the quads of the rings before `r` and of sectors `0..s` of ring `r`,
   * and names only vertices of the grid.
   */
  ghost predicate QuadsUpTo(indices: seq<nat>, r: nat, s: nat, rings: nat, sectors: nat) {
    |indices| == QuadStart(r, s, sectors)
    && (forall i :: 0 <= i < |indices| ==> indices[i] < (rings + 1) * (sectors + 1))
    && GridQuads(indices, r, sectors)
    && forall s' :: 0 <= s' < s ==>
         QuadStart(r, s', sectors) + 6 <= |indices|
         && indices[QuadStart(r, s', sectors) .. QuadStart(r, s', sectors) + 6] == Quad(r, s', sectors)
  }

  /** Appending the quad at ring `r`, sector `s` extends the prefix by one quad. */
  lemma QuadAppended(before: seq<nat>, r: nat, s: nat, rings: nat, sectors: nat)
    requires r < rings && s < sectors && QuadsUpTo(before, r, s, rings, sectors)
    ensures QuadsUpTo(before + Quad(r, s, sectors), r, s + 1, rings, sectors)
  {
    var after := before + Quad(r, s, sectors);
    QuadInGrid(r, s, rings, sectors);
    assert after[|before|..] == Quad(r, s, sectors);
    assert forall a, b :: 0 <= a <= b <= |before| ==> after[a..b] == before[a..b];
  }

  /** A finished ring is the prefix up to the start of the next ring. */
  lemma RingFinished(indices: seq<nat>, r: nat, rings: nat, sectors: nat)
    requires QuadsUpTo(indices, r, sectors, rings, sectors)
    ensures QuadsUpTo(indices, r + 1, 0, rings, sectors)
  {
    assert QuadStart(r, sectors, sectors) == QuadStart(r + 1, 0, sectors);
  }

  /** After the last ring the index list is the whole UV sphere's. */
  lemma AllRings(indices: seq<nat>, rings: nat, sectors: nat)
    requires QuadsUpTo(indices, rings, 0, rings, sectors)
    ensures |indices| == 6 * rings * sectors
    ensures forall i :: 0 <= i < |indices| ==> indices[i] < (rings + 1) * (sectors + 1)
    ensures GridQuads(indices, rings, sectors)
  {
    assert QuadStart(rings, 0, sectors) == 6 * rings * sectors;
  }

  /** The vertex loops of `generate_uv_sphere`: ring `0..=rings`, sector `0..=sectors`. */
  method UvSphereVertices(radius: real, rings: nat, sectors: nat,
                          direction: (nat, nat) -> Float3, uvAt: (nat, nat) -> Float2)
    returns (positions: seq<Float3>, uvs: seq<Float2>, normals: seq<Float3>)
    ensures |positions| == (rings + 1) * (sectors + 1) && |normals| == |positions| && |uvs| == |positions|
    ensures GridVertices(positions, normals, uvs, radius, rings + 1, sectors, direction, uvAt)
  {
    positions, normals, uvs := [], [], [];
    for r: nat := 0 to rings + 1
      invariant |positions| == r * (sectors + 1) && |normals| == |positions| && |uvs| == |positions|
      invariant GridVertices(positions, normals, uvs, radius, r, sectors, direction, uvAt)
    {
      for s: nat := 0 to sectors + 1
        invariant |positions| == r * (sectors + 1) + s && |normals| == |positions| && |uvs| == |positions|
        invariant GridVertices(positions, normals, uvs, radius, r, sectors, direction, uvAt)
        invariant forall s' :: 0 <= s' < s ==>
          positions[GridIndex(r, s', sectors)] == Scale(direction(r, s'), radius)
          && normals[GridIndex(r, s', sectors)] == direction(r, s') && uvs[GridIndex(r, s', sectors)] == uvAt(r, s')
      {
        positions := positions + [Scale(direction(r, s), radius)];
        normals := normals + [direction(r, s)];
        uvs := uvs + [uvAt(r, s)];
      }
      forall r', s' | 0 <= r' < r + 1 && 0 <= s' <= sectors
        ensures GridIndex(r', s', sectors) < |positions|
      {
        if r' < r {
          GridIndexBefore(r', s', r, sectors);
        }
      }
    }
  }

  /** The index loops of `generate_uv_sphere`: two triangles for every quad of ring `0..rings`, sector `0..sectors`. */
  method UvSphereIndices(rings: nat, sectors: nat) returns (indices: seq<nat>)
    ensures |indices| == 6 * rings * sectors
    ensures forall i :: 0 <= i < |indices| ==> indices[i] < (rings + 1) * (sectors + 1)
    ensures GridQuads(indices, rings, sectors)
  {
    indices := [];
    for r: nat := 0 to rings
      invariant QuadsUpTo(indices, r, 0, rings, sectors)
    {
      for s: nat := 0 to sectors
        invariant QuadsUpTo(indices, r, s, rings, sectors)
      {
        var cur := GridIndex(r, s, sectors);
        var next := cur + sectors + 1;
        QuadAppended(indices, r, s, rings, sectors);
        assert Quad(r, s, sectors) == [cur, next, cur + 1, cur + 1, next, next + 1];
        indices := indices + [cur, next, cur + 1, cur + 1, next, next + 1];
      }
      RingFinished(indices, r, rings, sectors);
    }
    AllRings(indices, rings, sectors);
  }

  /**
   * `generate_uv_sphere`: vertex `(r, s)` for every ring `0..=rings` and sector
   * `0..=sectors`, in ring-major order, then two triangles for every quad of ring
   * `0..rings` and sector `0..sectors`.
   */
  method GenerateUvSphere(radius: real, rings: nat, sectors: nat,
                          direction: (nat, nat) -> Float3, uvAt: (nat, nat) -> Float2)
    returns (positions: seq<Float3>, uvs: seq<Float2>, normals: seq<Float3>, indices: seq<nat>)
    ensures |positions| == (rings + 1) * (sectors + 1) && |normals| == |positions| && |uvs| == |positions|
    ensures GridVertices(positions, normals, uvs, radius, rings + 1, sectors, direction, uvAt)
    ensures |indices| == 6 * rings * sectors
    ensures forall i :: 0 <= i < |indices| ==> indices[i] < |positions|
    ensures GridQuads(indices, rings, sectors)
  {
    positions, uvs, normals := UvSphereVertices(radius, rings, sectors, direction, uvAt);
    indices := UvSphereIndices(rings, sectors);
  }
}
