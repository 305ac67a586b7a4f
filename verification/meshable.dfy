/**
 * `Meshable` (renderer/mesh/meshable.rs): the triangle meshes of the built-in shapes. A
 * cuboid has four vertices per face, each face two triangles; a cube is a cuboid with three
 * equal sides; a plane is one quad facing up; a triangle is its three vertices facing +Z; a
 * sphere is whichever sphere generator its kind names. Every mesh is an indexed triangle list
 * without colours.
 */
module Meshables {
  import opened Wrappers
  import opened Meshes
  import opened Spheres

  datatype Cuboid = Cuboid(width: real, height: real, depth: real)
  datatype Cube = Cube(size: real)
  datatype Plane = Plane(width: real, height: real, faceDown: bool)
  datatype Triangle = Triangle(vertices: seq<Float3>)

  /** One entry of a vertex table: position, normal and uv. */
  datatype VertexRecord = VertexRecord(position: Float3, normal: Float3, uv: Float2)

  function Positions(vs: seq<VertexRecord>): (r: seq<Float3>)
    ensures |r| == |vs| && forall i :: 0 <= i < |vs| ==> r[i] == vs[i].position
  {
    seq(|vs|, i requires 0 <= i < |vs| => vs[i].position)
  }

  function Normals(vs: seq<VertexRecord>): (r: seq<Float3>)
    ensures |r| == |vs| && forall i :: 0 <= i < |vs| ==> r[i] == vs[i].normal
  {
    seq(|vs|, i requires 0 <= i < |vs| => vs[i].normal)
  }

  function Uvs(vs: seq<VertexRecord>): (r: seq<Float2>)
    ensures |r| == |vs| && forall i :: 0 <= i < |vs| ==> r[i] == vs[i].uv
  {
    seq(|vs|, i requires 0 <= i < |vs| => vs[i].uv)
  }

  /** `Mesh::new(TriangleList, None, positions, Some(normals), Some(uvs), Some(indices))` for a vertex table. */
  function TableMesh(vs: seq<VertexRecord>, indices: seq<nat>): Mesh {
    Mesh(TriangleList, None, Positions(vs), Some(Normals(vs)), Some(Uvs(vs)), Some(indices))
  }

  const PLUS_X: Float3 := Float3(1.0, 0.0, 0.0)
  const MINUS_X: Float3 := Float3(-1.0, 0.0, 0.0)
  const PLUS_Y: Float3 := Float3(0.0, 1.0, 0.0)
  const MINUS_Y: Float3 := Float3(0.0, -1.0, 0.0)
  const PLUS_Z: Float3 := Float3(0.0, 0.0, 1.0)
  const MINUS_Z: Float3 := Float3(0.0, 0.0, -1.0)

  /**
   * The four vertex-table entries of face `k` of a cuboid: front, back, right, left, top
   * and bottom in turn.
   */
  function FaceVertices(c: Cuboid, k: nat): (vs: seq<VertexRecord>)
    requires k < 6
    ensures |vs| == 4
  {
    var hw, hh, hd := c.width / 2.0, c.height / 2.0, c.depth / 2.0;
    if k == 0 then [
      VertexRecord(Float3(-hw, -hh, hd), PLUS_Z, Float2(0.0, 0.0)),
      VertexRecord(Float3(hw, -hh, hd), PLUS_Z, Float2(1.0, 0.0)),
      VertexRecord(Float3(hw, hh, hd), PLUS_Z, Float2(1.0, 1.0)),
      VertexRecord(Float3(-hw, hh, hd), PLUS_Z, Float2(0.0, 1.0))]
    else if k == 1 then [
      VertexRecord(Float3(-hw, hh, -hd), MINUS_Z, Float2(1.0, 0.0)),
      VertexRecord(Float3(hw, hh, -hd), MINUS_Z, Float2(0.0, 0.0)),
      VertexRecord(Float3(hw, -hh, -hd), MINUS_Z, Float2(0.0, 1.0)),
      VertexRecord(Float3(-hw, -hh, -hd), MINUS_Z, Float2(1.0, 1.0))]
    else if k == 2 then [
      VertexRecord(Float3(hw, -hh, -hd), PLUS_X, Float2(0.0, 0.0)),
      VertexRecord(Float3(hw, hh, -hd), PLUS_X, Float2(1.0, 0.0)),
      VertexRecord(Float3(hw, hh, hd), PLUS_X, Float2(1.0, 1.0)),
      VertexRecord(Float3(hw, -hh, hd), PLUS_X, Float2(0.0, 1.0))]
    else if k == 3 then [
      VertexRecord(Float3(-hw, -hh, hd), MINUS_X, Float2(1.0, 0.0)),
      VertexRecord(Float3(-hw, hh, hd), MINUS_X, Float2(0.0, 0.0)),
      VertexRecord(Float3(-hw, hh, -hd), MINUS_X, Float2(0.0, 1.0)),
      VertexRecord(Float3(-hw, -hh, -hd), MINUS_X, Float2(1.0, 1.0))]
    else if k == 4 then [
      VertexRecord(Float3(hw, hh, -hd), PLUS_Y, Float2(1.0, 0.0)),
      VertexRecord(Float3(-hw, hh, -hd), PLUS_Y, Float2(0.0, 0.0)),
      VertexRecord(Float3(-hw, hh, hd), PLUS_Y, Float2(0.0, 1.0)),
      VertexRecord(Float3(hw, hh, hd), PLUS_Y, Float2(1.0, 1.0))]
    else [
      VertexRecord(Float3(hw, -hh, hd), MINUS_Y, Float2(0.0, 0.0)),
      VertexRecord(Float3(-hw, -hh, hd), MINUS_Y, Float2(1.0, 0.0)),
      VertexRecord(Float3(-hw, -hh, -hd), MINUS_Y, Float2(1.0, 1.0)),
      VertexRecord(Float3(hw, -hh, -hd), MINUS_Y, Float2(0.0, 1.0))]
  }

  /** The cuboid's vertex table: the six faces' entries one after another. */
  function CuboidVertices(c: Cuboid): (vs: seq<VertexRecord>)
    ensures |vs| == 24
    ensures forall k, j :: 0 <= k < 6 && 0 <= j < 4 ==> vs[4 * k + j] == FaceVertices(c, k)[j]
  {
    var vs := FaceVertices(c, 0) + FaceVertices(c, 1) + FaceVertices(c, 2)
              + FaceVertices(c, 3) + FaceVertices(c, 4) + FaceVertices(c, 5);
    assert forall k, j :: 0 <= k < 6 && 0 <= j < 4 ==> vs[4 * k + j] == FaceVertices(c, k)[j] by {
      forall k, j | 0 <= k < 6 && 0 <= j < 4 ensures vs[4 * k + j] == FaceVertices(c, k)[j] {
        FaceAt(c, vs, k, j);
      }
    }
    vs
  }

  lemma FaceAt(c: Cuboid, vs: seq<VertexRecord>, k: nat, j: nat)
    requires k < 6 && j < 4
    requires vs == FaceVertices(c, 0) + FaceVertices(c, 1) + FaceVertices(c, 2)
                   + FaceVertices(c, 3) + FaceVertices(c, 4) + FaceVertices(c, 5)
    ensures vs[4 * k + j] == FaceVertices(c, k)[j]
  {
    var a := FaceVertices(c, 0) + FaceVertices(c, 1) + FaceVertices(c, 2) + FaceVertices(c, 3) + FaceVertices(c, 4);
    if k == 5 {
      assert vs[20 + j] == FaceVertices(c, 5)[j];
    } else {
      assert vs[4 * k + j] == a[4 * k + j];
      var b := FaceVertices(c, 0) + FaceVertices(c, 1) + FaceVertices(c, 2) + FaceVertices(c, 3);
      if k == 4 {
      } else {
        assert a[4 * k + j] == b[4 * k + j];
        var d := FaceVertices(c, 0) + FaceVertices(c, 1) + FaceVertices(c, 2);
        if k == 3 {
        } else {
          assert b[4 * k + j] == d[4 * k + j];
          var e := FaceVertices(c, 0) + FaceVertices(c, 1);
          if k == 2 {
          } else {
            assert d[4 * k + j] == e[4 * k + j];
          }
        }
      }
    }
  }

  /** The cuboid's index list, two triangles per face, one row per face. */
  const CUBOID_INDICES: seq<nat> :=
    [0, 1, 2, 2, 3, 0] +
    [4, 5, 6, 6, 7, 4] +
    [8, 9, 10, 10, 11, 8] +
    [12, 13, 14, 14, 15, 12] +
    [16, 17, 18, 18, 19, 16] +
    [20, 21, 22, 22, 23, 20]

  /** The two triangles of the quad whose vertices start at `b`. */
  function QuadIndices(b: nat): (r: seq<nat>)
    ensures |r| == 6
  {
    [b, b + 1, b + 2, b + 2, b + 3, b]
  }

  lemma PrefixSlice(a: seq<nat>, b: seq<nat>, i: nat, j: nat)
    requires i <= j <= |a|
    ensures (a + b)[i..j] == a[i..j]
  {
  }

  /** Face `k` of the cuboid's index list is the quad of vertices `4k..4k+4`. */
  lemma CuboidIndexFace(k: nat)
    requires k < 6
    ensures CUBOID_INDICES[6 * k .. 6 * k + 6] == QuadIndices(4 * k)
  {
    var r0, r1, r2, r3, r4, r5 := [0, 1, 2, 2, 3, 0], [4, 5, 6, 6, 7, 4], [8, 9, 10, 10, 11, 8],
      [12, 13, 14, 14, 15, 12], [16, 17, 18, 18, 19, 16], [20, 21, 22, 22, 23, 20];
    var a1 := r0 + r1;
    var a2 := a1 + r2;
    var a3 := a2 + r3;
    var a4 := a3 + r4;
    assert CUBOID_INDICES == a4 + r5;
    var i, j := 6 * k, 6 * k + 6;
    if k < 5 {
      PrefixSlice(a4, r5, i, j);
      if k < 4 {
        PrefixSlice(a3, r4, i, j);
        if k < 3 {
          PrefixSlice(a2, r3, i, j);
          if k < 2 {
            PrefixSlice(a1, r2, i, j);
            if k < 1 {
              PrefixSlice(r0, r1, i, j);
            }
          }
        }
      }
    }
  }

  /** The outward normal of face `k` (front, back, right, left, top, bottom). */
  function FaceNormal(k: nat): Float3
    requires k < 6
  {
    [PLUS_Z, MINUS_Z, PLUS_X, MINUS_X, PLUS_Y, MINUS_Y][k]
  }

  /** How far face `k` of the cuboid lies from its centre: half the side along the face's normal. */
  function HalfExtent(c: Cuboid, k: nat): real
    requires k < 6
  {
    [c.depth, c.depth, c.width, c.width, c.height, c.height][k] / 2.0
  }

  function Dot(a: Float3, b: Float3): real {
    a.x * b.x + a.y * b.y + a.z * b.z
  }

  function Sub(a: Float3, b: Float3): Float3 {
    Float3(a.x - b.x, a.y - b.y, a.z - b.z)
  }

  function Cross(a: Float3, b: Float3): Float3 {
    Float3(a.y * b.z - a.z * b.y, a.z * b.x - a.x * b.z, a.x * b.y - a.y * b.x)
  }

  /**
   * The triangle (p0, p1, p2) is wound counter-clockwise seen from the side `n` points to,
   * so it is a front face there.
   */
  predicate Facing(p0: Float3, p1: Float3, p2: Float3, n: Float3) {
    Dot(Cross(Sub(p1, p0), Sub(p2, p0)), n) > 0.0
  }

  /** Triangle `t` of an indexed mesh faces the way its first vertex's normal points. */
  ghost predicate FacesNormal(positions: seq<Float3>, normals: seq<Float3>, indices: seq<nat>, t: nat)
    requires 3 * t + 2 < |indices|
    requires forall i :: 0 <= i < |indices| ==> indices[i] < |positions| && indices[i] < |normals|
  {
    Facing(positions[indices[3 * t]], positions[indices[3 * t + 1]], positions[indices[3 * t + 2]],
           normals[indices[3 * t]])
  }

  /** `Cuboid::mesh`. */
  function CuboidMesh(c: Cuboid): (m: Mesh)
    ensures m.topology == TriangleList && m.colors == None
    ensures |m.positions| == 24 && m.normals.Some? && m.uvs.Some? && m.indices.Some?
    ensures |m.normals.value| == 24 && |m.uvs.value| == 24 && |m.indices.value| == 36
    ensures forall i :: 0 <= i < 36 ==> m.indices.value[i] < 24
  {
    TableMesh(CuboidVertices(c), CUBOID_INDICES)
  }

  /**
   * The four vertices of face `k` share the face's normal, lie on the face's plane (half the
   * side along the normal out from the centre) and sit at the cuboid's corners.
   */
  lemma FaceGeometry(c: Cuboid, k: nat)
    requires k < 6
    ensures forall j :: 0 <= j < 4 ==>
      var v := FaceVertices(c, k)[j];
      v.normal == FaceNormal(k) && Dot(v.position, FaceNormal(k)) == HalfExtent(c, k)
      && (v.position.x == c.width / 2.0 || v.position.x == -c.width / 2.0)
      && (v.position.y == c.height / 2.0 || v.position.y == -c.height / 2.0)
      && (v.position.z == c.depth / 2.0 || v.position.z == -c.depth / 2.0)
  {
  }

  /**
   * With positive sides, both triangles of face `k`, entries (0, 1, 2) and (2, 3, 0) of its
   * table rows, are wound counter-clockwise seen from outside the cuboid.
   */
  lemma FaceOutward(c: Cuboid, k: nat)
    requires k < 6 && c.width > 0.0 && c.height > 0.0 && c.depth > 0.0
    ensures var vs, n := FaceVertices(c, k), FaceNormal(k);
      Facing(vs[0].position, vs[1].position, vs[2].position, n)
      && Facing(vs[2].position, vs[3].position, vs[0].position, n)
  {
    var hw, hh, hd := c.width / 2.0, c.height / 2.0, c.depth / 2.0;
    ProductPositive(hw, hh);
    ProductPositive(hh, hd);
    ProductPositive(hw, hd);
    var vs, n := FaceVertices(c, k), FaceNormal(k);
    var p0, p1, p2, p3 := vs[0].position, vs[1].position, vs[2].position, vs[3].position;
    if k == 0 {
      assert p0 == Float3(-hw, -hh, hd) && p1 == Float3(hw, -hh, hd);
      assert p2 == Float3(hw, hh, hd) && p3 == Float3(-hw, hh, hd) && n == PLUS_Z;
    } else if k == 1 {
      assert p0 == Float3(-hw, hh, -hd) && p1 == Float3(hw, hh, -hd);
      assert p2 == Float3(hw, -hh, -hd) && p3 == Float3(-hw, -hh, -hd) && n == MINUS_Z;
    } else if k == 2 {
      assert p0 == Float3(hw, -hh, -hd) && p1 == Float3(hw, hh, -hd);
      assert p2 == Float3(hw, hh, hd) && p3 == Float3(hw, -hh, hd) && n == PLUS_X;
    } else if k == 3 {
      assert p0 == Float3(-hw, -hh, hd) && p1 == Float3(-hw, hh, hd);
      assert p2 == Float3(-hw, hh, -hd) && p3 == Float3(-hw, -hh, -hd) && n == MINUS_X;
    } else if k == 4 {
      assert p0 == Float3(hw, hh, -hd) && p1 == Float3(-hw, hh, -hd);
      assert p2 == Float3(-hw, hh, hd) && p3 == Float3(hw, hh, hd) && n == PLUS_Y;
    } else {
      assert p0 == Float3(hw, -hh, hd) && p1 == Float3(-hw, -hh, hd);
      assert p2 == Float3(-hw, -hh, -hd) && p3 == Float3(hw, -hh, -hd) && n == MINUS_Y;
    }
  }

  lemma ProductPositive(a: real, b: real)
    requires a > 0.0 && b > 0.0
    ensures a * b > 0.0
  {
  }

  /**
   * Face `k` of the cuboid mesh: it uses vertices `4k..4k+4`, which are the entries of face
   * `k` of the vertex table, as the triangles (4k, 4k+1, 4k+2) and (4k+2, 4k+3, 4k); its
   * four vertices share the face's axis normal and lie on the face's plane. With
   * `FaceOutward`, both triangles of every face face outwards.
   */
  lemma CuboidFace(c: Cuboid, k: nat)
    requires k < 6
    ensures var m := CuboidMesh(c);
      m.indices.value[6 * k .. 6 * k + 6] == QuadIndices(4 * k)
      && forall j :: 0 <= j < 4 ==>
           m.positions[4 * k + j] == FaceVertices(c, k)[j].position
           && m.normals.value[4 * k + j] == FaceNormal(k)
           && Dot(m.positions[4 * k + j], FaceNormal(k)) == HalfExtent(c, k)
  {
    var m := CuboidMesh(c);
    var vs := CuboidVertices(c);
    CuboidIndexFace(k);
    FaceGeometry(c, k);
    forall j | 0 <= j < 4
      ensures m.positions[4 * k + j] == FaceVertices(c, k)[j].position
      ensures m.normals.value[4 * k + j] == FaceNormal(k)
      ensures Dot(m.positions[4 * k + j], FaceNormal(k)) == HalfExtent(c, k)
    {
      assert vs[4 * k + j] == FaceVertices(c, k)[j];
    }
  }

  /** `Cube::mesh`: the cuboid mesh with all three sides equal to the size, so every vertex is a corner of the cube. */
  function CubeMesh(c: Cube): (m: Mesh)
    ensures m.topology == TriangleList && m.colors == None && |m.positions| == 24
    ensures forall i :: 0 <= i < 24 ==>
      var p := m.positions[i];
      (p.x == c.size / 2.0 || p.x == -c.size / 2.0)
      && (p.y == c.size / 2.0 || p.y == -c.size / 2.0)
      && (p.z == c.size / 2.0 || p.z == -c.size / 2.0)
  {
    var cuboid := Cuboid(c.size, c.size, c.size);
    var vs := CuboidVertices(cuboid);
    forall i | 0 <= i < 24
      ensures (vs[i].position.x == c.size / 2.0 || vs[i].position.x == -c.size / 2.0)
        && (vs[i].position.y == c.size / 2.0 || vs[i].position.y == -c.size / 2.0)
        && (vs[i].position.z == c.size / 2.0 || vs[i].position.z == -c.size / 2.0)
    {
      FaceGeometry(cuboid, i / 4);
      assert vs[4 * (i / 4) + i % 4] == FaceVertices(cuboid, i / 4)[i % 4];
    }
    CuboidMesh(cuboid)
  }

  /** The plane's vertex table: one quad in the y = 0 plane, normal +Y. */
  function PlaneVertices(p: Plane): (vs: seq<VertexRecord>)
    ensures |vs| == 4
  {
    var hw, hh := p.width / 2.0, p.height / 2.0;
    [ VertexRecord(Float3(-hw, 0.0, hh), PLUS_Y, Float2(0.0, 0.0)),
      VertexRecord(Float3(hw, 0.0, hh), PLUS_Y, Float2(1.0, 0.0)),
      VertexRecord(Float3(hw, 0.0, -hh), PLUS_Y, Float2(1.0, 1.0)),
      VertexRecord(Float3(-hw, 0.0, -hh), PLUS_Y, Float2(0.0, 1.0))]
  }

  /** `Plane::mesh`: one quad in the y = 0 plane facing +Y, whatever `face_down` says. */
  function PlaneMesh(p: Plane): (m: Mesh)
    ensures m.topology == TriangleList && m.colors == None
    ensures |m.positions| == 4 && m.normals.Some? && m.uvs.Some? && m.indices == Some(QuadIndices(0))
    ensures |m.normals.value| == 4 && |m.uvs.value| == 4
    ensures forall i :: 0 <= i < 4 ==>
      m.normals.value[i] == PLUS_Y && m.positions[i].y == 0.0
      && (m.positions[i].x == p.width / 2.0 || m.positions[i].x == -p.width / 2.0)
      && (m.positions[i].z == p.height / 2.0 || m.positions[i].z == -p.height / 2.0)
    ensures m.uvs.value[0] == Float2(0.0, 0.0) && m.uvs.value[1] == Float2(1.0, 0.0)
    ensures m.uvs.value[2] == Float2(1.0, 1.0) && m.uvs.value[3] == Float2(0.0, 1.0)
  {
    TableMesh(PlaneVertices(p), [0, 1, 2, 2, 3, 0])
  }

  /** With positive sides, both plane triangles face up; `face_down` does not change the mesh. */
  lemma PlaneFacesUp(p: Plane)
    requires p.width > 0.0 && p.height > 0.0
    ensures var m := PlaneMesh(p);
      FacesNormal(m.positions, m.normals.value, m.indices.value, 0)
      && FacesNormal(m.positions, m.normals.value, m.indices.value, 1)
    ensures PlaneMesh(p.(faceDown := !p.faceDown)) == PlaneMesh(p)
  {
    var m := PlaneMesh(p);
    var vs := PlaneVertices(p);
    ProductPositive(p.width / 2.0, p.height / 2.0);
    assert Facing(vs[0].position, vs[1].position, vs[2].position, PLUS_Y);
    assert Facing(vs[2].position, vs[3].position, vs[0].position, PLUS_Y);
    assert PlaneVertices(p.(faceDown := !p.faceDown)) == vs;
  }

  /** `Triangle::mesh`: the three vertices as given, normals +Z, one triangle. */
  function TriangleMesh(t: Triangle): (m: Mesh)
    requires |t.vertices| == 3
    ensures m.topology == TriangleList && m.colors == None
    ensures m.positions == t.vertices && m.normals == Some([PLUS_Z, PLUS_Z, PLUS_Z])
    ensures m.uvs == Some([Float2(0.5, 1.0), Float2(0.0, 0.0), Float2(1.0, 0.0)])
    ensures m.indices == Some([0, 1, 2])
  {
    Mesh(TriangleList, None, t.vertices, Some([PLUS_Z, PLUS_Z, PLUS_Z]),
         Some([Float2(0.5, 1.0), Float2(0.0, 0.0), Float2(1.0, 0.0)]), Some([0, 1, 2]))
  }

  /** The f32 value of the square root of 3. */
  const SQRT_3: real := 1.7320508

  /** `Triangle::equilateral`: apex up, base down, centred on the origin in the z = 0 plane. */
  function EquilateralTriangle(base: real): (t: Triangle)
    ensures |t.vertices| == 3
    ensures forall i :: 0 <= i < 3 ==> t.vertices[i].z == 0.0
    ensures t.vertices[0].x == 0.0 && t.vertices[1].x == -t.vertices[2].x
    ensures t.vertices[1].y == t.vertices[2].y == -t.vertices[0].y
  {
    var height := (SQRT_3 / 2.0) * base;
    var halfHeight := height / 2.0;
    var halfBase := base / 2.0;
    Triangle([Float3(0.0, halfHeight, 0.0), Float3(-halfBase, -halfHeight, 0.0), Float3(halfBase, -halfHeight, 0.0)])
  }

  /** An equilateral triangle with a positive base faces +Z, the way its mesh's normals point. */
  lemma EquilateralFacesNormal(base: real)
    requires base > 0.0
    ensures var m := TriangleMesh(EquilateralTriangle(base));
      FacesNormal(m.positions, m.normals.value, m.indices.value, 0)
  {
    ProductPositive(base / 2.0, (SQRT_3 / 2.0) * base / 2.0);
  }

  /** The closed-form functions the sphere generators take, standing in for the float maths. */
  datatype SphereMaths = SphereMaths(
    unit: Float3 -> Float3, uvOf: Float3 -> Float2,
    direction: (nat, nat) -> Float3, uvAt: (nat, nat) -> Float2)

  /**
   * `Sphere::mesh`: the icosphere or UV sphere the kind names, as an indexed triangle list
   * with normals and uvs and no colours; drawable as it is.
   */
  method SphereMesh(s: Sphere, maths: SphereMaths) returns (m: Mesh)
    ensures m.topology == TriangleList && m.colors == None && Drawable(m)
    ensures m.normals.Some? && m.uvs.Some? && m.indices.Some?
    ensures s.kind.Icosphere? ==> |m.indices.value| == 3 * 20 * Pow4(s.kind.subdivisions)
    ensures s.kind.UvSphere? ==>
      |m.positions| == (s.kind.rings + 1) * (s.kind.sectors + 1)
      && |m.indices.value| == 6 * s.kind.rings * s.kind.sectors
  {
    var positions, uvs, normals, indices;
    match s.kind {
      case Icosphere(subdivisions) =>
        positions, uvs, normals, indices := GenerateIcosphere(s.radius, subdivisions, maths.unit, maths.uvOf);
        assert |indices| == 3 * (20 * Pow4(subdivisions));
      case UvSphere(rings, sectors) =>
        positions, uvs, normals, indices := GenerateUvSphere(s.radius, rings, sectors, maths.direction, maths.uvAt);
        assert |indices| == 3 * (2 * rings * sectors);
    }
    m := Mesh(TriangleList, None, positions, Some(normals), Some(uvs), Some(indices));
  }

  /** The cuboid, cube, plane and triangle meshes are drawable as they are. */
  lemma ShapesDrawable(c: Cuboid, cube: Cube, p: Plane, t: Triangle)
    requires |t.vertices| == 3
    ensures Drawable(CuboidMesh(c)) && Drawable(CubeMesh(cube))
    ensures Drawable(PlaneMesh(p)) && Drawable(TriangleMesh(t))
  {
    var m := CuboidMesh(c);
    assert |m.indices.value| == 3 * 12;
  }
}
