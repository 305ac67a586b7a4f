/**
 * `Mesh` (renderer/mesh/mod.rs): a topology and per-vertex attribute lists, the interleaved
 * vertex layout the GPU buffer uses (12 floats per vertex: position, colour, normal, uv),
 * the buffer layout that describes it to the shader, and the buffers a mesh becomes.
 * Floats are modelled as reals; the bytes of the GPU buffers are left out.
 */
module Meshes {
  import opened Wrappers

  /** `wgpu::PrimitiveTopology`. */
  datatype Topology = PointList | LineList | LineStrip | TriangleList | TriangleStrip

  datatype Float3 = Float3(x: real, y: real, z: real)
  datatype Float2 = Float2(u: real, v: real)

  /** `Color` (renderer/color.rs). */
  datatype Color = Color(r: real, g: real, b: real, a: real)

  /** The colour a vertex gets when the mesh has no colours. */
  const TRANSPARENT: Color := Color(0.0, 0.0, 0.0, 0.0)

  datatype Mesh = Mesh(
    topology: Topology,
    colors: Option<seq<Color>>,
    positions: seq<Float3>,
    normals: Option<seq<Float3>>,
    uvs: Option<seq<Float2>>,
    indices: Option<seq<nat>>)

  const VERTEX_SIZE_IN_F32: nat := 12
  const F32_SIZE: nat := 4
  const VERTEX_SIZE_IN_U8: nat := VERTEX_SIZE_IN_F32 * F32_SIZE

  /** An optional attribute list has an entry for vertex `i` (or is absent). */
  predicate Has<T>(attribute: Option<seq<T>>, i: nat) {
    attribute.None? || i < |attribute.value|
  }

  /** Every attribute list that is present has an entry for every position. */
  predicate AttributesCover(m: Mesh) {
    forall i :: 0 <= i < |m.positions| ==> Has(m.colors, i) && Has(m.normals, i) && Has(m.uvs, i)
  }

  /**
   * `vertex`: the twelve floats of vertex `index`, or a panic when a present attribute list
   * is too short. Absent colours read as TRANSPARENT, absent normals and uvs as zeros.
   */
  function Vertex(m: Mesh, index: nat): (r: Result<seq<real>>)
    requires index < |m.positions|
    ensures r.Ok? <==> Has(m.colors, index) && Has(m.normals, index) && Has(m.uvs, index)
    ensures r.Ok? ==> |r.value| == VERTEX_SIZE_IN_F32
  {
    if !(Has(m.colors, index) && Has(m.normals, index) && Has(m.uvs, index)) then
      Panic("index out of bounds")
    else
      var color := if m.colors.Some? then m.colors.value[index] else TRANSPARENT;
      var pos := m.positions[index];
      var normal := if m.normals.Some? then m.normals.value[index] else Float3(0.0, 0.0, 0.0);
      var uv := if m.uvs.Some? then m.uvs.value[index] else Float2(0.0, 0.0);
      Ok([pos.x, pos.y, pos.z, color.r, color.g, color.b, color.a, normal.x, normal.y, normal.z, uv.u, uv.v])
  }

  /** The floats of one vertex an attribute covers. */
  function Slot(a: VertexAttribute, data: seq<real>): (s: seq<real>)
    requires a.offset % F32_SIZE == 0 && a.offset / F32_SIZE + Components(a.format) <= |data|
    ensures |s| == Components(a.format)
  {
    data[a.offset / F32_SIZE .. a.offset / F32_SIZE + Components(a.format)]
  }

  /** `wgpu::VertexFormat`, the formats the mesh and UI layouts use. */
  datatype VertexFormat = Float32x2 | Float32x3 | Float32x4 | Uint32

  function Components(f: VertexFormat): nat {
    match f
    case Float32x2 => 2
    case Float32x3 => 3
    case Float32x4 => 4
    case Uint32 => 1
  }

  datatype VertexAttribute = VertexAttribute(format: VertexFormat, offset: nat, shaderLocation: nat)
  datatype VertexBufferLayout = VertexBufferLayout(arrayStride: nat, attributes: seq<VertexAttribute>)

  /**
   * `vertex_descriptor`: a 48-byte stride; position, colour, normal and uv at byte offsets
   * 0, 12, 28 and 40 (the sizes of 0, 3, 7 and 10 floats), shader locations 0 to 3.
   */
  function VertexDescriptor(): (l: VertexBufferLayout)
    ensures l.arrayStride == 48 && |l.attributes| == 4
    ensures forall k :: 0 <= k < 4 ==> l.attributes[k].shaderLocation == k
    ensures l.attributes[0].offset == 0 && l.attributes[1].offset == 12
    ensures l.attributes[2].offset == 28 && l.attributes[3].offset == 40
  {
    VertexBufferLayout(VERTEX_SIZE_IN_U8, [
      VertexAttribute(Float32x3, 0, 0),
      VertexAttribute(Float32x4, 3 * F32_SIZE, 1),
      VertexAttribute(Float32x3, 7 * F32_SIZE, 2),
      VertexAttribute(Float32x2, 10 * F32_SIZE, 3)])
  }

  /**
   * The descriptor's attributes lie back to back and fill the stride exactly, so no two
   * attributes overlap and no float of a vertex is left undescribed.
   */
  lemma DescriptorTilesStride()
    ensures var l := VertexDescriptor();
      l.attributes[0].offset == 0
      && (forall k :: 1 <= k < 4 ==>
            l.attributes[k].offset == l.attributes[k - 1].offset + F32_SIZE * Components(l.attributes[k - 1].format))
      && l.attributes[3].offset + F32_SIZE * Components(l.attributes[3].format) == l.arrayStride
  {
  }

  /**
   * What the descriptor tells the shader matches what `vertex` writes: the floats at each
   * attribute's offset are the vertex's position, its colour (TRANSPARENT when absent), its
   * normal and its uv (zeros when absent).
   */
  lemma DescriptorReadsVertex(m: Mesh, index: nat)
    requires index < |m.positions| && Vertex(m, index).Ok?
    ensures var l, v := VertexDescriptor(), Vertex(m, index).value;
      var p := m.positions[index];
      var c := if m.colors.Some? then m.colors.value[index] else TRANSPARENT;
      var n := if m.normals.Some? then m.normals.value[index] else Float3(0.0, 0.0, 0.0);
      var t := if m.uvs.Some? then m.uvs.value[index] else Float2(0.0, 0.0);
      (forall k :: 0 <= k < 4 ==>
         l.attributes[k].offset % F32_SIZE == 0 && l.attributes[k].offset / F32_SIZE + Components(l.attributes[k].format) <= |v|)
      && Slot(l.attributes[0], v) == [p.x, p.y, p.z]
      && Slot(l.attributes[1], v) == [c.r, c.g, c.b, c.a]
      && Slot(l.attributes[2], v) == [n.x, n.y, n.z]
      && Slot(l.attributes[3], v) == [t.u, t.v]
  {
    var v := Vertex(m, index).value;
    assert v[0..3] == [v[0], v[1], v[2]];
    assert v[3..7] == [v[3], v[4], v[5], v[6]];
    assert v[7..10] == [v[7], v[8], v[9]];
    assert v[10..12] == [v[10], v[11]];
  }

  /**
   * `vertex_data`: the vertices one after another, each twelve floats; panics when a
   * present attribute list is shorter than the positions.
   */
  method VertexData(m: Mesh) returns (r: Result<seq<real>>)
    ensures r.Ok? <==> AttributesCover(m)
    ensures r.Ok? ==>
      |r.value| == VERTEX_SIZE_IN_F32 * |m.positions|
      && forall i :: 0 <= i < |m.positions| ==>
           Vertex(m, i).Ok? && r.value[VERTEX_SIZE_IN_F32 * i .. VERTEX_SIZE_IN_F32 * (i + 1)] == Vertex(m, i).value
  {
    var data: seq<real> := [];
    for i := 0 to |m.positions|
      invariant |data| == VERTEX_SIZE_IN_F32 * i
      invariant forall j :: 0 <= j < i ==> Vertex(m, j).Ok?
      invariant forall j :: 0 <= j < i ==> data[VERTEX_SIZE_IN_F32 * j .. VERTEX_SIZE_IN_F32 * (j + 1)] == Vertex(m, j).value
    {
      var v := Vertex(m, i);
      if v.Panic? {
        return Panic(v.message);
      }
      ghost var before := data;
      data := data + v.value;
      forall j | 0 <= j < i + 1
        ensures data[VERTEX_SIZE_IN_F32 * j .. VERTEX_SIZE_IN_F32 * (j + 1)] == Vertex(m, j).value
      {
        if j < i {
          assert data[VERTEX_SIZE_IN_F32 * j .. VERTEX_SIZE_IN_F32 * (j + 1)]
              == before[VERTEX_SIZE_IN_F32 * j .. VERTEX_SIZE_IN_F32 * (j + 1)];
        } else {
          assert data[VERTEX_SIZE_IN_F32 * j ..] == v.value;
        }
      }
    }
    forall i | 0 <= i < |m.positions| ensures Has(m.colors, i) && Has(m.normals, i) && Has(m.uvs, i) {
      assert Vertex(m, i).Ok?;
    }
    return Ok(data);
  }

  /** `index_data`: the indices, exactly when the mesh has them. */
  function IndexData(m: Mesh): (r: Option<seq<nat>>)
    ensures r.Some? <==> m.indices.Some?
    ensures r.Some? ==> r.value == m.indices.value
  {
    m.indices
  }

  /** The GPU buffers of a mesh: the vertex data with its vertex count, and an index buffer if any. */
  datatype MeshBuffer = MeshBuffer(vertexData: seq<real>, vertexCount: nat, indexBuffer: Option<seq<nat>>)

  /**
   * `create_render_asset`: a vertex buffer made from the vertex data and the position
   * count, and an index buffer exactly when the mesh has indices.
   */
  method CreateRenderAsset(m: Mesh) returns (r: Result<MeshBuffer>)
    ensures r.Ok? <==> AttributesCover(m)
    ensures r.Ok? ==>
      r.value.vertexCount == |m.positions|
      && |r.value.vertexData| == VERTEX_SIZE_IN_F32 * |m.positions|
      && r.value.indexBuffer == m.indices
    ensures r.Ok? ==> forall i :: 0 <= i < |m.positions| ==>
      Vertex(m, i).Ok? && r.value.vertexData[VERTEX_SIZE_IN_F32 * i .. VERTEX_SIZE_IN_F32 * (i + 1)] == Vertex(m, i).value
  {
    var data := VertexData(m);
    if data.Panic? {
      return Panic(data.message);
    }
    var buffer := MeshBuffer(data.value, |m.positions|, None);
    var indices := IndexData(m);
    if indices.Some? {
      buffer := buffer.(indexBuffer := Some(indices.value));
    }
    return Ok(buffer);
  }

  /**
   * A mesh the renderer can draw as it is: every attribute list present has one entry per
   * position, and the indices, if any, name positions and come in whole triangles.
   */
  predicate Drawable(m: Mesh) {
    (m.colors.Some? ==> |m.colors.value| == |m.positions|)
    && (m.normals.Some? ==> |m.normals.value| == |m.positions|)
    && (m.uvs.Some? ==> |m.uvs.value| == |m.positions|)
    && (m.indices.Some? ==>
          |m.indices.value| % 3 == 0 && forall i :: 0 <= i < |m.indices.value| ==> m.indices.value[i] < |m.positions|)
  }
}
