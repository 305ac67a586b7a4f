/**
 * `UiMesh` (ui/mesh.rs): the growing mesh the UI pass draws, one rectangle per node. Each
 * rectangle adds four vertices (positions, colours and transform indices side by side), two
 * triangles of indices and the node's entity id. The vertex buffer packs each vertex as
 * seven f32 words (colour, then position) and one u32 word (the transform index).
 */
module UiMeshes {
  import opened Ids
  import opened Meshes
  import opened Meshables

  /** One 4-byte word of the vertex buffer. */
  datatype Word = F32(f: real) | U32(u: nat)

  const WORD_SIZE: nat := 4
  const UI_VERTEX_SIZE_IN_WORDS: nat := 8

  /** The four corners of the rectangle at (x, y) of size w × h, at depth `z`: top-left, top-right, bottom-right, bottom-left. */
  function RectPositions(x: real, y: real, zLayer: real, w: real, h: real): (r: seq<Float3>)
    ensures |r| == 4 && forall k :: 0 <= k < 4 ==> r[k].z == zLayer
    ensures r[0].x == r[3].x == x && r[1].x == r[2].x == x + w
    ensures r[0].y == r[1].y == y + h && r[2].y == r[3].y == y
  {
    [Float3(x, y + h, zLayer), Float3(x + w, y + h, zLayer), Float3(x + w, y, zLayer), Float3(x, y, zLayer)]
  }

  /** The eight words of one vertex: colour, position, transform index. */
  function VertexWords(c: Color, p: Float3, transformIndex: nat): (r: seq<Word>)
    ensures |r| == UI_VERTEX_SIZE_IN_WORDS
  {
    [F32(c.r), F32(c.g), F32(c.b), F32(c.a), F32(p.x), F32(p.y), F32(p.z), U32(transformIndex)]
  }

  /** The index entries of rectangle `r`. */
  function RectIndexEntries(indices: seq<nat>, r: nat): seq<nat>
    requires 6 * r + 6 <= |indices|
  {
    indices[6 * r .. 6 * r + 6]
  }

  class UiMesh {
    var colors: seq<Color>
    var positions: seq<Float3>
    var indices: seq<nat>
    var transformIndices: seq<nat>
    var entityIds: seq<EntityId>

    /**
     * One entity id per rectangle, four vertices and six indices per rectangle, and the
     * indices of rectangle `r` are the two triangles of its vertices `4r..4r+4`.
     */
    ghost predicate Valid()
      reads this
    {
      var n := |entityIds|;
      |positions| == 4 * n && |colors| == 4 * n && |transformIndices| == 4 * n && |indices| == 6 * n
      && forall r :: 0 <= r < n ==> RectIndexEntries(indices, r) == QuadIndices(4 * r)
    }

    /** `new`: all five lists empty. */
    constructor ()
      ensures Valid()
      ensures colors == [] && positions == [] && indices == [] && transformIndices == [] && entityIds == []
    {
      colors, positions, indices, transformIndices, entityIds := [], [], [], [], [];
    }

    /** `clear`: all five lists emptied. */
    method Clear()
      modifies this
      ensures Valid()
      ensures colors == [] && positions == [] && indices == [] && transformIndices == [] && entityIds == []
    {
      colors, positions, indices, transformIndices, entityIds := [], [], [], [], [];
    }

    /**
     * `add_rect`: four corners at depth `z_layer`, the two triangles (i, i+1, i+2) and
     * (i+2, i+3, i) where i is the old vertex count, four copies of the transform index and
     * of the colour, and the entity id.
     */
    method AddRect(x: real, y: real, zLayer: real, w: real, h: real, color: Color, transformIndex: nat, entityId: EntityId)
      requires Valid()
      modifies this
      ensures Valid()
      ensures positions == old(positions) + RectPositions(x, y, zLayer, w, h)
      ensures indices == old(indices) + QuadIndices(|old(positions)|)
      ensures transformIndices == old(transformIndices) + [transformIndex, transformIndex, transformIndex, transformIndex]
      ensures colors == old(colors) + [color, color, color, color]
      ensures entityIds == old(entityIds) + [entityId]
    {
      var i := |positions|;
      ghost var before := indices;
      ghost var n := |entityIds|;
      positions := positions + RectPositions(x, y, zLayer, w, h);
      indices := indices + QuadIndices(i);
      transformIndices := transformIndices + [transformIndex, transformIndex, transformIndex, transformIndex];
      colors := colors + [color, color, color, color];
      entityIds := entityIds + [entityId];
      forall r | 0 <= r < n + 1 ensures RectIndexEntries(indices, r) == QuadIndices(4 * r) {
        if r < n {
          assert RectIndexEntries(indices, r) == RectIndexEntries(before, r);
        } else {
          assert RectIndexEntries(indices, r) == indices[|before|..];
        }
      }
    }

    /** Every index of a valid UI mesh names one of its vertices. */
    lemma IndicesInRange()
      requires Valid()
      ensures forall i :: 0 <= i < |indices| ==> indices[i] < |positions|
    {
      forall i | 0 <= i < |indices| ensures indices[i] < |positions| {
        var r := i / 6;
        assert RectIndexEntries(indices, r) == QuadIndices(4 * r);
        assert indices[i] == RectIndexEntries(indices, r)[i - 6 * r];
      }
    }

    /**
     * `vertex_data`: eight words per vertex, the vertex's colour, position and transform
     * index, vertices in order.
     */
    method VertexData() returns (data: seq<Word>)
      requires Valid()
      ensures |data| == UI_VERTEX_SIZE_IN_WORDS * |positions|
      ensures forall i :: 0 <= i < |positions| ==>
        data[UI_VERTEX_SIZE_IN_WORDS * i .. UI_VERTEX_SIZE_IN_WORDS * (i + 1)]
          == VertexWords(colors[i], positions[i], transformIndices[i])
    {
      data := [];
      for i := 0 to |positions|
        invariant |data| == UI_VERTEX_SIZE_IN_WORDS * i
        invariant forall j :: 0 <= j < i ==>
          data[UI_VERTEX_SIZE_IN_WORDS * j .. UI_VERTEX_SIZE_IN_WORDS * (j + 1)]
            == VertexWords(colors[j], positions[j], transformIndices[j])
      {
        var color := colors[i];
        var pos := positions[i];
        var transformIndex := transformIndices[i];
        ghost var before := data;
        data := data + [F32(color.r), F32(color.g), F32(color.b), F32(color.a), F32(pos.x), F32(pos.y), F32(pos.z)];
        data := data + [U32(transformIndex)];
        assert data == before + VertexWords(color, pos, transformIndex);
        forall j | 0 <= j < i + 1
          ensures data[UI_VERTEX_SIZE_IN_WORDS * j .. UI_VERTEX_SIZE_IN_WORDS * (j + 1)]
            == VertexWords(colors[j], positions[j], transformIndices[j])
        {
          if j < i {
            assert data[UI_VERTEX_SIZE_IN_WORDS * j .. UI_VERTEX_SIZE_IN_WORDS * (j + 1)]
                == before[UI_VERTEX_SIZE_IN_WORDS * j .. UI_VERTEX_SIZE_IN_WORDS * (j + 1)];
          } else {
            assert data[UI_VERTEX_SIZE_IN_WORDS * j ..] == VertexWords(color, pos, transformIndex);
          }
        }
      }
    }
  }

  /**
   * `vertex_descriptor`: a 32-byte stride (eight 4-byte words); colour at offset 0
   * (location 1), position at offset 16 (location 0), transform index at offset 28
   * (location 2).
   */
  function UiVertexDescriptor(): (l: VertexBufferLayout)
    ensures l.arrayStride == 32 && l.arrayStride == WORD_SIZE * UI_VERTEX_SIZE_IN_WORDS
    ensures |l.attributes| == 3
    ensures l.attributes[0].shaderLocation == 1 && l.attributes[1].shaderLocation == 0
    ensures l.attributes[2].shaderLocation == 2
  {
    VertexBufferLayout(8 * WORD_SIZE, [
      VertexAttribute(Float32x4, 0, 1),
      VertexAttribute(Float32x3, 4 * WORD_SIZE, 0),
      VertexAttribute(Uint32, 7 * WORD_SIZE, 2)])
  }

  /** The words of one vertex an attribute covers. */
  function WordSlot(a: VertexAttribute, words: seq<Word>): (s: seq<Word>)
    requires a.offset % WORD_SIZE == 0 && a.offset / WORD_SIZE + Components(a.format) <= |words|
    ensures |s| == Components(a.format)
  {
    words[a.offset / WORD_SIZE .. a.offset / WORD_SIZE + Components(a.format)]
  }

  /**
   * The UI descriptor's attributes lie back to back and fill the stride, and each reads
   * what `vertex_data` writes there: the colour, the position and the transform index.
   */
  lemma UiDescriptorReadsVertex(c: Color, p: Float3, transformIndex: nat)
    ensures var l, v := UiVertexDescriptor(), VertexWords(c, p, transformIndex);
      l.attributes[0].offset == 0
      && (forall k :: 1 <= k < 3 ==>
            l.attributes[k].offset == l.attributes[k - 1].offset + WORD_SIZE * Components(l.attributes[k - 1].format))
      && l.attributes[2].offset + WORD_SIZE * Components(l.attributes[2].format) == l.arrayStride
      && (forall k :: 0 <= k < 3 ==>
            l.attributes[k].offset % WORD_SIZE == 0 && l.attributes[k].offset / WORD_SIZE + Components(l.attributes[k].format) <= |v|)
      && WordSlot(l.attributes[0], v) == [F32(c.r), F32(c.g), F32(c.b), F32(c.a)]
      && WordSlot(l.attributes[1], v) == [F32(p.x), F32(p.y), F32(p.z)]
      && WordSlot(l.attributes[2], v) == [U32(transformIndex)]
  {
    var v := VertexWords(c, p, transformIndex);
    assert v[0..4] == [v[0], v[1], v[2], v[3]];
    assert v[4..7] == [v[4], v[5], v[6]];
    assert v[7..8] == [v[7]];
  }
}
