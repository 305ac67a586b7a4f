/**
 * Render graph nodes (core/graph/node.rs): `GraphNodeBuilder`, whose setters take and
 * return the builder, and the `GraphNode` it builds. GPU objects (pipelines, textures,
 * systems) are identified by opaque values; the model keeps what the node logic decides.
 */
module GraphNodes {
  import opened Wrappers
  import opened Ids
  import Seqs

  /** A `PipelineBuilder`, identified by an opaque number. */
  type PipelineBuilder = nat

  /** A `CustomGraphSystem`, identified by an opaque number. */
  type CustomSystem = nat

  /** A `GraphSystem`: its name is what `build` changes. */
  datatype GraphSystem = GraphSystem(name: string)

  /** The width and height of an image (`Extent3d`; the depth layer count is not modelled). */
  datatype Extent = Extent(width: U32, height: U32)

  /** An owned image target: its size and, when present, its texture descriptor's size. */
  datatype Image = Image(size: Extent, descriptor: Option<Extent>)

  /** `NodeColorTarget`. */
  datatype ColorTarget =
    | ColorSurface | ColorNone | ColorImage(handle: nat) | ColorOwned(image: Image) | ColorNode(node: string)

  /** `NodeDepthTarget`. */
  datatype DepthTarget =
    | DepthNone | DepthImage(handle: nat) | DepthOwned(image: Image) | DepthNode(node: string)

  /** `wgpu::LoadOp` and `wgpu::Operations`: clear to a value or keep, then store or discard. */
  datatype Load<V> = Clear(value: V) | Keep
  datatype Operations<V> = Operations(load: Load<V>, store: bool)

  /** An RGBA colour. */
  datatype Color = Color(r: real, g: real, b: real, a: real)

  const BLACK: Color := Color(0.0, 0.0, 0.0, 1.0)

  /** The default colour operations: clear to black, store. */
  const DEFAULT_COLOR_OPS: Operations<Color> := Operations(Clear(BLACK), true)

  /** The default depth operations: clear to 1.0, store. */
  const DEFAULT_DEPTH_OPS: Operations<real> := Operations(Clear(1.0), true)

  /** `GraphNode`; `data` is reduced to its `needs_regen` flag. */
  datatype GraphNode = GraphNode(
    name: string,
    pipeline: PipelineBuilder,
    system: GraphSystem,
    customSystem: Option<CustomSystem>,
    colorTarget: ColorTarget,
    depthTarget: DepthTarget,
    colorOps: Operations<Color>,
    depthOps: Option<Operations<real>>,
    after: seq<string>,
    before: seq<string>,
    needsRegen: bool)

  /** `GraphNode::new`: no ordering constraints, default operations, data still to generate. */
  function NewNode(name: string, pipeline: PipelineBuilder, system: GraphSystem,
                   colorTarget: ColorTarget, depthTarget: DepthTarget): (r: GraphNode)
    ensures r.name == name && r.after == [] && r.before == [] && r.customSystem.None?
    ensures r.depthOps == Some(DEFAULT_DEPTH_OPS) && r.colorOps == DEFAULT_COLOR_OPS && r.needsRegen
  {
    GraphNode(name, pipeline, system, None, colorTarget, depthTarget, DEFAULT_COLOR_OPS,
              Some(DEFAULT_DEPTH_OPS), [], [], true)
  }

  /** `generate_data`: the GPU data is rebuilt (not modelled) and the node no longer needs it. */
  function Generated(node: GraphNode): (r: GraphNode)
    ensures !r.needsRegen && r == node.(needsRegen := false)
  {
    node.(needsRegen := false)
  }

  /**
   * `resize`: only a node drawing to the surface with an owned depth image is affected; its
   * image (and texture descriptor, when there is one) takes the new size and the node must
   * regenerate its data. Any other node is left exactly as it was.
   */
  function Resized(node: GraphNode, size: Extent): (r: GraphNode)
    ensures !(node.colorTarget.ColorSurface? && node.depthTarget.DepthOwned?) ==> r == node
    ensures node.colorTarget.ColorSurface? && node.depthTarget.DepthOwned? ==>
      r.needsRegen && r.depthTarget.DepthOwned? && r.depthTarget.image.size == size
      && (r.depthTarget.image.descriptor.Some? <==> node.depthTarget.image.descriptor.Some?)
      && (r.depthTarget.image.descriptor.Some? ==> r.depthTarget.image.descriptor.value == size)
      && r.(depthTarget := node.depthTarget, needsRegen := node.needsRegen) == node
  {
    if !node.colorTarget.ColorSurface? then node
    else
      match node.depthTarget
      case DepthOwned(image) =>
        var descriptor := if image.descriptor.Some? then Some(size) else None;
        node.(depthTarget := DepthOwned(Image(size, descriptor)), needsRegen := true)
      case _ => node
  }

  /** Resizing twice to the same size is the same as resizing once. */
  lemma ResizedIdempotent(node: GraphNode, size: Extent)
    ensures Resized(Resized(node, size), size) == Resized(node, size)
  {
  }

  /** `GraphNodeBuilder`. */
  datatype Builder = Builder(
    name: string,
    pipeline: Option<PipelineBuilder>,
    system: Option<GraphSystem>,
    customSystem: Option<CustomSystem>,
    colorTarget: Option<ColorTarget>,
    depthTarget: Option<DepthTarget>,
    colorOps: Operations<Color>,
    depthOps: Option<Operations<real>>,
    after: seq<string>,
    before: seq<string>)

  /** `GraphNodeBuilder::new`: nothing set, default operations. */
  function NewBuilder(name: string): (r: Builder)
    ensures r.name == name && r.pipeline.None? && r.system.None? && r.customSystem.None?
    ensures r.colorTarget.None? && r.depthTarget.None? && r.after == [] && r.before == []
    ensures r.colorOps == DEFAULT_COLOR_OPS && r.depthOps == Some(DEFAULT_DEPTH_OPS)
  {
    Builder(name, None, None, None, None, None, DEFAULT_COLOR_OPS, Some(DEFAULT_DEPTH_OPS), [], [])
  }

  /** `run_after`: records `other` as a dependency once. */
  function RunAfter(b: Builder, other: string): (r: Builder)
    ensures other in r.after && r == b.(after := r.after)
    ensures other in b.after ==> r == b
    ensures other !in b.after ==> r.after == b.after + [other]
  {
    b.(after := Seqs.AppendIfAbsent(b.after, other))
  }

  /** `run_before`: records `other` as a node that must run later, once. */
  function RunBefore(b: Builder, other: string): (r: Builder)
    ensures other in r.before && r == b.(before := r.before)
    ensures other in b.before ==> r == b
    ensures other !in b.before ==> r.before == b.before + [other]
  {
    b.(before := Seqs.AppendIfAbsent(b.before, other))
  }

  /** The builder after the custom-system adjustments `build` makes first. */
  function Prepared(b: Builder): (r: Builder)
    ensures b.customSystem.None? ==> r == b
    ensures b.customSystem.Some? ==>
      r.system == Some(GraphSystem("CLEARED_" + b.name)) && r.depthOps.None?
      && r.colorTarget == (if b.colorTarget.None? then Some(ColorNone) else b.colorTarget)
      && r.depthTarget == (if b.depthTarget.None? then Some(DepthNone) else b.depthTarget)
      && r.(system := b.system, depthOps := b.depthOps, colorTarget := b.colorTarget, depthTarget := b.depthTarget) == b
  {
    if b.customSystem.None? then b
    else
      b.(system := Some(GraphSystem("CLEARED_" + b.name)), depthOps := None,
         colorTarget := if b.colorTarget.None? then Some(ColorNone) else b.colorTarget,
         depthTarget := if b.depthTarget.None? then Some(DepthNone) else b.depthTarget)
  }

  function Required(field: string, name: string): string {
    "Field '" + field + "' for '" + name + "' graph node is required"
  }

  /**
   * `build`: panics when the pipeline, the system or a target is still missing (a custom
   * system supplies the system and defaults the targets first); otherwise the node carries
   * the builder's settings and has its data still to generate.
   */
  function Build(b: Builder): (r: Result<GraphNode>)
    ensures var p := Prepared(b);
      r.Panic? <==> p.pipeline.None? || p.system.None? || p.colorTarget.None? || p.depthTarget.None?
    ensures r.Ok? ==>
      var p := Prepared(b);
      r.value == GraphNode(b.name, p.pipeline.value, p.system.value, b.customSystem, p.colorTarget.value,
                           p.depthTarget.value, b.colorOps, p.depthOps, b.after, b.before, true)
  {
    var p := Prepared(b);
    if p.pipeline.None? then Panic(Required("PipelineBuilder", b.name))
    else if p.system.None? then Panic(Required("System", b.name))
    else if p.colorTarget.None? then Panic(Required("ColorTarget", b.name))
    else if p.depthTarget.None? then Panic(Required("DepthTarget", b.name))
    else
      Ok(GraphNode(b.name, p.pipeline.value, p.system.value, b.customSystem, p.colorTarget.value,
                   p.depthTarget.value, b.colorOps, p.depthOps, b.after, b.before, true))
  }

  /**
   * With a custom system, `build` needs only a pipeline: it never keeps a user system or
   * depth operations, and missing targets become `None`.
   */
  lemma CustomBuild(b: Builder)
    requires b.customSystem.Some?
    ensures Build(b).Panic? <==> b.pipeline.None?
    ensures Build(b).Ok? ==>
      Build(b).value.system.name == "CLEARED_" + b.name && Build(b).value.depthOps.None?
      && (b.colorTarget.None? ==> Build(b).value.colorTarget == ColorNone)
      && (b.depthTarget.None? ==> Build(b).value.depthTarget == DepthNone)
  {
  }

  /** Without a custom system, `build` copies every setting and needs all four fields. */
  lemma PlainBuild(b: Builder)
    requires b.customSystem.None?
    ensures Build(b).Panic? <==> b.pipeline.None? || b.system.None? || b.colorTarget.None? || b.depthTarget.None?
    ensures Build(b).Ok? ==>
      Build(b).value.system == b.system.value && Build(b).value.depthOps == b.depthOps
      && Build(b).value.colorTarget == b.colorTarget.value && Build(b).value.depthTarget == b.depthTarget.value
  {
  }
}
