/**
 * The debug control that visualizes one rigid body (BulletRigidBodyDebugControl):
 * it keeps a debug geometry for the body's collision shape, rebuilds it when
 * the shape or its debug parameters change, and colours it by the body's state.
 */
module RigidDebug {
  import opened Wrappers
  import opened SceneGraph
  import opened Physics

  /** The debug materials of the base debug app state. */
  const DebugBlue := Wireframe(Blue, false)
  const DebugMagenta := Wireframe(Magenta, false)
  const DebugYellow := Wireframe(Yellow, false)

  /** What a debug geometry is generated from. */
  datatype ShapeSnapshot = ShapeSnapshot(
    shape: CollisionShape,
    margin: real,
    normals: DebugMeshNormals,
    resolution: int,
    scale: Vector3f)

  /**
   * Whether the geometry generated for `cached` must be regenerated for
   * `current`: always for a compound shape, whose children may have changed,
   * and otherwise when the shape object or any debug parameter differs.
   */
  function RebuildNeeded(cached: ShapeSnapshot, current: ShapeSnapshot): (r: bool)
    ensures current.shape.isCompound ==> r
    ensures !current.shape.isCompound ==> (r <==> cached != current)
  {
    if current.shape.isCompound then true
    else if cached.shape != current.shape then true
    else if cached.margin != current.margin then true
    else if cached.normals != current.normals then true
    else if cached.resolution != current.resolution then true
    else if cached.scale != current.scale then true
    else false
  }

  /** Once the cache matches the body, only a compound shape is rebuilt again. */
  lemma RebuildSettles(s: ShapeSnapshot)
    ensures RebuildNeeded(s, s) <==> s.shape.isCompound
  {
  }

  /**
   * The material of a body's debug geometry: the body's own debug material
   * if it has one; otherwise yellow for a body without contact response,
   * magenta for a responsive dynamic body that is active, and blue for the rest.
   */
  function SelectMaterial(own: Option<Material>, contactResponse: bool, kinematic: bool, active: bool): (m: Material)
    ensures own.Some? ==> m == own.value
    ensures own.None? ==> m == DebugYellow || m == DebugMagenta || m == DebugBlue
    ensures own.None? ==> (m == DebugYellow <==> !contactResponse)
    ensures own.None? ==> (m == DebugMagenta <==> contactResponse && !kinematic && active)
  {
    if own.Some? then own.value
    else if !contactResponse then DebugYellow
    else if !kinematic && active then DebugMagenta
    else DebugBlue
  }

  /** The material chosen for the current state of `body`. */
  function BodyMaterial(body: RigidBody): Material
    reads body
  {
    SelectMaterial(body.debugMaterial, body.contactResponse, body.kinematic, body.active)
  }

  /** The snapshot a debug geometry for `body` would be generated from now. */
  function SnapshotOf(body: RigidBody): ShapeSnapshot
    reads body, body.shape
  {
    ShapeSnapshot(body.shape, body.shape.margin, body.debugMeshNormals,
                  body.debugMeshResolution, body.shape.scale)
  }

  /**
   * A debug geometry as DebugShapeFactory generates it: a new spatial that
   * remembers what it was generated from, with a material set afterwards.
   */
  class DebugGeometry {
    const builtFor: ShapeSnapshot
    var material: Option<Material>

    constructor (builtFor: ShapeSnapshot)
      ensures this.builtFor == builtFor && material == None
    {
      this.builtFor := builtFor;
      material := None;
    }
  }

  /** The spatial a control is added to: a node, or some other geometry. */
  datatype Spatial = NodeSpatial(node: Node) | GeometrySpatial(geometry: object)

  /** The nodes among the spatial `s`. */
  function NodeOf(s: Option<Spatial>): set<Node>
  {
    if s.Some? && s.value.NodeSpatial? then {s.value.node} else {}
  }

  class BulletRigidBodyDebugControl {
    /** the body to visualize */
    const body: RigidBody
    /** the shape, margin, normals, resolution and scale geom was generated for */
    var myShape: CollisionShape
    var oldMargin: real
    var oldNormals: DebugMeshNormals
    var oldResolution: int
    var oldScale: Vector3f
    /** the geometry that visualizes myShape */
    var geom: DebugGeometry
    /** the spatial this control is added to, if any */
    var spatial: Option<Spatial>

    /** What the cached fields say geom was generated for. */
    function Cached(): ShapeSnapshot
      reads this
    {
      ShapeSnapshot(myShape, oldMargin, oldNormals, oldResolution, oldScale)
    }

    /** Create an enabled control for `body`, with a geometry for its current shape. */
    constructor (body: RigidBody)
      ensures this.body == body && spatial == None
      ensures Cached() == SnapshotOf(body)
      ensures fresh(geom) && geom.builtFor == SnapshotOf(body)
      ensures geom.material == Some(BodyMaterial(body))
    {
      this.body := body;
      myShape := body.shape;
      oldMargin := body.shape.margin;
      oldNormals := body.debugMeshNormals;
      oldResolution := body.debugMeshResolution;
      oldScale := body.shape.scale;
      geom := new DebugGeometry(SnapshotOf(body));
      spatial := None;
      new;
      UpdateMaterial();
    }

    /**
     * Add this control to `s`, or remove it from its spatial when `s` is None.
     * A node gets the geometry as a child, and on removal the node loses it.
     * When the control is removed from a spatial that is not a node, the
     * cast to a node fails: `ok` is false and nothing changes.
     */
    method SetSpatial(s: Option<Spatial>) returns (ok: bool)
      modifies this`spatial, NodeOf(s)`children, NodeOf(spatial)`children
      ensures ok <==> !(s.None? && old(spatial).Some? && old(spatial).value.GeometrySpatial?)
      ensures ok ==> spatial == s
      ensures !ok ==> spatial == old(spatial)
      ensures s.Some? && s.value.NodeSpatial? ==>
                s.value.node.children == Attach(old(s.value.node.children), geom)
      ensures s.None? && old(spatial).Some? && old(spatial).value.NodeSpatial? ==>
                old(spatial).value.node.children == Without(old(spatial.value.node.children), {geom})
      ensures s.Some? && s.value.GeometrySpatial? ==> unchanged(NodeOf(old(spatial)))
      ensures s.Some? ==> unchanged(NodeOf(old(spatial)) - NodeOf(s))
    {
      ok := true;
      if s.Some? && s.value.NodeSpatial? {
        s.value.node.AttachChild(geom);
      } else if s.None? && spatial.Some? {
        if spatial.value.NodeSpatial? {
          spatial.value.node.DetachChild(geom);
        } else {
          ok := false;
        }
      }
      if ok {
        spatial := s;
      }
    }

    /**
     * The per-frame update. It rebuilds the geometry when RebuildNeeded says
     * so, recaching the new snapshot and swapping the new geometry in for the
     * old one on the node; then it sets the material. When a rebuild is due
     * but the control's spatial is not a node, the cast fails after the cache
     * was overwritten: `ok` is false and geom keeps its old shape and material.
     */
    method ControlUpdate() returns (rebuilt: bool, ok: bool)
      requires spatial.Some?
      modifies this`myShape, this`oldMargin, this`oldNormals, this`oldResolution, this`oldScale
      modifies this`geom, geom`material, NodeOf(spatial)`children
      ensures rebuilt == RebuildNeeded(old(Cached()), SnapshotOf(body))
      ensures ok <==> !(rebuilt && spatial.value.GeometrySpatial?)
      ensures rebuilt ==> Cached() == SnapshotOf(body)
      ensures !rebuilt ==> Cached() == old(Cached()) && geom == old(geom) && unchanged(NodeOf(spatial))
      ensures rebuilt && ok ==>
                && fresh(geom) && geom.builtFor == SnapshotOf(body)
                && spatial.value.node.children == Without(old(spatial.value.node.children), {old(geom)}) + [geom]
      ensures ok ==> geom.material == Some(BodyMaterial(body))
      ensures !ok ==> geom == old(geom) && geom.material == old(geom.material)
    {
      rebuilt := RebuildNeeded(Cached(), SnapshotOf(body));
      ok := true;
      if rebuilt {
        myShape, oldMargin, oldNormals := body.shape, body.shape.margin, body.debugMeshNormals;
        oldResolution, oldScale := body.debugMeshResolution, body.shape.scale;
        if spatial.value.GeometrySpatial? {
          ok := false;
          return;
        }
        var node := spatial.value.node;
        node.DetachChild(geom);
        geom := new DebugGeometry(SnapshotOf(body));
        assert geom !in node.children;
        node.AttachChild(geom);
      }
      UpdateMaterial();
    }

    /** Set the material of the geometry according to the body. */
    method UpdateMaterial()
      modifies geom`material
      ensures geom.material == Some(BodyMaterial(body))
    {
      geom.material := Some(SelectMaterial(body.debugMaterial, body.contactResponse, body.kinematic, body.active));
    }
  }
}
