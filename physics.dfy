/**
 * Stand-ins for the objects of the native physics engine that the debug
 * visualization reads. Only the state the debug code consults is kept;
 * the engine's own behaviour is outside this model.
 */
module Physics {
  import opened Wrappers
  import opened SceneGraph

  /** A vector of three components (jME's Vector3f), compared exactly. */
  datatype Vector3f = Vector3f(x: real, y: real, z: real)

  const Origin := Vector3f(0.0, 0.0, 0.0)

  /** The options for the normals of a debug mesh (Minie's DebugMeshNormals). */
  datatype DebugMeshNormals = NoNormals | Facet | Smooth | Sphere

  /** A simulated soft body; only its identity matters here. */
  class SoftBody {
    constructor ()
    {
    }
  }

  /**
   * A collision shape. Its identity is the object itself; `isCompound` says
   * whether it is a CompoundCollisionShape, whose children may change while
   * the shape stays the same object.
   */
  class CollisionShape {
    const isCompound: bool
    var margin: real
    var scale: Vector3f

    constructor (isCompound: bool, margin: real, scale: Vector3f)
      ensures this.isCompound == isCompound
      ensures this.margin == margin && this.scale == scale
    {
      this.isCompound := isCompound;
      this.margin := margin;
      this.scale := scale;
    }
  }

  /** A rigid body, as far as its debug visualization reads it. */
  class RigidBody {
    var shape: CollisionShape
    var debugMeshNormals: DebugMeshNormals
    var debugMeshResolution: int
    /** the body's own debug material, or None to let the control choose */
    var debugMaterial: Option<Material>
    var contactResponse: bool
    var kinematic: bool
    var active: bool

    constructor (shape: CollisionShape)
      ensures this.shape == shape
      ensures debugMeshNormals == NoNormals && debugMeshResolution == 0
      ensures debugMaterial == None
      ensures contactResponse && !kinematic && active
    {
      this.shape := shape;
      debugMeshNormals := NoNormals;
      debugMeshResolution := 0;
      debugMaterial := None;
      contactResponse, kinematic, active := true, false, true;
    }
  }
}
