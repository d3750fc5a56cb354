# Minie debug visualisation and test shapes, modelled in Dafny

This project models three pieces of the Minie physics library for jMonkeyEngine.

- **SoftDebugAppState** (module `SoftDebug`, file `soft_debug.dfy`). Once per frame the soft-body debug
  app state reconciles its map from soft bodies to visualisation nodes with the physics space's live
  soft-body list, and only then runs the base app state's update. The reconciliation works like this:
  - A displayed body that was already mapped keeps its node.
  - A displayed newcomer gets a fresh node with one `SoftBodyDebugControl`, attached to the debug root.
  - The nodes of bodies that are gone, or no longer displayed, are detached.

  The app state also keeps three face materials: invisible, single-sided red wireframe and
  double-sided red wireframe.
- **BulletRigidBodyDebugControl** (module `RigidDebug`, file `rigid_debug.dfy`). This is the control that
  visualises one rigid body. Every frame it compares the body's collision shape, margin, debug-mesh
  normals, resolution and scale with what its geometry was generated for. A compound shape is rebuilt
  every frame; any other shape is rebuilt only when one of those five differs. A rebuilt geometry
  replaces the old one on the controlled node. Then the geometry gets its material: the body's own
  debug material, or else yellow, magenta or blue according to the body's state.
- **MinieTestShapes** (modules `TestShapes` and `TestShapeRegistry`, files `test_shapes.dfy` and
  `test_shape_registry.dfy`). The recipes of the compound test shapes (barbell, chair, knucklebone,
  ladder, top, tray) are modelled as child lists, and `addShapes` registers them by name. The random
  generators are modelled too:
  - `randomHull` draws 5–25 vertices and builds an octahedron, icosahedron, prism, dome, or the
    origin plus random points at distance 1.5, depending on that count;
  - `randomTetrahedron` builds a tetrahedron from four random distances.

Shared stand-ins live in `physics.dfy` (module `Physics`: soft and rigid bodies, collision shapes,
`Vector3f`), `scene_graph.dfy` (module `SceneGraph`: nodes as child lists, materials, controls) and
`wrappers.dfy` (`Option`).

Objects whose fields the source updates are classes:
- the two debug states;
- scene-graph nodes;
- compound shapes;
- the named-shape map;
- the generator;
- the float buffer.

The pure decision logic is functions: the rebuild test, material selection, the face materials and
the hull strategy. Each modelled loop of the source is a method with loop invariants:
- the soft-body reconciliation, whose loop body is `ShowLiveBody`;
- the detaching of leftover nodes, `DetachLeftovers`;
- the random-point buffer fill, whose loop body is `PutRandomPoint`.

A pseudo-random `Generator` is modelled as three given streams of values, indexed by draw number:
integers below a bound, floats in [0, 1) and unit vectors. It also keeps a log of the draws it has
made. So each random construction is proved equal to an explicit function of the streams, and its
draws are stated exactly.

## Model

| member | source | states |
|---|---|---|
| SoftDebug.SoftDebugAppState.UpdateSoftBodies | MinieLibrary/src/main/java/com/jme3/bullet/debug/SoftDebugAppState.java:240-265 | the new map's keys are exactly the displayed live bodies; a body mapped before keeps its node; a newcomer gets a fresh node holding one SoftBodyDebugControl for it; the root's children are the old children minus the leftover nodes, followed by the newcomers' nodes in list order; the node map stays injective; when the old keys already equal the displayed bodies, the map and the root are left exactly as they were (idempotence) |
| SoftDebug.SoftDebugAppState.ShowDisplayed | MinieLibrary/src/main/java/com/jme3/bullet/debug/SoftDebugAppState.java:241-260 | the first loop: the new map covers exactly the displayed bodies; what is returned is the old map restricted to the bodies not kept; newcomers' nodes are appended to the root in list order |
| SoftDebug.SoftDebugAppState.ShowLiveBody | MinieLibrary/src/main/java/com/jme3/bullet/debug/SoftDebugAppState.java:246-259 | one loop iteration keeps the reconciliation invariant (Synced) for one more live body; a filtered-out body changes nothing |
| SoftDebug.SoftDebugAppState.ShowBody | MinieLibrary/src/main/java/com/jme3/bullet/debug/SoftDebugAppState.java:248-257 | the body is removed from the old map; when it had a node, that node is reused and the root is untouched; otherwise a fresh node, not in either map, carries exactly one debug control for the body and is appended to the root |
| SoftDebug.SoftDebugAppState.DetachLeftovers | MinieLibrary/src/main/java/com/jme3/bullet/debug/SoftDebugAppState.java:262-264 | the root's children lose exactly the leftover nodes, order otherwise kept |
| SoftDebug.SoftDebugAppState.Update | MinieLibrary/src/main/java/com/jme3/bullet/debug/SoftDebugAppState.java:228-232 | the soft bodies are synchronized before the base state is updated, and the update has UpdateSoftBodies' effect on the map and the root; when every mapped node was a child of the root before, every mapped node is one afterwards, so the node of every displayed body stays attached |
| SoftDebug.SoftDebugAppState.BaseUpdate | MinieLibrary/src/main/java/com/jme3/bullet/debug/SoftDebugAppState.java:231 | the base update is recorded as the last phase, with its time per frame |
| SoftDebug.Newcomers | MinieLibrary/src/main/java/com/jme3/bullet/debug/SoftDebugAppState.java:246-256 | each newcomer is a live, displayed body that the old map did not know |
| SoftDebug.NewcomersComplete | MinieLibrary/src/main/java/com/jme3/bullet/debug/SoftDebugAppState.java:246-256 | conversely, every live displayed body that the old map did not know is a newcomer |
| SoftDebug.NoNewcomers | MinieLibrary/src/main/java/com/jme3/bullet/debug/SoftDebugAppState.java:246-256 | when every displayed body is already known, no node is created |
| SoftDebug.NoLeftovers | MinieLibrary/src/main/java/com/jme3/bullet/debug/SoftDebugAppState.java:262-264 | when every old body is kept, no node is detached |
| SoftDebug.FilteredOutDetached | MinieLibrary/src/main/java/com/jme3/bullet/debug/SoftDebugAppState.java:247-264 | a mapped body that the filter no longer displays is not kept, and its node is among the leftovers that are detached, even while the body is live |
| SoftDebug.SoftDebugAppState.ChangeFilter | MinieLibrary/src/main/java/com/jme3/bullet/debug/SoftDebugAppState.java:247 | the filter is consulted afresh every frame: its answers may change between updates, and the next update uses the new ones |
| SoftDebug.ReconciledAttached | MinieLibrary/src/main/java/com/jme3/bullet/debug/SoftDebugAppState.java:246-264 | if every old node was a root child, then after the reconciliation every node of the new map is a root child: a kept node is no leftover, because no two bodies share a node, and every new body is a newcomer whose node was appended |
| SoftDebug.SyncedStep | MinieLibrary/src/main/java/com/jme3/bullet/debug/SoftDebugAppState.java:246-259 | the loop invariant: after a prefix of the live list, the map covers its displayed bodies, reuses old nodes, gives newcomers nodes foreign to the old map, and stays injective |
| SoftDebug.FaceMaterial | MinieLibrary/src/main/java/com/jme3/bullet/debug/SoftDebugAppState.java:209-215 | zero sides is invisible; one and two sides are red wireframes, and only two sides is double-sided |
| SoftDebug.SoftDebugAppState.SetupFaceMaterials | MinieLibrary/src/main/java/com/jme3/bullet/debug/SoftDebugAppState.java:209-215 | afterwards the three face materials are the ones FaceMaterial describes |
| SoftDebug.SoftDebugAppState.GetFaceMaterial | MinieLibrary/src/main/java/com/jme3/bullet/debug/SoftDebugAppState.java:153-157 | returns the stored material for the number of sides, which is the FaceMaterial for it once set up; the index must be 0–2 and the slot set (the source's array access and assert) |
| SoftDebug.SoftDebugAppState.constructor | MinieLibrary/src/main/java/com/jme3/bullet/debug/SoftDebugAppState.java:108-113 | a new state starts with an empty soft-body map, a fresh root with no children or controls, the given filter, and unset face materials |
| SceneGraph.Without | MinieLibrary/src/main/java/com/jme3/bullet/debug/SoftDebugAppState.java:262-264 | a child list without the given nodes: it keeps exactly the children not removed and is no longer |
| SceneGraph.Attach | MinieLibrary/src/main/java/com/jme3/bullet/debug/SoftDebugAppState.java:251 | attaching adds the child at the end unless it is already a child, and keeps every earlier child in place |
| RigidDebug.RebuildNeeded | MinieLibrary/src/main/java/com/jme3/bullet/debug/BulletRigidBodyDebugControl.java:160-175 | a compound shape is always rebuilt; any other shape is rebuilt exactly when the shape object, margin, normals, resolution or scale differs from the cached ones |
| RigidDebug.RebuildSettles | MinieLibrary/src/main/java/com/jme3/bullet/debug/BulletRigidBodyDebugControl.java:160-182 | once the cache equals the body's current snapshot, a rebuild is due only for a compound shape |
| RigidDebug.SelectMaterial | MinieLibrary/src/main/java/com/jme3/bullet/debug/BulletRigidBodyDebugControl.java:205-215 | the body's own material wins; otherwise yellow exactly when contact response is off, magenta exactly when it is on and the body is dynamic and active, and blue in the remaining cases |
| RigidDebug.BulletRigidBodyDebugControl.UpdateMaterial | MinieLibrary/src/main/java/com/jme3/bullet/debug/BulletRigidBodyDebugControl.java:205-216 | the geometry's material becomes the one SelectMaterial picks for the body's current state |
| RigidDebug.BulletRigidBodyDebugControl.constructor | MinieLibrary/src/main/java/com/jme3/bullet/debug/BulletRigidBodyDebugControl.java:108-122 | the cache holds the body's current shape, margin, normals, resolution and scale; a fresh geometry is generated for exactly that snapshot and given the body's material |
| RigidDebug.BulletRigidBodyDebugControl.SetSpatial | MinieLibrary/src/main/java/com/jme3/bullet/debug/BulletRigidBodyDebugControl.java:134-142 | adding the control to a node attaches the geometry to it and leaves any other node alone; removing it from a node detaches the geometry; removing it from a non-node spatial fails the cast (ok is false, nothing changes); otherwise the controlled spatial becomes the new one |
| RigidDebug.BulletRigidBodyDebugControl.ControlUpdate | MinieLibrary/src/main/java/com/jme3/bullet/debug/BulletRigidBodyDebugControl.java:153-193 | rebuilds exactly when RebuildNeeded says so; a rebuild recaches the body's snapshot and replaces the old geometry on the node with a fresh one generated for that snapshot; without a rebuild the cache, geometry and node are unchanged; the material is then the body's; a rebuild on a non-node spatial fails the cast after recaching, leaving geometry and material as they were |
| TestShapes.StrategyBuckets | MinieExamples/src/main/java/jme3utilities/minie/test/shape/MinieTestShapes.java:343-398 | over 5–25 vertices: octahedron exactly for 6, icosahedron exactly for 12, prism exactly for 8, 10 and 14, dome exactly for 21–25, random points exactly for the rest |
| TestShapes.PrismSides | MinieExamples/src/main/java/jme3utilities/minie/test/shape/MinieTestShapes.java:359-366 | a prism has 4, 5 or 7 sides, and twice that is the vertex count |
| TestShapes.RandomPointsExtra | MinieExamples/src/main/java/jme3utilities/minie/test/shape/MinieTestShapes.java:398-408 | the random-points hull has 4 to 19 vertices besides the origin |
| TestShapes.HullVertexCount | MinieExamples/src/main/java/jme3utilities/minie/test/shape/MinieTestShapes.java:340-417 | every construction yields the drawn vertex count, except the dome, which has 181 vertices |
| TestShapes.RandomPointsAt | MinieExamples/src/main/java/jme3utilities/minie/test/shape/MinieTestShapes.java:403-407 | the random points are the origin, then unit-vector draw number start + j - 1 scaled by 1.5 at each later position j |
| TestShapes.RandomPointsOnSphere | MinieExamples/src/main/java/jme3utilities/minie/test/shape/MinieTestShapes.java:402-408 | before centring, the random-points buffer holds 3n coordinates: the origin, then n-1 points at distance 1.5 from it |
| TestShapes.RandomHull | MinieExamples/src/main/java/jme3utilities/minie/test/shape/MinieTestShapes.java:339-422 | the vertex count is 5 plus the generator's next integer below 21; the hull is the construction StrategyFor picks, with the radius, height and angle formulas taken from the next float draws or the unit-vector draws; the draws made are exactly the integer draw followed by those |
| TestShapes.RandomPointsBuffer | MinieExamples/src/main/java/jme3utilities/minie/test/shape/MinieTestShapes.java:402-408 | the buffer loop writes the origin, then 1.5 times each of n-1 consecutive unit-vector draws, in order, and makes exactly those draws |
| TestShapes.PutRandomPoint | MinieExamples/src/main/java/jme3utilities/minie/test/shape/MinieTestShapes.java:404-407 | one loop iteration draws one unit vector and appends its three coordinates, scaled by 1.5, to the buffer |
| TestShapes.FloatBuffer.PutVector | MinieExamples/src/main/java/jme3utilities/minie/test/shape/MinieTestShapes.java:403 | writes the three coordinates at the buffer position and advances it by three |
| TestShapes.TetrahedronDistinct | MinieExamples/src/main/java/jme3utilities/minie/test/shape/MinieTestShapes.java:436-439 | with positive distances the four vertices are pairwise distinct |
| TestShapes.RandomTetrahedron | MinieExamples/src/main/java/jme3utilities/minie/test/shape/MinieTestShapes.java:430-444 | the simplex's vertices lie at 0.15 plus four consecutive float draws along alternating cube diagonals, and exactly those four floats are drawn |
| TestShapes.MakeBarbell | MinieExamples/src/main/java/jme3utilities/minie/test/shape/MinieTestShapes.java:124-141 | a fresh compound shape whose children are the bar and the two plates, at the source's offsets |
| TestShapes.MakeChair | MinieExamples/src/main/java/jme3utilities/minie/test/shape/MinieTestShapes.java:149-181 | a fresh compound shape whose children are the seat, the front legs, the rear legs and the back, at the source's offsets |
| TestShapes.MakeKnucklebone | MinieExamples/src/main/java/jme3utilities/minie/test/shape/MinieTestShapes.java:205-230 | a fresh compound shape whose children are three capsule stems and four balls |
| TestShapes.MakeLadder | MinieExamples/src/main/java/jme3utilities/minie/test/shape/MinieTestShapes.java:237-260 | a fresh compound shape whose children are five rungs and two rails |
| TestShapes.MakeTop | MinieExamples/src/main/java/jme3utilities/minie/test/shape/MinieTestShapes.java:267-290 | a fresh compound shape whose children are the body cylinder, the cone and the handle |
| TestShapes.MakeTray | MinieExamples/src/main/java/jme3utilities/minie/test/shape/MinieTestShapes.java:298-331 | a fresh compound shape whose children are the base, the deflector and four bumpers |
| TestShapes.BarbellSymmetric | MinieExamples/src/main/java/jme3utilities/minie/test/shape/MinieTestShapes.java:124-141 | the barbell is mirror-symmetric in x: the bar maps to itself and the plates swap |
| TestShapes.ChairLegsLevel | MinieExamples/src/main/java/jme3utilities/minie/test/shape/MinieTestShapes.java:149-181 | all four legs end at the floor level y = -2 and the front legs reach up to the seat's mid-plane; the back, between the rear legs, spans from the seat's mid-plane (y = 0) up to the height of the rear legs' tops |
| TestShapes.KnuckleboneBallsAtStemTips | MinieExamples/src/main/java/jme3utilities/minie/test/shape/MinieTestShapes.java:205-230 | one centred capsule stem lies along each axis, and the four equal balls are centred at the ends of the cylindrical parts of the x and y stems (a capsule's height excludes its caps) |
| TestShapes.LadderEvenlySpaced | MinieExamples/src/main/java/jme3utilities/minie/test/shape/MinieTestShapes.java:237-260 | the five equal rungs are 2 apart from y = 4 down, and the two equal rails sit at the rungs' ends |
| TestShapes.TopContiguous | MinieExamples/src/main/java/jme3utilities/minie/test/shape/MinieTestShapes.java:267-290 | the cone's base meets the body's upper face, the cylindrical part of the handle ends at the body's lower face (its cap reaches into the body), and the cone is narrower than the body |
| TestShapes.TrayBumpersFlush | MinieExamples/src/main/java/jme3utilities/minie/test/shape/MinieTestShapes.java:298-331 | the bumpers are flush with the base's edges in mirrored pairs, and the deflector has four vertices |
| TestShapeRegistry.AddShapes | MinieExamples/src/main/java/jme3utilities/minie/test/shape/MinieTestShapes.java:99-117 | afterwards the map's keys are the old keys plus the six test-shape names; every other entry is unchanged; each name maps to a fresh shape with its recipe's children |
| TestShapeRegistry.NamedShapes.Put | MinieExamples/src/main/java/jme3utilities/minie/test/shape/MinieTestShapes.java:101 | Map.put: the name maps to the shape, replacing any earlier entry |

## Left out

- updateAxes (SoftDebugAppState.java:258) and the axis visualisation it manages are not modelled.
- The cluster, link, anchor and pin materials are not modelled. Neither are their getters, the cluster filter, textures or render state. Of setupMaterials only the three face materials are modelled. Their names ("debug red ss"/"debug red ds") and FaceCullMode.Off are represented by the `doubleSided` flag.
- Node names (`softBody.toString()`, `geom.setName`) and all logging are left out.
- The soft-body nodes' transform updates and the control's `applyPhysicsTransform` (BulletRigidBodyDebugControl.java:194-196) are rendering state and are left out.
- The base app state's update is recorded only as an entry of a ghost log of phases (`BaseUpdate`), which orders it after the soft-body reconciliation.
- SoftDebug.SoftDebugAppState.Update: its clauses on the root's children describe only the soft-body reconciliation. The base update also attaches and detaches nodes for the space's other objects on the same root, and BulletDebugAppState is not part of this model. BulletDebugAppState is not part of this model, so its DEBUG_BLUE, DEBUG_MAGENTA and DEBUG_YELLOW are taken to be wireframes of those colours.
- The scene graph is modelled by child lists only, with no parent links. `Attach` therefore does not move a child away from an earlier parent. `Without` removes every occurrence, which agrees with jME while no child is listed twice.
- Controls are values (`SoftBodyDebugControl(body)`), not objects, so two controls for the same body are indistinguishable.
- SoftDebug.SoftDebugAppState.UpdateSoftBodies: the live list is required to hold no body twice, as a soft space's body list does. The physics space itself is not part of this model, so the list is a parameter.
- RigidDebug.BulletRigidBodyDebugControl.SetSpatial: AbstractControl.setSpatial's IllegalStateException for a control that already has a spatial is not modelled. jME's AbstractControl is not part of this model.
- RigidDebug.BulletRigidBodyDebugControl.ControlUpdate: the ClassCastException of the node cast is modelled as `ok == false`, with the state reached at the throw. A missing spatial is excluded by the precondition, since the control is updated only while added to a spatial.
- RigidDebug.RebuildNeeded: floats are exact reals, so the NaN behaviour of `!=` on margins is not modelled, and neither is `Vector3f.equals`'s use of `Float.compare`, which tells NaN equal to itself and `-0f` apart from `0f`.
- DebugShapeFactory is not modelled: a generated geometry only records the snapshot it was generated for.
- All float arithmetic in the test shapes is exact real arithmetic, so rounding is not modelled. For example `2.4f * plateOffset` is 4.8, and `FastMath.sqrt(2f)` is the float's exact value 1.41421353816986083984375.
- TestShapes.MakeChair: it states the child list before the principal-axes correction. The volumes, masses, inertia, `chairInverseInertia` and `correctAxes` (MinieTestShapes.java:183-195) are left out, as are the mesh-volume and float-buffer computations they need.
- Misc.deepCopy of the legs, and the sharing of one child shape object between children, are not modelled: a child is a value.
- TestShapes.RandomHull: the hull holds the construction's parameters (the mesh and its radius, or the raw random-point coordinates), not centred vertices. The mesh classes (Octahedron, Icosahedron, Prism, DomeMesh), the scaling of the dome and both centring steps (max-min midpoint and arithmetic mean) are not modelled. The buffer before centring is modelled and proved.
- The Generator is modelled as given value streams, so java.util.Random's algorithm and the sampling of unit vectors are not modelled. Only the value ranges and the order of draws are.
- TestShapeRegistry.AddShapes: the map's values are compound shapes, not the general CollisionShape the source allows.
- TestDebugToPost, the example application, is not modelled.
