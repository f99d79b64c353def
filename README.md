# A verified model of parts of the Godot engine

This project is a Dafny model of a slice of the Godot game engine (the 3.x
branch) and its editor, export tools and language glue. It proves
properties of that model. Each source file of the slice becomes one Dafny
module:

- **Android host** (`AndroidHost`, `Godot.java`): the command line read from
  `godot/command_line` and its byte encoding; the start-up flag loop; the
  singleton registry; the sensor axis remap; the lifecycle guards.
- **Translations** (`Translations`, `translation.cpp`): the message map of a
  `Translation`; locale standardisation and validity against the built-in
  locale list; `translate` with its exact and language-only matches.
- **Inspector plugins** (`Inspector`, `editor_inspector.cpp`): the static
  plugin registry; the choice of property editor; edit requests.
- **macOS export** (`OsxExport`, `platform/osx/export/export.cpp`): the
  PackBits channel encoder of `.icns` icons and the icon framing; the
  `Info.plist` template substitution; the zip attribute formula;
  `can_export` and the binary extensions.
- **OS** (`OsCore`, `core/os/os.cpp`): safe directory names, screen
  orientation names, video driver names, the frame-delay tick arithmetic and
  the exit code.
- **Gradle export** (`GradleExport`, `gradle_export_util.h`): the orientation
  mappings and the screen-size, XR and activity manifest tags.
- **Android plugins** (`PluginConfig`, `godot_plugin_config.h`): plugin
  configurations, how they load and validate, and the joined binaries, names
  and Maven repositories.
- **Engine** (`Engine`, `engine.cpp`): the iteration, fps and jitter settings,
  the singleton list and map, and the version string.
- **String buffer** (`StringBuffer`, `string_buffer.h`): `StringBuffer` with
  its short inline array and heap buffer.
- **Logging** (`Logger`, `logger.cpp`): the error filter, the detail choice,
  backup rotation, and the composite logger.
- **Running the game from the editor** (`EditorRun`, `editor_run.cpp`): the
  argument list, the screen and scale choice, and the status.
- **Dependency editor** (`DependencyEditor`, `dependency_editor.cpp`):
  candidate scoring for broken dependencies, the dependency list parsing,
  the remove dialog, and favourites pruning.
- **World** (`World`, `scene/resources/world.cpp`): the spatial indexer's
  notifier and camera maps and their enter/exit updates.
- **CSG** (`Csg` and `Layers`, `csg_shape.cpp`): the collision bit helpers,
  dirtiness propagation to the root shape, the primitive setters and the
  primitives' face counts.
- **Ray cast** (`Ray`, `ray_cast.cpp`): the node's mask, exceptions and
  collision result.
- **Soft body** (`SoftBody`, `soft_body_bullet.cpp`): pinned nodes, the mass
  rules and the vertex merge of the triangle mesh.
- **Sprite frames editor** (`SpriteFrames`,
  `sprite_frames_editor_plugin.cpp`): sheet cell selection, unique
  animation names and the selection clamp.
- **BVH box** (`Bvh`, `bvh_abb.h`): `BVH_ABB`, with its negated maximum.
- **Collada** (`Collada`, `collada.h`): the version, weight and vertex orders,
  and `fix_weights`.
- **Mono OS utilities** (`MonoOs`, `GodotTools/Utils/OS.cs`): argument
  quoting, `PATH` search and platform names.
- **RID** (`GodotRid`, `GodotSharp/Core/RID.cs`): the disposal state machine.

`Wrappers` holds `Option`/`Result` and byte helpers. `Text` holds the
string operations of Godot's `String` that the modules share. `Geometry`
holds `Vector3`.

Where the source changes state in place, the model is a class with
`modifies` clauses. Those methods are proved against functions on values,
and the properties are proved about those functions. Floats are exact
reals, or integers where only comparisons matter. Calls into code outside
the model are parameters: the file system, the clock, the physics space,
the octree and the native side of the C# glue.

## Model

| member | source | states |
|---|---|---|
| AndroidHost.LeInt32 | export/platform/android/java/lib/src/org/godotengine/godot/Godot.java:529 | four bytes read little-endian as a Java `int`: within the 32-bit signed range, and equal to the unsigned value when not negative |
| Bytes.Chars | export/platform/android/java/lib/src/org/godotengine/godot/Godot.java:545-547 | an argument body becomes a string of one character per byte, each with that byte's code |
| AndroidHost.Entries | export/platform/android/java/lib/src/org/godotengine/godot/Godot.java:533-549 | reading `n` entries either fails as a whole or yields exactly `n` slots |
| AndroidHost.DecodeCommandLine | export/platform/android/java/lib/src/org/godotengine/godot/Godot.java:521-554 | a non-empty result has exactly as many slots as the count field says |
| AndroidHost.ParseCommandLine | export/platform/android/java/lib/src/org/godotengine/godot/Godot.java:521-554 | the read loop returns exactly what `DecodeCommandLine` describes for the asset bytes |
| AndroidHost.ReadEntry | export/platform/android/java/lib/src/org/godotengine/godot/Godot.java:534-548 | one turn of the loop: a short length field or a length above 65535 fails the whole parse; otherwise the slot is read and the cursor moves past it |
| AndroidHost.ArgBytes | export/platform/android/java/lib/src/org/godotengine/godot/Godot.java:545-547 | the bytes written for an argument read back as that argument |
| AndroidHost.EntriesHead | export/platform/android/java/lib/src/org/godotengine/godot/Godot.java:534-548 | an entry written for an argument reads back as that argument, followed by the entries after it |
| AndroidHost.EntriesOfEncoding | export/platform/android/java/lib/src/org/godotengine/godot/Godot.java:533-549 | entries written for a list of arguments read back as that list, none null |
| AndroidHost.DecodeEncode | export/platform/android/java/lib/src/org/godotengine/godot/Godot.java:521-554 | decoding an encoded argument list gives every argument back in order |
| AndroidHost.OversizeArgumentRejected | export/platform/android/java/lib/src/org/godotengine/godot/Godot.java:540-542 | a first length field above 65535 empties the whole result |
| AndroidHost.ShortBodyLeavesNull | export/platform/android/java/lib/src/org/godotengine/godot/Godot.java:544-547 | a body shorter than its length field leaves its slot null instead of failing |
| AndroidHost.GetCommandLine | export/platform/android/java/lib/src/org/godotengine/godot/Godot.java:506-519 | the decoded arguments come first and unchanged; the host's arguments follow in order; a null or empty host list changes nothing |
| AndroidHost.WithMainPack | export/platform/android/java/lib/src/org/godotengine/godot/Godot.java:583-602 | without an expansion pack the arguments are unchanged; with one they gain `--main-pack` and the pack path at the end, a null array counting as empty |
| AndroidHost.Next | export/platform/android/java/lib/src/org/godotengine/godot/Godot.java:650-689 | every turn of the flag loop advances the index and stays within the arguments |
| AndroidHost.ScanStep | export/platform/android/java/lib/src/org/godotengine/godot/Godot.java:650-689 | the source's `if` chain for one argument computes exactly `Next` |
| AndroidHost.NextKeepsOnlyPlainArguments | export/platform/android/java/lib/src/org/godotengine/godot/Godot.java:650-689 | one turn keeps only non-blank arguments that are none of the consumed flags |
| AndroidHost.ScanKeepsOnlyPlainArguments | export/platform/android/java/lib/src/org/godotengine/godot/Godot.java:650-698 | the whole scan keeps only non-blank arguments that are none of the consumed flags |
| AndroidHost.ScanPassesOrdinaryArguments | export/platform/android/java/lib/src/org/godotengine/godot/Godot.java:650-698 | a run of arguments that are neither flags nor blank is kept whole, unchanged and in order |
| AndroidHost.Ordinary | export/platform/android/java/lib/src/org/godotengine/godot/Godot.java:650-690 | the arguments that are neither blank, nor one of the six flags, nor a value flag's value, in order, up to the first null slot |
| AndroidHost.ScanKeepsOrdinary | export/platform/android/java/lib/src/org/godotengine/godot/Godot.java:650-690 | whatever flags are interleaved, the scan keeps exactly `Ordinary`, in order, after what it had kept |
| AndroidHost.TrailingValueFlagKept | export/platform/android/java/lib/src/org/godotengine/godot/Godot.java:676-678 | a trailing `--apk_expansion_md5` has no value and is kept as an ordinary argument; followed by a value, it consumes that value as the checksum |
| AndroidHost.Remap | export/platform/android/java/lib/src/org/godotengine/godot/Godot.java:910-921 | the `axisSwap` table for each rotation: 0 gives (x, -y, z), 1 gives (-y, -x, z), 2 gives (-x, y, z), 3 gives (y, x, z) |
| AndroidHost.RemapKeepsLength | export/platform/android/java/lib/src/org/godotengine/godot/Godot.java:910-921 | the remap preserves the squared length of the sensor vector |
| AndroidHost.SensorDelivery | export/platform/android/java/lib/src/org/godotengine/godot/Godot.java:927-944 | an event is queued exactly when a view exists and the sensor is one of the four handled, carrying its type; the accelerometer, gravity and magnetic vectors are the remapped x negated, y kept and z negated, the gyroscope's the remapped y negated |
| AndroidHost.NaturalOrientation | export/platform/android/java/lib/src/org/godotengine/godot/Godot.java:910-944 | the vector each handled sensor delivers at each of the four rotations, in terms of the device axes |
| AndroidHost.Exported | export/platform/android/java/lib/src/org/godotengine/godot/Godot.java:183-204 | one registration, naming the singleton, per listed declared method, at the position counted by `ListedBefore`, so in declaration order, and nothing else |
| AndroidHost.ListedBefore | export/platform/android/java/lib/src/org/godotengine/godot/Godot.java:183-204 | the listed methods among the first `n` declared, at most `n` |
| AndroidHost.ListedBeforeIncreasing | export/platform/android/java/lib/src/org/godotengine/godot/Godot.java:183-204 | a listed method comes after every listed method declared before it |
| AndroidHost.IsListed | export/platform/android/java/lib/src/org/godotengine/godot/Godot.java:183-191 | the inner search finds the name exactly when it is among the listed ones |
| AndroidHost.ExportMethods | export/platform/android/java/lib/src/org/godotengine/godot/Godot.java:180-205 | the method loop registers exactly `Exported` |
| AndroidHost.FanOut | export/platform/android/java/lib/src/org/godotengine/godot/Godot.java:819-825 | every legacy module in slot order, then every plugin in registry order, each once |
| AndroidHost.OnBackPressed | export/platform/android/java/lib/src/org/godotengine/godot/Godot.java:970-993 | every module and plugin is asked, with no short cut; the back event is queued exactly when none handled it and a view exists |
| AndroidHost.Godot.constructor | export/platform/android/java/lib/src/org/godotengine/godot/Godot.java:120-141 | a fresh host has no singletons, is neither initialised nor resumed, and has every launch flag off |
| AndroidHost.Godot.RegisterClass | export/platform/android/java/lib/src/org/godotengine/godot/Godot.java:175-207 | the listed methods are registered and the module takes the next slot; every other slot is unchanged |
| AndroidHost.Godot.ScanLaunchArguments | export/platform/android/java/lib/src/org/godotengine/godot/Godot.java:650-698 | the flags end as the scan sets them; the kept arguments become the command line, or null when none are kept; a null argument stops the scan |
| AndroidHost.Godot.InitializeGodot | export/platform/android/java/lib/src/org/godotengine/godot/Godot.java:583-623 | the command line gains the expansion pack as `WithMainPack` says; the result callback is cleared and the engine is marked initialised |
| AndroidHost.Godot.OnActivityResult | export/platform/android/java/lib/src/org/godotengine/godot/Godot.java:292-305 | a pending callback is called first and cleared, then every module and plugin |
| AndroidHost.Godot.OnPause | export/platform/android/java/lib/src/org/godotengine/godot/Godot.java:806-826 | the activity is marked paused; modules and plugins are told only once the engine is initialised |
| AndroidHost.Godot.OnResume | export/platform/android/java/lib/src/org/godotengine/godot/Godot.java:847-882 | the activity is marked resumed; modules and plugins are told only once the engine is initialised |
| AndroidHost.ScanFrom | export/platform/android/java/lib/src/org/godotengine/godot/Godot.java:650-698 | the argument scan from position `i` (stated in `ScanKeepsOnlyPlainArguments` and `ScanKeepsOrdinary`) |
| AndroidHost.EncodeCommandLine | export/platform/android/java/lib/src/org/godotengine/godot/Godot.java:521-554 | the file layout the reader expects: a count, then each argument as its length and bytes (read back by `DecodeEncode`) |
| Bvh.Min | export/core/math/bvh_abb.h:78-85 | `MIN` gives the smaller of its two arguments, which is one of them |
| Bvh.Bounds | export/core/math/bvh_abb.h:62-65 | `set` keeps the minimum and the maximum is recovered exactly from the stored negation |
| Bvh.FromAabb | export/core/math/bvh_abb.h:68-71 | `from` spans from the position to position plus size |
| Bvh.Merged | export/core/math/bvh_abb.h:78-86 | `merge` gives a box enclosing both, and every box enclosing both encloses it: the least enclosing box |
| Bvh.MergeCommutes | export/core/math/bvh_abb.h:78-86 | `merge` is commutative |
| Bvh.MergeIdempotent | export/core/math/bvh_abb.h:78-86 | merging a box with itself changes nothing |
| Bvh.MergeAssociates | export/core/math/bvh_abb.h:78-86 | `merge` is associative, so merging a list of boxes does not depend on grouping |
| Bvh.MergeEmpty | export/core/math/bvh_abb.h:78-86 | merging into the box `set_to_max_opposite_extents` leaves gives the other box, whose coordinates are finite floats |
| Bvh.IntersectsPointBetween | export/core/math/bvh_abb.h:200-204 | `intersects_point` holds exactly when the point lies between the two corners on every axis |
| Bvh.IntersectsSymmetric | export/core/math/bvh_abb.h:206-210 | `intersects` is symmetric |
| Bvh.IntersectsCommonPoint | export/core/math/bvh_abb.h:206-210 | two proper boxes intersect exactly when some point lies in both, that is when they are not separated on any axis |
| Bvh.IsOtherWithinEncloses | export/core/math/bvh_abb.h:200-216 | `is_other_within(o)` holds exactly when `o`'s bounds lie within the box's, and then every point of `o` is a point of the box |
| Bvh.Grown | export/core/math/bvh_abb.h:218-221 | `grow` lowers the minimum and raises the maximum by the change |
| Bvh.GrowEncloses | export/core/math/bvh_abb.h:218-221 | growing by a non-negative change gives a box the original lies within |
| Bvh.GrowUndo | export/core/math/bvh_abb.h:218-221 | growing by a change and then by its negation restores the box |
| Bvh.BvhAbb.constructor | export/core/math/bvh_abb.h:55-57 | the box holds the given corners |
| Bvh.BvhAbb.Set | export/core/math/bvh_abb.h:62-65 | the box becomes `Bounds(min, max)` |
| Bvh.BvhAbb.From | export/core/math/bvh_abb.h:68-71 | the box becomes `FromAabb(position, size)` |
| Bvh.BvhAbb.Merge | export/core/math/bvh_abb.h:78-86 | the box becomes the merge of its old value and the other |
| Bvh.BvhAbb.Grow | export/core/math/bvh_abb.h:218-221 | the box becomes its old value grown by the change |
| Bvh.BvhAbb.Expand | export/core/math/bvh_abb.h:223-225 | the box grows by the same amount on every axis |
| Bvh.BvhAbb.SetToMaxOppositeExtents | export/core/math/bvh_abb.h:232-235 | the box becomes the inside-out box that merging treats as empty |
| Bvh.IntersectsPoint | export/core/math/bvh_abb.h:200-204 | `intersects_point` on the stored negated minimum and maximum (stated in `IntersectsPointBetween`) |
| Bvh.Intersects | export/core/math/bvh_abb.h:206-210 | `intersects` on the stored bounds (stated in `IntersectsSymmetric` and `IntersectsCommonPoint`) |
| Bvh.IsOtherWithin | export/core/math/bvh_abb.h:212-216 | `is_other_within` on the stored bounds (stated in `IsOtherWithinEncloses`) |
| Collada.VersionOrder | export/editor/collada/collada.h:536 | the version order is irreflexive, transitive, asymmetric and total on distinct versions: a strict total order, major then minor then revision |
| Collada.Scaled | export/editor/collada/collada.h:307-310 | each weight is divided by the total and keeps its bone |
| Collada.TotalScaled | export/editor/collada/collada.h:303-310 | dividing every weight by a total divides their sum by it |
| Collada.FixedKeepsHeaviest | export/editor/collada/collada.h:299-311 | at most four weights remain; four or fewer are left untouched; more keep the first four of the heaviest-first order with their bones, unscaled when their total is zero |
| Collada.FixedSumsToOne | export/editor/collada/collada.h:302-311 | with more than four weights and a non-zero total, the kept weights add up to one |
| Collada.FixedHeaviestFirst | export/editor/collada/collada.h:299-311 | non-negative weights sorted heaviest first remain heaviest first after the fix |
| Collada.WeightsDecide | export/editor/collada/collada.h:328-335 | the per-entry weight comparison reaches no decision exactly when the remaining entries are equal |
| Collada.WeightsDecideSwap | export/editor/collada/collada.h:328-335 | swapping the two weight lists turns a decision into its opposite |
| Collada.VertexLessAsymmetric | export/editor/collada/collada.h:316-351 | with asymmetric vector and colour orders, the vertex order never puts two vertices before each other |
| Collada.Vertex.constructor | export/editor/collada/collada.h:281-290 | the vertex holds the given data |
| Collada.Vertex.FixWeights | export/editor/collada/collada.h:299-312 | given the weights sorted heaviest first, only the weights change, and they become `Fixed` of the sorted list |
| Collada.VersionLess | export/editor/collada/collada.h:536 | `operator<` of versions: major, then minor, then revision (a strict total order by `VersionOrder`) |
| Collada.WeightLess | export/editor/collada/collada.h:294 | `Weight::operator<`: the heavier weight sorts first (used by `HeaviestFirst`) |
| Collada.VertexLess | export/editor/collada/collada.h:316-351 | `Vertex::operator<`: uid, position, normal, uv and uv2 in turn, then the shorter weight list or the first differing weight entry, then the colour (asymmetric by `VertexLessAsymmetric`) |
| Csg.CsgShape.Reach | export/modules/csg/csg_shape.cpp:134-146 | the number of shapes `_make_dirty` reaches along the parent chain never exceeds the chain's length |
| Csg.CsgShape.constructor | export/modules/csg/csg_shape.cpp:642-653 | a new shape is outside the tree, clean, without collision or body, with layer and mask 1 |
| Csg.CsgShape.MakeDirty | export/modules/csg/csg_shape.cpp:134-146 | every shape reached up the chain becomes dirty and the rest keep their flag; the root, when reached, queues `_update_shape` exactly when it was clean; no other field changes |
| Csg.CsgShape.SetUseCollision | export/modules/csg/csg_shape.cpp:34-60 | an unchanged value does nothing; otherwise the flag changes; a root inside the tree creates its body and marks itself dirty on enabling, and frees the body on disabling; any other shape changes only the flag |
| Csg.CsgShape.SetCollisionLayer | export/modules/csg/csg_shape.cpp:66-71 | the layer becomes the given value, and the body follows when there is one |
| Csg.CsgShape.SetCollisionMask | export/modules/csg/csg_shape.cpp:78-84 | the mask becomes the given value, and the body follows when there is one |
| Csg.CsgShape.SetCollisionLayerBit | export/modules/csg/csg_shape.cpp:106-119 | the given layer bit reads back as the value set; every other bit is unchanged |
| Csg.CsgShape.SetCollisionMaskBit | export/modules/csg/csg_shape.cpp:91-104 | the given mask bit reads back as the value set; every other bit is unchanged |
| Csg.ReachWholeChain | export/modules/csg/csg_shape.cpp:134-146 | in a tree where parents are inside whenever children are, `_make_dirty` from a shape inside the tree reaches every shape up to the root |
| Csg.CsgSphere.constructor | export/modules/csg/csg_shape.cpp:1116-1122 | default radius 1, 12 radial segments and 6 rings |
| Csg.CsgSphere.SetRadius | export/modules/csg/csg_shape.cpp:1064-1070 | a radius of zero or less is refused and changes nothing; otherwise the radius is set and the shape made dirty |
| Csg.CsgSphere.SetRadialSegments | export/modules/csg/csg_shape.cpp:1076-1080 | fewer than 4 segments become 4; the shape is made dirty |
| Csg.CsgSphere.SetRings | export/modules/csg/csg_shape.cpp:1086-1090 | fewer than 1 ring becomes 1; the shape is made dirty |
| Csg.CsgSphere.BuildFaces | export/modules/csg/csg_shape.cpp:923-1040 | the face loops write exactly `face_count`, two per segment and ring minus the poles, so the count check passes |
| Csg.CsgBox.constructor | export/modules/csg/csg_shape.cpp:1295-1300 | default width, height and depth 2 |
| Csg.CsgBox.BuildFaces | export/modules/csg/csg_shape.cpp:1126-1229 | the face loop writes exactly 12 faces, the `face_count` of a cube |
| Csg.CsgCylinder.constructor | export/modules/csg/csg_shape.cpp:1530-1537 | default radius 1, height 1, 8 sides, not a cone |
| Csg.CsgCylinder.SetSides | export/modules/csg/csg_shape.cpp:1489-1494 | fewer than 3 sides are refused and change nothing; otherwise the sides are set and the shape made dirty |
| Csg.CsgCylinder.SetCone | export/modules/csg/csg_shape.cpp:1500-1504 | the cone flag is set and the shape made dirty |
| Csg.CsgCylinder.BuildFaces | export/modules/csg/csg_shape.cpp:1304-1438 | the loop writes exactly `face_count`: two faces per side for a cone, four otherwise |
| Csg.CsgTorus.constructor | export/modules/csg/csg_shape.cpp:1759-1766 | default inner radius 2, outer radius 3, 8 sides and 6 ring sides |
| Csg.CsgTorus.SetInnerRadius | export/modules/csg/csg_shape.cpp:1695-1700 | any inner radius is taken and the shape made dirty |
| Csg.CsgTorus.SetOuterRadius | export/modules/csg/csg_shape.cpp:1706-1711 | any outer radius is taken and the shape made dirty |
| Csg.CsgTorus.SetSides | export/modules/csg/csg_shape.cpp:1717-1722 | fewer than 3 sides are refused and change nothing; otherwise set, and the shape made dirty |
| Csg.CsgTorus.SetRingSides | export/modules/csg/csg_shape.cpp:1728-1733 | fewer than 3 ring sides are refused and change nothing; otherwise set, and the shape made dirty |
| Csg.CsgTorus.BuildFaces | export/modules/csg/csg_shape.cpp:1541-1666 | equal radii give an empty brush; otherwise the loops write exactly `face_count`, two faces per side and ring side |
| Csg.CsgPolygon.constructor | export/modules/csg/csg_shape.cpp:2491-2508 | the default outline is the unit square; depth mode, depth 1, 360 degrees, 8 spin sides, path interval 1 |
| Csg.CsgPolygon.SetPolygon | export/modules/csg/csg_shape.cpp:2350-2354 | any outline is taken and the shape made dirty |
| Csg.CsgPolygon.SetMode | export/modules/csg/csg_shape.cpp:2360-2365 | any mode is taken and the shape made dirty |
| Csg.CsgPolygon.SetDepth | export/modules/csg/csg_shape.cpp:2371-2376 | a depth below 0.001 is refused and changes nothing; otherwise set, and the shape made dirty |
| Csg.CsgPolygon.SetSpinDegrees | export/modules/csg/csg_shape.cpp:2391-2396 | an angle outside [0.01, 360] is refused and changes nothing; otherwise set, and the shape made dirty |
| Csg.CsgPolygon.SetSpinSides | export/modules/csg/csg_shape.cpp:2402-2407 | fewer than 3 spin sides are refused and change nothing; otherwise set, and the shape made dirty |
| Csg.CsgPolygon.SetPathInterval | export/modules/csg/csg_shape.cpp:2423-2428 | an interval below 0.001 is refused and changes nothing; otherwise set, and the shape made dirty |
| Csg.CsgPolygon.BuildFaces | export/modules/csg/csg_shape.cpp:1770-2068 | a brush is built exactly when the outline and its triangulation have at least three entries; in depth and spin mode the loops write exactly `face_count` faces |
| Csg.CapFaces | export/modules/csg/csg_shape.cpp:2033-2064 | one cap writes one face per triangle |
| Csg.DepthFaces | export/modules/csg/csg_shape.cpp:1890-1967 | depth mode writes both caps and two faces per outline point |
| Csg.SpinFaces | export/modules/csg/csg_shape.cpp:1968-2068 | spin mode writes two faces per outline point and step, plus both caps when the spin is partial |
| DependencyEditor.GetFile | export/editor/dependency_editor.cpp:196 | the file name of a path holds no separator, ends the path, and is the whole path when it has no separator |
| DependencyEditor.Reversed | export/editor/dependency_editor.cpp:90-97 | `invert` reverses the components: same length, element `k` taken from the mirrored position |
| DependencyEditor.Agreements | export/editor/dependency_editor.cpp:99-110 | the score counts at most one agreement per component of the lost path |
| DependencyEditor.AgreementsSelf | export/editor/dependency_editor.cpp:99-110 | no candidate agrees with the lost path in more components than the lost path itself |
| DependencyEditor.ScoreAtMostSelf | export/editor/dependency_editor.cpp:88-110 | no candidate path scores more than the lost path itself, which scores every component |
| DependencyEditor.Score | export/editor/dependency_editor.cpp:88-110 | the score of a candidate: its components, from the file name up, that agree position by position with the lost path's (bounded in `ScoreAtMostSelf`) |
| DependencyEditor.Update | export/editor/dependency_editor.cpp:82-117 | an unset entry takes the path; a set one is replaced only by a strictly better score, and the kept entry scores at least as well as both |
| DependencyEditor.UpdateAll | export/editor/dependency_editor.cpp:80-118 | the entries of a name's list are updated without adding or dropping a lost path |
| DependencyEditor.OfferAllAppend | export/editor/dependency_editor.cpp:66-120 | offering two runs of files is offering the first run and then the second |
| DependencyEditor.OfferAllSnoc | export/editor/dependency_editor.cpp:66-120 | offering one more file is one more `Offer` |
| DependencyEditor.OfferAll | export/editor/dependency_editor.cpp:66-120 | the files offered one after another in the walk's order (its properties in `OfferAllKeys` and `OfferAllBest`) |
| DependencyEditor.OfferAllKeys | export/editor/dependency_editor.cpp:66-120 | offering files never adds or drops a file name or a lost path |
| DependencyEditor.BestFor | export/editor/dependency_editor.cpp:72-118 | what the fixer promises for one lost path: resolved exactly when a file of its name was offered, to a file of that name that no other outscores and that every file offered before it scores strictly below |
| DependencyEditor.OfferStep | export/editor/dependency_editor.cpp:72-118 | one more file keeps `BestFor`: the entry stays the best so far, and a later file of equal score does not replace the earliest |
| DependencyEditor.OfferEntry | export/editor/dependency_editor.cpp:72-80 | a file changes only the entries under its own file name |
| DependencyEditor.OfferAllBest | export/editor/dependency_editor.cpp:66-120 | from unset candidates, each lost path ends resolved exactly when a file of its name was seen, to the first file of that name with the highest score |
| DependencyEditor.Scores | export/editor/dependency_editor.cpp:99-110 | the one loop over the lost path's components counts both agreement scores |
| DependencyEditor.UpdateEntry | export/editor/dependency_editor.cpp:82-117 | one candidate entry is updated as `Update` with the component score |
| DependencyEditor.UpdateEntries | export/editor/dependency_editor.cpp:80-118 | the loop over a name's entries computes `UpdateAll` |
| DependencyEditor.PartlyUpdatedStep | export/editor/dependency_editor.cpp:80-118 | one more updated entry keeps the loop's invariant |
| DependencyEditor.PartlyUpdatedDone | export/editor/dependency_editor.cpp:80-118 | when no entry is left to do, the list is its updated value |
| DependencyEditor.OfferFile | export/editor/dependency_editor.cpp:72-119 | one file of a directory is offered as `Offer` says |
| DependencyEditor.FixAndFind | export/editor/dependency_editor.cpp:66-120 | the recursive walk offers the directory's files subdirectories first, as `OfferAll` of `Files` |
| DependencyEditor.ParseDependency | export/editor/dependency_editor.cpp:186-196 | an entry without "::" is a `Resource` at the whole entry; otherwise the path is the text before the first "::"; the name is the path's file name |
| DependencyEditor.MissingPaths | export/editor/dependency_editor.cpp:181-211 | no more missing paths than dependencies |
| DependencyEditor.MissingPathsMembers | export/editor/dependency_editor.cpp:181-211 | a path is listed as missing exactly when some dependency has it and it does not exist |
| DependencyEditor.DependencyRows | export/editor/dependency_editor.cpp:181-213 | one row per dependency in order, the missing paths in order, and `broken` exactly when some is missing |
| DependencyEditor.RowsStep | export/editor/dependency_editor.cpp:181-211 | one more dependency keeps the rows loop's invariant |
| DependencyEditor.DependencyEditor.constructor | export/editor/dependency_editor.cpp:238-275 | a new editor has no missing paths and fixing disabled |
| DependencyEditor.DependencyEditor.UpdateList | export/editor/dependency_editor.cpp:167-214 | the rows and missing paths as `DependencyRows` computes them; the fix button is disabled exactly when nothing is missing |
| DependencyEditor.DependencyEditor.MissingCandidates | export/editor/dependency_editor.cpp:128-137 | each missing path is entered, unset, under its file name |
| DependencyEditor.DependencyEditor.FixAll | export/editor/dependency_editor.cpp:122-160 | without a file system nothing happens; otherwise each missing path is remapped exactly when a file of its name exists, to the first such file in walk order with the highest score; renaming happens exactly when some remap exists |
| DependencyEditor.Resolved | export/editor/dependency_editor.cpp:141-151 | the remaps hold only missing paths, each resolved as `BestFor` says |
| DependencyEditor.AddResolved | export/editor/dependency_editor.cpp:145-150 | one list's set entries are added to the remaps and nothing else changes |
| DependencyEditor.FolderPath | export/editor/dependency_editor.cpp:463 | a folder is kept ending in "/", unchanged when it already ends so |
| DependencyEditor.KeptFavorites | export/editor/dependency_editor.cpp:558-566 | no more favourites are kept than there were |
| DependencyEditor.KeptFavoritesMembers | export/editor/dependency_editor.cpp:558-566 | a favourite is kept exactly when it is not a deleted folder or deleted file, and all are kept exactly when none is deleted |
| DependencyEditor.AddLevelStops | export/editor/dependency_editor.cpp:382-386 | one directory's file loop keeps every existing entry and maps only its own files, to the folder; a directory whose first file is already mapped adds nothing, and no file after an already-mapped one is added; with no file mapped, all are |
| DependencyEditor.Holder | export/editor/dependency_editor.cpp:462-466 | the first listed folder whose directories hold a file, or -1 when none does |
| DependencyEditor.DirectoryAllOrNothing | export/editor/dependency_editor.cpp:375-386 | in a file system where each file lies in one directory, a directory is mapped all or nothing |
| DependencyEditor.AddTreeStep | export/editor/dependency_editor.cpp:375-386 | one more directory under a folder keeps the map as `Holder` says, with the directories visited so far counted for the folder |
| DependencyEditor.AddTreeStepVisited | export/editor/dependency_editor.cpp:382-384 | a directory met again (through a folder nested in one listed before) changes nothing |
| DependencyEditor.AddTreeStepFresh | export/editor/dependency_editor.cpp:382-386 | a directory none of whose files is mapped has all of them mapped to the folder |
| DependencyEditor.InDirsSnoc | export/editor/dependency_editor.cpp:375-386 | one more visited directory adds exactly its own files |
| DependencyEditor.AddTreeMapped | export/editor/dependency_editor.cpp:375-386 | the whole walk under a folder keeps the map as `Holder` says |
| DependencyEditor.RemovedAllHolder | export/editor/dependency_editor.cpp:462-466 | after the folder loop a file is mapped exactly when a listed folder holds it, and maps to the first such folder |
| DependencyEditor.NestedFolderKeepsOuter | export/editor/dependency_editor.cpp:382-384 | with "res://a/" listed before "res://a/b/", a file in "res://a/b/" stays mapped to "res://a/" |
| DependencyEditor.RemovedFolders | export/editor/dependency_editor.cpp:462-466 | the folders as kept, ending in "/", and the removal map as `RemovedAll` builds it |
| DependencyEditor.FoldersKeptStep | export/editor/dependency_editor.cpp:463-465 | one more folder is kept, ending in "/", after the earlier ones |
| DependencyEditor.RemovedAllSnoc | export/editor/dependency_editor.cpp:462-466 | one more folder walks its directories on top of the map built so far |
| DependencyEditor.AddFolderFiles | export/editor/dependency_editor.cpp:375-387 | the recursion visits the folder's directories in order, each adding its files as `AddLevel` says |
| DependencyEditor.AddLevelFiles | export/editor/dependency_editor.cpp:382-386 | one directory's file loop, stopping at the first file already mapped, computes `AddLevel` |
| DependencyEditor.RemovedFiles | export/editor/dependency_editor.cpp:467-470 | every listed file maps to ""; other entries are unchanged |
| DependencyEditor.DependencyRemoveDialog.constructor | export/editor/dependency_editor.cpp:578-592 | a new dialog has nothing to delete |
| DependencyEditor.DependencyRemoveDialog.Show | export/editor/dependency_editor.cpp:456-470 | the folders to delete end in "/"; the files are the given ones; every listed file maps to ""; any other file is mapped exactly when a listed folder holds it, to the first folder that does |
| DependencyEditor.DependencyRemoveDialog.PruneFavorites | export/editor/dependency_editor.cpp:555-571 | the favourites become those that survive, in order, and are written back exactly when some were dropped |
| Inspector.Registered | export/editor/editor_inspector.cpp:1280-1281 | the registered plugins are the first `inspector_plugin_count` slots, in slot order |
| Inspector.PluginRegistry.constructor | export/editor/editor_inspector.cpp:1280-1281 | the slot array has `MAX_PLUGINS` entries and no plugin is registered |
| Inspector.PluginRegistry.AddInspectorPlugin | export/editor/editor_inspector.cpp:1307-1316 | a full registry refuses; a plugin already present is ignored; otherwise it is appended; refusals change no slot |
| Inspector.PluginRegistry.RemoveInspectorPlugin | export/editor/editor_inspector.cpp:1318-1339 | a full registry refuses (the source's guard); an absent plugin is reported and nothing changes; otherwise exactly that plugin is removed, the rest keep their order, and the vacated slot is cleared |
| Inspector.PluginRegistry.IndexOf | export/editor/editor_inspector.cpp:1322-1328 | the search returns the slot holding the plugin, or -1 exactly when it is not registered |
| Inspector.PluginRegistry.ShiftOut | export/editor/editor_inspector.cpp:1331-1338 | the plugin at `idx` leaves the list, the count drops by one and the others keep their order |
| Inspector.PluginRegistry.ShiftDown | export/editor/editor_inspector.cpp:1331-1333 | each slot after `idx` moves one place down; slots before and from the last on are untouched |
| Inspector.PluginRegistry.CleanupPlugins | export/editor/editor_inspector.cpp:1341-1346 | every slot is released and no plugin remains registered |
| Inspector.PluginRegistry.InstantiatePropertyEditor | export/editor/editor_inspector.cpp:1283-1305 | the editor returned and the editors deleted are those `Pick` describes |
| Inspector.DistinctRemove | export/editor/editor_inspector.cpp:1331-1338 | removing one plugin keeps the registered plugins distinct |
| Inspector.Ids | export/editor/editor_inspector.cpp:1289-1291 | the editor ids of a plugin's editors, in order |
| Inspector.PickHighest | export/editor/editor_inspector.cpp:1283-1305 | an editor is returned exactly when some plugin's first editor is an `EditorProperty`, and it is that of the highest-numbered such plugin, so the last added wins |
| Inspector.PickDeletesExtras | export/editor/editor_inspector.cpp:1288-1291 | every editor after a plugin's first is deleted, for each plugin scanned before the result |
| Inspector.RemoveAsWritten | export/editor/editor_inspector.cpp:1331-1338 | as written: the shift, then slot `idx` cleared only when it was the last, so the last slot keeps its plugin otherwise |
| Inspector.RemoveAsWrittenLeavesStaleSlot | export/editor/editor_inspector.cpp:1335-1336 | with two plugins registered, removing the first leaves the second in both slots |
| Inspector.InspectorState.EditRequestChange | export/editor/editor_inspector.cpp:2005-2018 | requests for another object or while changing are ignored; an empty property asks for a tree update; any other is added to the pending set |
| EditorRun.TruncMod | export/editor/editor_run.cpp:78-87 | C's `%`: the remainder has the dividend's sign and is smaller than the divisor in magnitude |
| EditorRun.WrapI | export/editor/editor_run.cpp:78-87 | `Math::wrapi` lands in `[min, max)` when the range is not empty, and on `min` when it is |
| EditorRun.WrapIInRange | export/editor/editor_run.cpp:78-87 | a value already in range is left as it is |
| EditorRun.SelectScreen | export/editor/editor_run.cpp:72-92 | option 0 keeps the editor's screen, 1 and 2 give a valid screen, any other option `k` gives screen `k - 3` |
| EditorRun.NeighbourScreens | export/editor/editor_run.cpp:76-87 | from a valid screen, option 1 is the previous and option 2 the next screen, wrapping at the ends |
| EditorRun.Trunc | export/editor/editor_run.cpp:136 | float to integer conversion truncates toward zero |
| EditorRun.DisplayScale | export/editor/editor_run.cpp:115-131 | the scale is positive; 1 when editor and project agree on hiDPI; the inverse of the screen's largest scale when only the project uses hiDPI |
| EditorRun.DisplayScaleAsWritten | export/editor/editor_run.cpp:116-129 | the factor as written, an `int`: 1 when editor and project agree on hiDPI, the largest screen scale truncated when only the editor uses hiDPI, its inverse truncated when only the project does (compared with the float factor in `DisplayScaleAsWrittenDiffers`) |
| EditorRun.DisplayScaleTruncatesToZero | export/editor/editor_run.cpp:116-125 | as written, the factor is an `int`: a hiDPI project run from a non-hiDPI editor on a scale-2 screen gets 0 instead of 0.5, and a non-hiDPI project run from a hiDPI editor on a scale-1.5 screen gets 1 instead of 1.5 |
| EditorRun.DisplayScaleAsWrittenDiffers | export/editor/editor_run.cpp:116-129 | the `int` factor equals the float one when editor and project agree; above scale 1 it is 0 when only the project uses hiDPI; when only the editor does it is the scale rounded down, equal to the float exactly for a whole-number scale |
| EditorRun.PlacedPosition | export/editor/editor_run.cpp:133-161 | placement 1 centres the window on the screen rounding down, 2 offsets the custom position by the screen's, every other uses the screen's corner |
| EditorRun.PlacementArgs | export/editor/editor_run.cpp:133-161 | placements 0 to 4 give `--position` and the position; `--maximized` appears exactly for 3 and `--fullscreen` exactly for 4; other placements add nothing |
| EditorRun.Escape | export/editor/editor_run.cpp:169 | an escaped argument has no space, and has a comma exactly when the argument does |
| EditorRun.EscapeAll | export/editor/editor_run.cpp:167-172 | every breakpoint escaped, in order |
| EditorRun.DesiredSize | export/editor/editor_run.cpp:102-112 | the test size is used exactly when both its sides are positive, otherwise the window size |
| EditorRun.WindowPosition | export/editor/editor_run.cpp:98-161 | the chosen screen's rectangle divided by the float display scale, then placed as `PlacedPosition` says |
| EditorRun.PathArgs | export/editor/editor_run.cpp:53-56 | `--path` and the project path with spaces escaped, only when there is a project path |
| EditorRun.DebuggerArgs | export/editor/editor_run.cpp:58-62 | `--remote-debug` with `host:port`, then `--allow_focus_steal_pid` with the editor's process id |
| EditorRun.LaunchArgs | export/editor/editor_run.cpp:45-190 | the whole command line: path, debugger, then the run options in the order `run` pushes them (stated in `LaunchArgsPrefix`, `RunOptionArgs` and `BuildArgs`) |
| EditorRun.LaunchArgsPrefix | export/editor/editor_run.cpp:53-62 | the command line opens with `--path` and the escaped project path when there is one, then the debugger's address and the editor's process id |
| EditorRun.BreakpointList | export/editor/editor_run.cpp:166-172 | the `--breakpoints` value is the escaped breakpoints joined by commas |
| EditorRun.BreakpointListSplitsBack | export/editor/editor_run.cpp:163-175 | when no breakpoint holds a comma, the list splits back into the escaped breakpoints |
| EditorRun.BreakpointListHasNoSpace | export/editor/editor_run.cpp:163-175 | the breakpoint list holds no space, so it stays one argument |
| EditorRun.CustomArgs | export/editor/editor_run.cpp:185-190 | the custom arguments are the space-separated pieces with empty ones dropped |
| EditorRun.BuildArgs | export/editor/editor_run.cpp:45-190 | the loop builds exactly the command line `LaunchArgs` describes |
| EditorRun.RunOptionArgs | export/editor/editor_run.cpp:64-190 | the arguments after the debugger's come in the order `run` pushes them |
| EditorRun.EditorRun.constructor | export/editor/editor_run.cpp:244-250 | stopped, no running scene, both debug flags off |
| EditorRun.EditorRun.Run | export/editor/editor_run.cpp:45-211 | the command line is `LaunchArgs`, with the window position from the float display scale; on success the status is Play, the process id is the launched one and a non-empty scene becomes the running one; on failure the error comes back and only the process id, reset to 0, changed |
| EditorRun.EditorRun.Stop | export/editor/editor_run.cpp:213-222 | the process is killed exactly when running with a known id; afterwards the status is Stop and no scene runs |
| Engine.Engine.constructor | export/core/engine.cpp:219-237 | 60 iterations per second, jitter fix 0.5, no frame delay or frame limit, time scale 1, no singletons |
| Engine.Engine.SetIterationsPerSecond | export/core/engine.cpp:39-43 | a value of 0 or less is refused and changes nothing; any other is stored |
| Engine.Engine.SetPhysicsJitterFix | export/core/engine.cpp:49-53 | a negative threshold is stored as 0, any other as given |
| Engine.Engine.SetTargetFps | export/core/engine.cpp:59-61 | a limit of 0 or less is stored as 0, meaning no limit |
| Engine.Engine.SetFrameDelay | export/core/engine.cpp:72-75 | the delay, a 32-bit unsigned value, is stored |
| Engine.Engine.SetTimeScale | export/core/engine.cpp:82-85 | the scale is stored as given |
| Engine.Engine.GetSingletonObject | export/core/engine.cpp:195-200 | a name that was never registered gives null |
| Engine.Engine.HasSingleton | export/core/engine.cpp:202-205 | a name is known exactly when some registration in the list carries it |
| Engine.Engine.AddSingleton | export/core/engine.cpp:189-193 | the registration is appended; the name is then known and maps to the new object; every other name keeps its object |
| Engine.Engine.GetSingletons | export/core/engine.cpp:207-211 | every registration, in the order made, and each of their names is known |
| Engine.VersionHash | export/core/engine.cpp:103-104 | the hash entry is never empty, and is the build's hash when that is not empty |
| Engine.VersionSplit | export/core/engine.cpp:106-110 | the version string is "major.minor" followed by the patch part |
| Engine.VersionPatchInjective | export/core/engine.cpp:106-110 | versions differing only in their patch number print differently, so the string determines the patch |
| Engine.TailsEqual | export/core/engine.cpp:106-110 | equal strings of versions with the same major and minor have equal patch parts |
| Engine.TailStart | export/core/engine.cpp:107-109 | the part after "major.minor" starts with '.' when the patch is not 0 and with '-' otherwise |
| Engine.PatchDigitsEqual | export/core/engine.cpp:107-109 | equal patch parts with non-zero patches and the same status and build hold the same patch |
| Engine.VersionString | export/core/engine.cpp:106-110 | "major.minor", then ".patch" only when the patch number is not 0, then "-status (build)" (stated in `VersionSplit` and `VersionPatchInjective`) |
| GradleExport.OrientationValue | export/platform/android/export/gradle_export_util.h:47-59 | the value is 0 exactly for landscape, the default |
| GradleExport.OrientationLabel | export/platform/android/export/gradle_export_util.h:61-73 | the label is "landscape" exactly for landscape, the default |
| GradleExport.OrientationMapsAgree | export/platform/android/export/gradle_export_util.h:47-73 | each value names the orientation its label names on Android, and each map gives distinct orientations distinct results |
| GradleExport.SettingLabel | export/platform/android/export/gradle_export_util.h:233-234 | the orientation setting written by name reads back as the label of that orientation |
| GradleExport.BoolToString | export/platform/android/export/gradle_export_util.h:174-176 | "true" exactly for true and "false" exactly for false |
| GradleExport.ScreenSizesTag | export/platform/android/export/gradle_export_util.h:184-196 | the loop writes the opening, one entry per size in order with its own flag, then the closing |
| GradleExport.SizeEntriesInOrder | export/platform/android/export/gradle_export_util.h:186-193 | the entries come as small, normal, large, xlarge, each with its flag |
| GradleExport.FeatureRequest | export/platform/android/export/gradle_export_util.h:202-213 | index 1 asks for a feature as optional, 2 as required, anything else not at all |
| GradleExport.XrFeaturesTag | export/platform/android/export/gradle_export_util.h:198-216 | nothing unless the XR mode is 1; then the head tracking line and then the hand tracking line, each as its index asks |
| GradleExport.XrFeaturesEmpty | export/platform/android/export/gradle_export_util.h:198-216 | with XR on, the tag is empty exactly when neither feature is asked for |
| GradleExport.ActivityTag | export/platform/android/export/gradle_export_util.h:231-248 | the activity opening with the label of the orientation setting, then the focus-aware entry, then the closing tag |
| GradleExport.FocusAwareEntry | export/platform/android/export/gradle_export_util.h:240-245 | the focus-aware entry is the removal exactly when XR is off, and otherwise carries the preset's flag |
| GradleExport.ActivityTextShape | export/platform/android/export/gradle_export_util.h:235-246 | the activity text is the opening, the focus-aware entry and the closing, in that order |
| GradleExport.SizeEntries | export/platform/android/export/gradle_export_util.h:186-193 | the `android:<size>Screens` entries for the first `n` sizes (stated in `SizeEntriesInOrder`) |
| GradleExport.UsesFeature | export/platform/android/export/gradle_export_util.h:204-212 | one `uses-feature` line naming the feature and whether it is required |
| GradleExport.FeatureLine | export/platform/android/export/gradle_export_util.h:202-213 | the feature's line for an index: optional for 1, required for 2, none otherwise (stated in `FeatureRequest`) |
| Layers.OrBit | export/scene/3d/ray_cast.cpp:66 | a bit of the bitwise or of `a` and `b` is set exactly when it is set in either |
| Layers.AndBit | export/scene/3d/ray_cast.cpp:68 | a bit of `a & b` is set exactly when it is set in both |
| Layers.NotBit | export/scene/3d/ray_cast.cpp:68 | a bit of the 32-bit complement is set exactly when it is below 32 and clear in the word |
| Layers.Flag | export/scene/3d/ray_cast.cpp:66 | `1 << bit` has exactly bit `bit` set |
| Layers.GetBitIsBit | export/scene/3d/ray_cast.cpp:72-75 | `mask & (1 << bit)` read as a boolean is bit `bit` of the mask |
| Layers.WriteBit | export/scene/3d/ray_cast.cpp:62-70 | setting with a bitwise or, or clearing with a bitwise and of the complement, gives bit `bit` the value and keeps every other bit |
| Layers.SetBit | export/scene/3d/ray_cast.cpp:62-70 | bit `bit` of the result is the value, every other bit is the mask's, and the result is again a 32-bit word |
| Layers.GetAfterSet | export/scene/3d/ray_cast.cpp:62-75 | reading a bit after writing it gives the written value; other bits read as before |
| Layers.SetBitSame | export/scene/3d/ray_cast.cpp:62-75 | writing back the bit a word already has leaves the word unchanged |
| Layers.SetBitTwice | export/scene/3d/ray_cast.cpp:62-70 | of two writes to the same bit only the last counts |
| Layers.SetBitCommutes | export/scene/3d/ray_cast.cpp:62-70 | writes to two different bits commute |
| Logger.ShouldLog | export/core/io/logger.cpp:53-55 | errors are logged exactly when error printing is on, other lines exactly when line printing is on |
| Logger.ErrorDetails | export/core/io/logger.cpp:77-81 | the rationale when it is not empty, else the failed code |
| Logger.LogErrorLines | export/core/io/logger.cpp:63-85 | nothing when errors are off; otherwise two lines, the first naming the error type and the details |
| Logger.LessIrreflexive | export/core/io/logger.cpp:135-150 | the string order of the backup set is irreflexive |
| Logger.LessTransitive | export/core/io/logger.cpp:135-150 | the string order of the backup set is transitive |
| Logger.LessTotal | export/core/io/logger.cpp:135-150 | the string order of the backup set is total on distinct strings |
| Logger.Smallest | export/core/io/logger.cpp:148 | the first element of a non-empty set is in it and below every other element |
| Logger.BackupsMembers | export/core/io/logger.cpp:136-141 | a name is a backup exactly when some listed entry with it is a file, starts with the base name, has the log's extension and is not the log itself |
| Logger.RotatedFileLogger.constructor | export/core/io/logger.cpp:189-194 | the logger keeps at least one file; a positive count is kept as given |
| Logger.RotatedFileLogger.ClearOldBackups | export/core/io/logger.cpp:122-154 | an unopenable directory removes nothing; otherwise exactly the surplus over `max_files - 1` backups is removed, in ascending order, and every removed name is below every kept backup |
| Logger.DeleteSmallest | export/core/io/logger.cpp:144-151 | the counted loop removes exactly `to_delete` backups, ascending, each below every backup it keeps |
| Logger.CompositeLogger.constructor | export/core/io/logger.cpp:250-252 | the children are those given |
| Logger.CompositeLogger.AddLogger | export/core/io/logger.cpp:277-279 | the new child goes last |
| Logger.CompositeLogger.Forward | export/core/io/logger.cpp:254-275 | a message switched on reaches every child in order; one switched off reaches none |
| OsCore.InvalidTokens | export/core/os/os.cpp:314-320 | eight tokens: the seven forbidden characters one by one, then `..` when separators are allowed and `/` when they are not |
| OsCore.GetSafeDirName | export/core/os/os.cpp:312-327 | the result equals the specification of `get_safe_dir_name` and is a safe name |
| OsCore.SafeDirNameIsSafe | export/core/os/os.cpp:312-327 | a safe directory name holds no backslash, none of the forbidden tokens, and no blank or control character at either end |
| OsCore.ReplacedIsSafe | export/core/os/os.cpp:323-325 | replacing every token in turn in a stripped name without backslashes leaves none of the tokens |
| OsCore.SafeDirNameIdempotent | export/core/os/os.cpp:312-327 | making a safe name safe again changes nothing |
| OsCore.ReplaceEdged | export/core/os/os.cpp:324 | replacing with a dash never puts a blank at either end |
| OsCore.NoDoubleDot | export/core/os/os.cpp:317 | once `..` is replaced by a dash no `..` is left, so a safe name never climbs the file system |
| OsCore.ScreenOrientationFromString | export/core/os/os.cpp:471-487 | a result other than landscape comes from its own setting name |
| OsCore.OrientationRoundTrip | export/core/os/os.cpp:471-487 | every orientation's setting name reads back as that orientation, and every other string reads as landscape |
| OsCore.GetVideoDriverName | export/core/os/os.cpp:737-745 | "GLES2" exactly for the GLES2 driver and "GLES3" exactly for every other number |
| OsCore.DynamicDelay | export/core/os/os.cpp:812-820 | at least the low-processor sleep when idle or unable to draw, at least one frame at a positive target rate outside the editor, and always zero, that sleep or that frame |
| OsCore.ComputeDynamicDelay | export/core/os/os.cpp:812-820 | the computed delay equals the dynamic delay |
| OsCore.DynamicDelayBelow | export/core/os/os.cpp:812-820 | the delay fits in `uint64_t` whenever the low-processor sleep does |
| OsCore.Os.SetExitCode | export/core/os/os.cpp:296-300 | the code is stored and marked custom |
| OsCore.Os.AddFrameDelay | export/core/os/os.cpp:800-833 | the fixed sleep is `frame_delay * 1000` in 32 bits; with no dynamic delay the target is unchanged; otherwise the target advances by it with 64-bit wrap, the sleep covers the gap to the clock, and the target is clamped around the later clock |
| OsCore.ClampTicks | export/core/os/os.cpp:831 | the clamped target is a `uint64_t` |
| OsCore.ClampTicksWithin | export/core/os/os.cpp:831 | without wrap-around the new target lies within the delay of the clock, and a target already there is kept |
| OsCore.ClampTicksEarlyClock | export/core/os/os.cpp:831 | with the clock below the delay, the wrapped lower bound pushes the target to `current + d` |
| OsCore.SafeDirName | export/core/os/os.cpp:312-327 | what `get_safe_dir_name` computes (stated in `SafeDirNameIsSafe` and `SafeDirNameIdempotent`) |
| OsCore.OrientationName | export/core/os/os.cpp:471-487 | the setting name of each orientation, the one `get_screen_orientation_from_string` reads (stated in `OrientationRoundTrip`) |
| MonoOs.Upper | export/modules/mono/editor/GodotTools/GodotTools/Utils/OS.cs:62 | ASCII lower-case letters move up by 32; every other character is kept |
| MonoOs.SameIgnoringCaseEquivalence | export/modules/mono/editor/GodotTools/GodotTools/Utils/OS.cs:62 | comparing ordinally ignoring case is reflexive, symmetric and transitive |
| MonoOs.DiffersAt | export/modules/mono/editor/GodotTools/GodotTools/Utils/OS.cs:62 | strings that differ at a position in more than case are not equal ignoring case |
| MonoOs.WindowsIsNotUnixLike | export/modules/mono/editor/GodotTools/GodotTools/Utils/OS.cs:81-93 | no platform name is both Windows-like (Windows or UWP) and Unix-like |
| MonoOs.PathSep | export/modules/mono/editor/GodotTools/GodotTools/Utils/OS.cs:95 | ';' exactly on Windows-like platforms and ':' exactly elsewhere |
| MonoOs.PlatformIds | export/modules/mono/editor/GodotTools/GodotTools/Utils/OS.cs:34-58 | the platform ids are distinct; each is its name in lower case, except iOS's "iphone" and HTML5's "javascript" |
| MonoOs.QuoteEach | export/modules/mono/editor/GodotTools/GodotTools/Utils/OS.cs:166 | every argument in place, in double quotes exactly when it holds a space |
| MonoOs.ScanPlain | export/modules/mono/editor/GodotTools/GodotTools/Utils/OS.cs:163-167 | characters other than quotes, and outside quotes other than spaces, are copied into the argument being read |
| MonoOs.ScanQuoted | export/modules/mono/editor/GodotTools/GodotTools/Utils/OS.cs:166 | a non-empty argument without quotes reads back whole from its quoted form |
| MonoOs.JoinQuoted | export/modules/mono/editor/GodotTools/GodotTools/Utils/OS.cs:166 | two or more arguments join as the first, quoted as needed, a space, and the rest |
| MonoOs.ScanSpace | export/modules/mono/editor/GodotTools/GodotTools/Utils/OS.cs:166 | a space outside quotes ends the argument being read |
| MonoOs.ScanJoined | export/modules/mono/editor/GodotTools/GodotTools/Utils/OS.cs:163-167 | reading back the joined line of plain arguments appends exactly those arguments |
| MonoOs.CmdLineRoundTrip | export/modules/mono/editor/GodotTools/GodotTools/Utils/OS.cs:163-167 | arguments that are non-empty and hold no double quote come back unchanged, spaces and all |
| MonoOs.EmptyArgumentLost | export/modules/mono/editor/GodotTools/GodotTools/Utils/OS.cs:165-166 | an empty argument is not quoted, so `["a", "", "b"]` comes back as `["a", "b"]` |
| MonoOs.KeepUsable | export/modules/mono/editor/GodotTools/GodotTools/Utils/OS.cs:112-118 | exactly the listed directories without an invalid path character, each of them usable |
| MonoOs.KeepUsableAppend | export/modules/mono/editor/GodotTools/GodotTools/Utils/OS.cs:112-118 | filtering keeps the order of the directories |
| MonoOs.SearchDirList | export/modules/mono/editor/GodotTools/GodotTools/Utils/OS.cs:108-124 | the search list is never empty and ends with the current directory |
| MonoOs.SearchDirs | export/modules/mono/editor/GodotTools/GodotTools/Utils/OS.cs:108-124 | the loop fills exactly the usable `PATH` entries in order, then the current directory |
| MonoOs.FirstMatch | export/modules/mono/editor/GodotTools/GodotTools/Utils/OS.cs:127 | nothing exactly when no candidate is accepted; otherwise an accepted candidate with every earlier one rejected |
| MonoOs.FirstMatchAppend | export/modules/mono/editor/GodotTools/GodotTools/Utils/OS.cs:129-133 | searching two lists is searching the first, else the second |
| MonoOs.Combined | export/modules/mono/editor/GodotTools/GodotTools/Utils/OS.cs:127 | one combined path per directory, in order |
| MonoOs.WithExts | export/modules/mono/editor/GodotTools/GodotTools/Utils/OS.cs:129-133 | one path per extension, in order |
| MonoOs.CandidatesDirectoryFirst | export/modules/mono/editor/GodotTools/GodotTools/Utils/OS.cs:129-133 | the flat query tries every extension in one directory before the next directory |
| MonoOs.Which | export/modules/mono/editor/GodotTools/GodotTools/Utils/OS.cs:97-100 | the Windows search on Windows-like platforms, the Unix search elsewhere |
| MonoOs.UnixSearchOrder | export/modules/mono/editor/GodotTools/GodotTools/Utils/OS.cs:136-158 | the first search directory holding an existing executable `name`, the current directory last; nothing when none does |
| MonoOs.WindowsSearchOrder | export/modules/mono/editor/GodotTools/GodotTools/Utils/OS.cs:102-134 | with a listed extension the first directory holding `name`; without one the first directory holding `name` plus some extension, extensions in order |
| MonoOs.WindowsWithoutPathExt | export/modules/mono/editor/GodotTools/GodotTools/Utils/OS.cs:104 | without `PATHEXT` a name without a listed extension is never found |
| MonoOs.PathWhichUnix | export/modules/mono/editor/GodotTools/GodotTools/Utils/OS.cs:136-158 | the directory loop finds what the Unix search finds |
| MonoOs.PathWhichWindows | export/modules/mono/editor/GodotTools/GodotTools/Utils/OS.cs:102-134 | the directory loop finds what the Windows search finds |
| MonoOs.PathWhich | export/modules/mono/editor/GodotTools/GodotTools/Utils/OS.cs:97-100 | the result is the platform's search |
| MonoOs.IsWindows | export/modules/mono/editor/GodotTools/GodotTools/Utils/OS.cs:70-85 | Windows or UWP, the platform name compared ignoring case (disjoint from `IsUnixLike` by `WindowsIsNotUnixLike`) |
| MonoOs.IsUnixLike | export/modules/mono/editor/GodotTools/GodotTools/Utils/OS.cs:79-93 | one of OSX, X11, Server, Haiku, Android and iOS, compared ignoring case |
| MonoOs.CmdLineArgsToString | export/modules/mono/editor/GodotTools/GodotTools/Utils/OS.cs:163-167 | the arguments joined by spaces, each with a space quoted (read back by `CmdLineRoundTrip`) |
| MonoOs.WhichWindows | export/modules/mono/editor/GodotTools/GodotTools/Utils/OS.cs:102-134 | the Windows search over the search directories and `PATHEXT` (stated in `WindowsSearchOrder`) |
| MonoOs.WhichUnix | export/modules/mono/editor/GodotTools/GodotTools/Utils/OS.cs:136-158 | the Unix search for an existing executable over the search directories (stated in `UnixSearchOrder`) |
| OsxExport.Channel | export/platform/osx/export/export.cpp:188 | byte `k` of channel `ch` is byte `4k + ch` of the RGBA pixels |
| OsxExport.Lim | export/platform/osx/export/export.cpp:200 | the run scan never looks past the last byte; as written it may look 130 bytes ahead, corrected 129 |
| OsxExport.RunEnd | export/platform/osx/export/export.cpp:203-211 | the scan stops at the first byte that differs from the run's, or one past the limit when none does |
| OsxExport.Step | export/platform/osx/export/export.cpp:187-235 | each pass moves forward, keeps fewer than 128 pending literal bytes, and leaves none pending at the end of the channel |
| OsxExport.RunLen | export/platform/osx/export/export.cpp:200-216 | a corrected run covers between 3 and 130 bytes, all inside the channel |
| OsxExport.RunStep | export/platform/osx/export/export.cpp:192-216 | in the corrected encoder a run flushes the pending literal and its header announces exactly the bytes it consumes |
| OsxExport.RunLenRepeat | export/platform/osx/export/export.cpp:203-211 | every byte a run covers equals its first |
| OsxExport.EncodeFromRoundTrip | export/platform/osx/export/export.cpp:187-235 | decoding the corrected encoder's output from any position gives back the pending bytes and the rest of the channel |
| OsxExport.EncodeRoundTrip | export/platform/osx/export/export.cpp:175-240 | decoding the corrected encoding of a channel gives back the channel |
| OsxExport.EncodeLength | export/platform/osx/export/export.cpp:180 | the encoding is at most twice the channel plus one byte |
| OsxExport.DecodeAppend | export/platform/osx/export/export.cpp:313-315 | decoding encodings written back to back decodes each in turn |
| OsxExport.AsWrittenDropsByte | export/platform/osx/export/export.cpp:212-216 | as written, four equal bytes encode as `[0x80, x]` and read back as three |
| OsxExport.AsWrittenTailRunMisread | export/platform/osx/export/export.cpp:200-216 | as written, three equal bytes at the end get the header 0x7F, a 128-byte literal, and do not decode |
| OsxExport.AsWrittenFlatIcon | export/platform/osx/export/export.cpp:200-216 | as written, a one-colour 16x16 channel encodes as two runs announcing 130 and 124 bytes and reads back as 254 of its 256 bytes |
| OsxExport.RunEndExtend | export/platform/osx/export/export.cpp:203-211 | scanning one byte further changes the scan's result only when it found no differing byte |
| OsxExport.RunScanAgrees | export/platform/osx/export/export.cpp:200-216 | at a run that stops before the as-written limit, the corrected scan stops at the same offset, or reaches its own limit one short and announces the same length in its header |
| OsxExport.StepAgrees | export/platform/osx/export/export.cpp:187-235 | where no run reaches the as-written limit, one pass of the encoder as written equals the corrected pass |
| OsxExport.EncodeFromAgrees | export/platform/osx/export/export.cpp:187-235 | where no run reaches the as-written limit, the encoder as written emits the corrected output from every position |
| OsxExport.AsWrittenAgrees | export/platform/osx/export/export.cpp:175-240 | on a channel where no run reaches the as-written limit, the encoder as written gives the corrected encoding and reads back as the channel |
| OsxExport.ScanRun | export/platform/osx/export/export.cpp:203-211 | the loop finds the first differing offset, as the run specification does |
| OsxExport.PackBitsEncode | export/platform/osx/export/export.cpp:175-240 | the corrected encoding of the channel is appended to the destination and decodes back to the channel |
| OsxExport.EncodeChannel | export/platform/osx/export/export.cpp:186-235 | the encoder loop produces the encoding of the channel |
| OsxExport.EncodeStep | export/platform/osx/export/export.cpp:187-234 | one pass of the loop computes the step specification |
| OsxExport.EncodeRun | export/platform/osx/export/export.cpp:192-216 | a run flushes the pending literal and emits the run, as the step specification says |
| OsxExport.FlushLiteral | export/platform/osx/export/export.cpp:193-198 | the pending bytes are written as one literal block |
| OsxExport.EncodeLiteral | export/platform/osx/export/export.cpp:217-232 | a byte joins the pending literal, which is flushed when full or near the end, as the step specification says |
| OsxExport.Tag | export/platform/osx/export/export.cpp:299 | an entry type is four bytes |
| OsxExport.Framed | export/platform/osx/export/export.cpp:292-300 | an entry on disk is its 8-byte header followed by its body |
| OsxExport.IcnsRoundTrip | export/platform/osx/export/export.cpp:242-345 | the file read back gives exactly the entries written |
| OsxExport.IcnsHeader | export/platform/osx/export/export.cpp:248-253 | the file starts with "icns" and the big-endian total length |
| OsxExport.RgbEntryDecodes | export/platform/osx/export/export.cpp:309-321 | with the corrected encoder, the run-length entry of an item holds its red, green and blue channels, in that order |
| OsxExport.IconInfosShape | export/platform/osx/export/export.cpp:261-272 | every entry type of the table is four Latin-1 characters and every run-length entry is at most 32x32 |
| OsxExport.NoneStaysNone | export/platform/osx/export/export.cpp:285-290 | once a PNG file cannot be opened, no later item brings the entries back |
| OsxExport.PackRgb | export/platform/osx/export/export.cpp:313-315 | the three channels are appended red, green, blue |
| OsxExport.PatchFrames | export/platform/osx/export/export.cpp:317-320 | writing the length over the eight placeholder bytes frames the body after them |
| OsxExport.AppendRgbaEntries | export/platform/osx/export/export.cpp:305-337 | the run-length entry and its mask entry are appended, framed |
| OsxExport.AppendItem | export/platform/osx/export/export.cpp:279-337 | one item's entries are appended, framed |
| OsxExport.AllEntriesSnoc | export/platform/osx/export/export.cpp:274-338 | the entries of `i + 1` items are those of `i` items followed by item `i`'s |
| OsxExport.MakeIcon | export/platform/osx/export/export.cpp:242-345 | no file exactly when some PNG cannot be opened; otherwise a file that fits and, with the corrected encoder, reads back as the entries of every item |
| OsxExport.FrameIcon | export/platform/osx/export/export.cpp:274-338 | the loop over any table of entry types gives the same result |
| OsxExport.FrameItem | export/platform/osx/export/export.cpp:275-337 | each pass frames item `i` after the items before it |
| OsxExport.UnreadablePng | export/platform/osx/export/export.cpp:285-290 | an item whose PNG cannot be opened leaves the icon without entries |
| OsxExport.HeaderPatch | export/platform/osx/export/export.cpp:340-342 | writing the total length after "icns" gives the file header |
| OsxExport.Substitutions | export/platform/osx/export/export.cpp:354-377 | eleven placeholders, each starting with '$', non-empty and without a line break |
| OsxExport.FixedLines | export/platform/osx/export/export.cpp:353-381 | one fixed line per line, in order |
| OsxExport.FixPlist | export/platform/osx/export/export.cpp:347-388 | the file split on "\n", each line fixed, each followed by "\n" |
| OsxExport.FixLines | export/platform/osx/export/export.cpp:352-381 | the loop fixes and terminates every line in order |
| OsxExport.TerminatedJoin | export/platform/osx/export/export.cpp:379 | terminating every line equals joining the lines and one empty line with "\n" |
| OsxExport.FixLineUntouched | export/platform/osx/export/export.cpp:378-380 | a line without '$' is copied unchanged |
| OsxExport.FixLineFirst | export/platform/osx/export/export.cpp:354-377 | only the first placeholder in the order that the line holds is replaced, every occurrence of it |
| OsxExport.FixLineKeeps | export/platform/osx/export/export.cpp:354-380 | a line gains no character that neither it nor any placeholder or replacement holds |
| OsxExport.FixedPlistLines | export/platform/osx/export/export.cpp:352-381 | with replacements free of line breaks, the fixed file read back line by line is the fixed lines and the empty piece after the last "\n" |
| OsxExport.ZipMode | export/platform/osx/export/export.cpp:910-926 | the executable bits are set exactly for the package's file inside a folder ending "MacOS"; every file is regular and readable |
| OsxExport.ZipAttributes | export/platform/osx/export/export.cpp:926-927 | the attributes are the mode shifted into the high half with the read-only bit clear |
| OsxExport.CanExport | export/platform/osx/export/export.cpp:958-987 | missing templates exactly when not valid; valid exactly when the debug or the release template is there; an error exactly when a lookup failed, starting with the official lookup's message |
| OsxExport.CanExportMessages | export/platform/osx/export/export.cpp:968-979 | a missing custom template is reported after the official message, debug before release |
| OsxExport.CanExportOfficialOnly | export/platform/osx/export/export.cpp:965-966 | without custom templates, exporting is possible exactly when the official template is installed |
| OsxExport.BinaryExtensions | export/platform/osx/export/export.cpp:80-87 | "zip" always comes last; "dmg" is present exactly when disk images are used, and then first |
| PluginConfig.ResolveLocalDependencyPath | export/platform/android/plugin/godot_plugin_config.h:120-131 | an empty dependency path resolves to the empty path |
| PluginConfig.ResolvePrebuiltPlugin | export/platform/android/plugin/godot_plugin_config.h:133-143 | the loop resolves the local binary and every local dependency against the directory, keeping the rest |
| PluginConfig.ResolvedLikeLoaded | export/platform/android/plugin/godot_plugin_config.h:133-143 | resolving a prebuilt plugin against a configuration's directory gives the binary and local dependencies loading that configuration gives, and changes nothing else |
| PluginConfig.IsPluginConfigValid | export/platform/android/plugin/godot_plugin_config.h:151-173 | valid exactly when the name is set, the binary type is local or remote, the binary is set and remote or existing, and every local dependency exists |
| PluginConfig.LatestIsMaximum | export/platform/android/plugin/godot_plugin_config.h:179-182 | the running maximum is at least every file's time and is the start or one of them |
| PluginConfig.ModificationTimeIsMaximum | export/platform/android/plugin/godot_plugin_config.h:175-185 | the plugin's time is the maximum over the configuration file, the binary and every local dependency |
| PluginConfig.GetPluginModificationTime | export/platform/android/plugin/godot_plugin_config.h:175-185 | the loop computes the plugin's modification time |
| PluginConfig.LoadPluginConfig | export/platform/android/plugin/godot_plugin_config.h:187-219 | an invalid or unloadable file gives the default configuration; otherwise the values are kept, a local binary and the local dependencies resolved against the file's directory, dependencies only when the section exists, validity and modification time computed |
| PluginConfig.CollectMembers | export/platform/android/plugin/godot_plugin_config.h:221-284 | an item is collected exactly when some configuration contributes it |
| PluginConfig.GetPluginsBinaries | export/platform/android/plugin/godot_plugin_config.h:221-248 | the binaries of the valid configurations of the requested type, plus local dependencies for "local" and remote dependencies for "remote", joined by the plugin value separator |
| PluginConfig.AddedBinaries | export/platform/android/plugin/godot_plugin_config.h:226-244 | one valid configuration pushes its binary when of the requested type, then its local or remote dependencies when that type was requested |
| PluginConfig.BinariesMembers | export/platform/android/plugin/godot_plugin_config.h:221-248 | a path is listed exactly when a valid configuration has it as its binary of that type, or, for "local", among its local dependencies, or, for "remote", among its remote ones |
| PluginConfig.GetPluginsCustomMavenRepos | export/platform/android/plugin/godot_plugin_config.h:250-266 | the repositories of the valid configurations, joined by the plugin value separator |
| PluginConfig.ReposMembers | export/platform/android/plugin/godot_plugin_config.h:250-266 | a repository is listed exactly when a valid configuration lists it |
| PluginConfig.GetPluginsNames | export/platform/android/plugin/godot_plugin_config.h:268-284 | the names of the valid configurations, joined by the plugin value separator |
| PluginConfig.NamesInOrder | export/platform/android/plugin/godot_plugin_config.h:268-284 | one name per valid configuration at most; every valid configuration's name is listed and every listed name is one |
| PluginConfig.NamesSplitBack | export/platform/android/plugin/godot_plugin_config.h:268-284 | when no name holds the separator, splitting the joined names gives back the names |
| Ray.Target | export/scene/3d/ray_cast.cpp:209-211 | a zero `cast_to` is replaced by (0, 0.01, 0) and any other is kept, so the cast vector is never zero |
| Ray.RayCast.constructor | export/scene/3d/ray_cast.cpp:406-418 | disabled, nothing hit, mask 1, cast downwards one unit, no exceptions, parent body excluded, bodies but not areas collided with |
| Ray.RayCast.SetCastTo | export/scene/3d/ray_cast.cpp:38-45 | the cast vector is stored |
| Ray.RayCast.SetCollisionMask | export/scene/3d/ray_cast.cpp:52-55 | the mask is stored |
| Ray.RayCast.SetCollisionMaskBit | export/scene/3d/ray_cast.cpp:62-70 | bit `bit` reads back as `value` and every other bit is unchanged |
| Ray.RayCast.GetCollider | export/scene/3d/ray_cast.cpp:81-87 | no object while nothing was hit, otherwise the instance with the collider's id |
| Ray.RayCast.SetEnabled | export/scene/3d/ray_cast.cpp:102-118 | the flag is stored; inside the tree outside the editor physics processing follows it; disabling forgets the last hit |
| Ray.RayCast.SetExcludeParentBody | export/scene/3d/ray_cast.cpp:125-141 | the flag is stored; only a change inside the tree under a body adds or removes that body's RID from the exceptions |
| Ray.RayCast.EnterTree | export/scene/3d/ray_cast.cpp:152-171 | processing is on exactly when enabled outside the editor; an excluded parent body's RID joins the exceptions |
| Ray.RayCast.ExitTree | export/scene/3d/ray_cast.cpp:172-181 | leaving the tree stops the processing of an enabled ray |
| Ray.RayCast.UpdateRaycastState | export/scene/3d/ray_cast.cpp:200-227 | without a space nothing changes; otherwise the space's answer for the ray is recorded, a hit or a miss |
| Ray.RayCast.RecordHit | export/scene/3d/ray_cast.cpp:217-221 | a hit records the collider, its shape, the point and the normal |
| Ray.RayCast.RecordMiss | export/scene/3d/ray_cast.cpp:223-225 | a miss clears the collider and shape and keeps the point and normal |
| Ray.RayCast.PhysicsProcess | export/scene/3d/ray_cast.cpp:182-196 | a disabled ray does nothing; an enabled one updates its state |
| Ray.RayCast.AddExceptionRid | export/scene/3d/ray_cast.cpp:233-236 | the RID joins the exceptions |
| Ray.RayCast.AddException | export/scene/3d/ray_cast.cpp:238-245 | a collision object's RID joins the exceptions; anything else is ignored |
| Ray.RayCast.RemoveExceptionRid | export/scene/3d/ray_cast.cpp:247-250 | the RID leaves the exceptions |
| Ray.RayCast.RemoveException | export/scene/3d/ray_cast.cpp:252-259 | a collision object's RID leaves the exceptions; anything else is ignored |
| Ray.RayCast.ClearExceptions | export/scene/3d/ray_cast.cpp:261-264 | no exceptions remain |
| Ray.RayCast.SetCollideWithAreas | export/scene/3d/ray_cast.cpp:266-269 | the flag is stored |
| Ray.RayCast.SetCollideWithBodies | export/scene/3d/ray_cast.cpp:276-279 | the flag is stored |
| GodotRid.Rid.constructor | export/modules/mono/glue/GodotSharp/GodotSharp/Core/RID.cs:48-51 | a live handle holding the given pointer, nothing released |
| GodotRid.Rid.Empty | export/modules/mono/glue/GodotSharp/GodotSharp/Core/RID.cs:58-61 | a live handle holding the null pointer |
| GodotRid.Rid.NativeInstance | export/modules/mono/glue/GodotSharp/GodotSharp/Core/RID.cs:53-56 | the native pointer while live, zero once disposed |
| GodotRid.Rid.DisposeCore | export/modules/mono/glue/GodotSharp/GodotSharp/Core/RID.cs:34-46 | a disposed handle is left alone; otherwise a non-null pointer goes to the native destructor and is zeroed, and the handle is disposed |
| GodotRid.Rid.Dispose | export/modules/mono/glue/GodotSharp/GodotSharp/Core/RID.cs:28-32 | disposes as `Dispose(true)` does |
| GodotRid.Rid.Finalize | export/modules/mono/glue/GodotSharp/GodotSharp/Core/RID.cs:23-26 | disposes as `Dispose(false)` does |
| GodotRid.Rid.GetId | export/modules/mono/glue/GodotSharp/GodotSharp/Core/RID.cs:68-71 | a disposed handle throws `ObjectDisposedException`; a live one gives the native id of its pointer |
| GodotRid.GetPtr | export/modules/mono/glue/GodotSharp/GodotSharp/Core/RID.cs:12-21 | a null instance throws `NullReferenceException`, a disposed one `ObjectDisposedException`, a live one gives its native pointer |
| GodotRid.DestroyedAtMostOnce | export/modules/mono/glue/GodotSharp/GodotSharp/Core/RID.cs:34-46 | the native destructor runs at most once per handle, only on its own non-null pointer |
| GodotRid.DisposeTwice | export/modules/mono/glue/GodotSharp/GodotSharp/Core/RID.cs:23-46 | finaliser and `Dispose` in either order release a non-null pointer exactly once and leave the handle disposed and zeroed |
| SoftBody.LastIndexOf | export/modules/bullet/soft_body_bullet.cpp:468-475 | -1 exactly when the node is absent; otherwise a position holding it with none after it |
| SoftBody.LastIndexOfIs | export/modules/bullet/soft_body_bullet.cpp:468-475 | a position holding the node with none after it, or -1 for an absent node, is what the backwards search finds |
| SoftBody.RemoveOnly | export/modules/bullet/soft_body_bullet.cpp:461-466 | removing the only occurrence of a node leaves every other node and nothing else, still without duplicates |
| SoftBody.SoftBodyBullet.constructor | export/modules/bullet/soft_body_bullet.cpp:38-50 | no body, no pinned nodes, no indices table, total mass 1 |
| SoftBody.SoftBodyBullet.SearchNodePinned | export/modules/bullet/soft_body_bullet.cpp:468-475 | the backwards loop finds the highest position of the node, or -1 |
| SoftBody.SoftBodyBullet.PinNode | export/modules/bullet/soft_body_bullet.cpp:455-459 | an unpinned node is appended; a pinned one leaves the list unchanged; no node is pinned twice |
| SoftBody.SoftBodyBullet.UnpinNode | export/modules/bullet/soft_body_bullet.cpp:461-466 | a pinned node's position is removed and every other node stays; an unpinned node changes nothing |
| SoftBody.SoftBodyBullet.SetNodeMass | export/modules/bullet/soft_body_bullet.cpp:200-209 | a mass of zero or less pins the node, any other unpins it, and no other node changes |
| SoftBody.SoftBodyBullet.GetNodeMass | export/modules/bullet/soft_body_bullet.cpp:211-217 | the body's mass when there is a body; otherwise 0 for a pinned node and 1 for any other |
| SoftBody.SoftBodyBullet.ResetAllNodeMass | export/modules/bullet/soft_body_bullet.cpp:219-226 | no node stays pinned |
| SoftBody.SoftBodyBullet.SetTotalMass | export/modules/bullet/soft_body_bullet.cpp:254-262 | the total mass is always positive: the given mass when positive, else 1 |
| SoftBody.SoftBodyBullet.SetTrimeshBodyShape | export/modules/bullet/soft_body_bullet.cpp:323-398 | a new body whose nodes are the distinct vertices, each at its first occurrence, and whose triangles are the whole input triangles rewound onto those nodes |
| SoftBody.MergeVertices | export/modules/bullet/soft_body_bullet.cpp:334-360 | the loop gives every vertex the node of its first equal vertex, numbering nodes by first occurrence, and lists each node's vertices in ascending order |
| SoftBody.NodePositions | export/modules/bullet/soft_body_bullet.cpp:366-376 | each node sits at its first vertex, so the nodes are exactly the distinct vertices |
| SoftBody.Corner | export/modules/bullet/soft_body_bullet.cpp:387-391 | output corner `j` reads the same triangle's corner `2 - j % 3` |
| SoftBody.RewindTriangles | export/modules/bullet/soft_body_bullet.cpp:378-392 | one output triangle per whole input triangle, each corner the node of the mirrored input corner; a trailing partial triangle is dropped |
| SpriteFrames.TruncDiv | export/editor/plugins/sprite_frames_editor_plugin.cpp:113-114 | C++ integer division: the quotient rounded toward zero, for negative dividends too |
| SpriteFrames.Clamp | export/editor/plugins/sprite_frames_editor_plugin.cpp:113-114 | the value when in range, else the nearer bound |
| SpriteFrames.CellRoundTrip | export/editor/plugins/sprite_frames_editor_plugin.cpp:86-88 | the column `idx % h` and row `(idx - xp) / h` of cell `h * y + x` are `x` and `y` |
| SpriteFrames.CellFromParts | export/editor/plugins/sprite_frames_editor_plugin.cpp:86-88 | every non-negative index is the cell made from its column and row |
| SpriteFrames.Slice | export/editor/plugins/sprite_frames_editor_plugin.cpp:113-114 | the slice picked is always one of the `n`, and for a click inside the preview it is `p * n / w` |
| SpriteFrames.ClickedCell | export/editor/plugins/sprite_frames_editor_plugin.cpp:109-116 | the cell picked is always in the grid, and for a click inside the preview it is the cell under the pointer |
| SpriteFrames.Span | export/editor/plugins/sprite_frames_editor_plugin.cpp:120-126 | exactly the cells from the lower to the higher end |
| SpriteFrames.Toggle | export/editor/plugins/sprite_frames_editor_plugin.cpp:134-138 | the clicked cell changes membership and no other cell does |
| SpriteFrames.ToggleTwice | export/editor/plugins/sprite_frames_editor_plugin.cpp:134-138 | clicking the same cell twice restores the selection |
| SpriteFrames.AllToggled | export/editor/plugins/sprite_frames_editor_plugin.cpp:186-197 | a selection holding every cell is cleared; otherwise every cell is added and cells outside the grid are kept |
| SpriteFrames.AllToggledTwice | export/editor/plugins/sprite_frames_editor_plugin.cpp:186-197 | pressing select/clear all twice with a cell missing selects all, then clears |
| SpriteFrames.CandidatesDistinct | export/editor/plugins/sprite_frames_editor_plugin.cpp:562-567 | different counters give different names |
| SpriteFrames.FreeCounter | export/editor/plugins/sprite_frames_editor_plugin.cpp:563-567 | the naming loop stops at the first free name from its counter on, every name before it being taken |
| SpriteFrames.UniqueName | export/editor/plugins/sprite_frames_editor_plugin.cpp:560-567 | the name is free, and is the base itself when the base is free |
| SpriteFrames.UniqueNameSmallest | export/editor/plugins/sprite_frames_editor_plugin.cpp:560-567 | the counter chosen is the smallest whose name is free |
| SpriteFrames.PickUniqueName | export/editor/plugins/sprite_frames_editor_plugin.cpp:562-567 | the loop settles on the unique name |
| SpriteFrames.Sanitize | export/editor/plugins/sprite_frames_editor_plugin.cpp:529 | the typed name holds no '/' and no ',' |
| SpriteFrames.RenameAnimation | export/editor/plugins/sprite_frames_editor_plugin.cpp:542 | the animation's frames move to the new name and every other animation is kept |
| SpriteFrames.RenameAsWritten | export/editor/plugins/sprite_frames_editor_plugin.cpp:529-555 | as written, the editor goes on to edit the sanitized name without the counter |
| SpriteFrames.RenameKeepsEditing | export/editor/plugins/sprite_frames_editor_plugin.cpp:529-555 | after a rename the editor edits the renamed animation, with its frames, under a name no other animation had |
| SpriteFrames.RenameAsWrittenEditsOther | export/editor/plugins/sprite_frames_editor_plugin.cpp:531-555 | renaming "a" to "b" while "b" exists gives "b 1", but as written the editor goes on to edit the other animation "b" |
| SpriteFrames.SpriteFramesEditor.constructor | export/editor/plugins/sprite_frames_editor_plugin.cpp:1033-1066 | no frame selected, editing "default", a 1 by 1 grid within the spin boxes' range 1 to 128, `sel` -1, not updating |
| SpriteFrames.SpriteFramesEditor.SheetPreviewInput | export/editor/plugins/sprite_frames_editor_plugin.cpp:104-144 | the last cell becomes the clicked one; a shift click after an earlier click adds, or with ctrl removes, every cell between them; a plain click toggles the cell |
| SpriteFrames.SpriteFramesEditor.SelectClearAllFrames | export/editor/plugins/sprite_frames_editor_plugin.cpp:186-200 | the loop gives the select/clear-all result |
| SpriteFrames.SpriteFramesEditor.SheetSpinChanged | export/editor/plugins/sprite_frames_editor_plugin.cpp:202-207 | the selection is cleared and the last cell forgotten |
| SpriteFrames.SpriteFramesEditor.PrepareSpriteSheet | export/editor/plugins/sprite_frames_editor_plugin.cpp:209-226 | a file that does not load changes nothing; otherwise the selection and last cell are cleared, and a new texture resets the grid to 4 by 4 |
| SpriteFrames.SpriteFramesEditor.AnimationAdd | export/editor/plugins/sprite_frames_editor_plugin.cpp:560-589 | a new empty animation under the unique name, which becomes the edited one |
| SpriteFrames.SpriteFramesEditor.AnimationNameEdited | export/editor/plugins/sprite_frames_editor_plugin.cpp:512-558 | nothing while updating, without an edited item, or for an unchanged name; otherwise the animation moves to the unique sanitized name and stays the edited one |
| SpriteFrames.SpriteFramesEditor.UpdateLibrarySelection | export/editor/plugins/sprite_frames_editor_plugin.cpp:684-692 | `sel` is pulled into the edited animation's frames when it has any, kept when already inside, and set to -1 past the end of an empty one |
| StringBuffer.NextPowerOf2 | export/core/string_buffer.h:130 | the least power of two at least the requested size |
| StringBuffer.Resize | export/core/string_buffer.h:130 | the new length, with the kept prefix unchanged |
| StringBuffer.FirstNulOrEnd | export/core/string_buffer.h:101 | the position of the first NUL, or the length when there is none |
| StringBuffer.BeforeNul | export/core/string_buffer.h:147 | what a C string reads as holds no NUL |
| StringBuffer.ClipLength | export/core/string_buffer.h:113-116 | the count never passes the first NUL, nor the clip length when it is not negative |
| StringBuffer.NulAt | export/core/string_buffer.h:105 | a NUL with none before it is where reading stops |
| StringBuffer.StringBuffer.constructor | export/core/string_buffer.h:82-84 | an empty buffer using the short array |
| StringBuffer.StringBuffer.Length | export/core/string_buffer.h:139-141 | the number of characters appended |
| StringBuffer.StringBuffer.Reserve | export/core/string_buffer.h:125-136 | as corrected, the characters are kept; nothing changes while the current buffer (the short one when the heap one is empty) is larger than the size; otherwise the heap buffer grows to the next power of two of the size |
| StringBuffer.StringBuffer.AppendChar | export/core/string_buffer.h:88-92 | the character is appended last |
| StringBuffer.StringBuffer.CopyIn | export/core/string_buffer.h:104-107 | the copy appends exactly the given characters after the last one |
| StringBuffer.StringBuffer.AppendCStr | export/core/string_buffer.h:100-109 | every character before the terminator is appended, in order |
| StringBuffer.StringBuffer.AppendString | export/core/string_buffer.h:95-97 | the string's characters before its terminator are appended |
| StringBuffer.StringBuffer.AppendClipped | export/core/string_buffer.h:112-122 | the characters before the terminator are appended, at most the clip length when it is not negative |
| StringBuffer.StringBuffer.AsString | export/core/string_buffer.h:144-152 | the contents are kept; from the short array the result stops at the first NUL, from the heap it is every character |
| StringBuffer.AppendCharAsWritten | export/core/string_buffer.h:88-92 | with the reservation as written, the character stays in the buffer exactly when there is room for it |
| StringBuffer.AppendOverrunsAfterAsString | export/core/string_buffer.h:125-152 | as written, after one character, `reserve(64)` and `as_string`, the second further character is written past the two-character heap buffer |
| StringBuffer.ReserveCorrected | export/core/string_buffer.h:125-136 | the corrected reservation leaves room for the requested size and never shrinks the current buffer |
| StringBuffer.ReserveAsWritten | export/core/string_buffer.h:125-136 | `reserve` as written, returning at once below the short-buffer size (shown wrong by `AppendOverrunsAfterAsString`) |
| Translations.ConcatHas | export/core/translation.cpp:46-421 | every locale of every block of the table is in the table |
| Translations.DefaultLocaleListed | export/core/translation.cpp:46-421 | "en" is a listed locale |
| Translations.ListedFrom | export/core/translation.cpp:932-941 | the scan from a position finds the locale exactly when it is in the rest of the table |
| Translations.IsLocaleValid | export/core/translation.cpp:930-942 | valid exactly when the locale is in the table |
| Translations.StandardizeLocale | export/core/translation.cpp:944-960 | no '-' remains; "in", "iw" and "no" become "id", "he" and "nb"; every other locale keeps its length, with each '-' replaced by '_' and every other character kept |
| Translations.RenamedAsGiven | export/core/translation.cpp:944-960 | replacing '-' by '_' gives "in", "iw" or "no" exactly when the locale already was that name |
| Translations.StandardizeIdempotent | export/core/translation.cpp:944-960 | standardising a standard locale changes nothing |
| Translations.RenamesAreListed | export/core/translation.cpp:807-812 | "in", "iw" and "no" standardise to valid locales |
| Translations.RenameTargetsListed | export/core/translation.cpp:807-812 | "id", "he" and "nb" are listed locales |
| Translations.GetLanguageCode | export/core/translation.cpp:962-977 | the code is a prefix of the locale |
| Translations.LanguageCodeShape | export/core/translation.cpp:969-976 | the code holds no '_', and no '-' when the locale has no '_'; a locale with neither is its own code |
| Translations.FirstBefore | export/core/translation.cpp:969-971 | `find` of a one-character key reports -1 exactly when it is absent, and otherwise a position with none before it |
| Translations.LanguageCodeIdempotent | export/core/translation.cpp:962-977 | the language code of a standardised locale's code is that code |
| Translations.ResolveLocale | export/core/translation.cpp:858-875 | a kept locale is valid; a valid standardised locale is kept as it is; nothing is kept exactly when neither it nor its language code is valid |
| Translations.ListedLocaleKept | export/core/translation.cpp:858-875 | a listed locale without '-' that is not renamed is accepted as it stands |
| Translations.MessageOf | export/core/translation.cpp:881-888 | the translation of a present key, the null name for an absent one |
| Translations.AddPairsAppend | export/core/translation.cpp:852-855 | adding one more pair sets that key over what the earlier pairs gave |
| Translations.Flatten | export/core/translation.cpp:816-829 | twice as many strings as keys, each key followed by its translation |
| Translations.SaveLoadRoundTrip | export/core/translation.cpp:816-856 | loading what `_get_messages` saved rebuilds the same catalogue |
| Translations.FlattenUnique | export/core/translation.cpp:816-829 | any sequence laying out each key and its translation in order is the saved array |
| Translations.Translation.constructor | export/core/translation.cpp:924-926 | a catalogue for "en" with no messages |
| Translations.Translation.SetLocale | export/core/translation.cpp:858-875 | succeeds exactly when the locale or its language code is valid, and then keeps the resolved locale; on failure the locale is unchanged |
| Translations.Translation.AddMessage | export/core/translation.cpp:877-880 | the key is set to the translation, every other kept |
| Translations.Translation.GetMessage | export/core/translation.cpp:881-888 | the message of the catalogue |
| Translations.Translation.EraseMessage | export/core/translation.cpp:890-893 | the key is removed and every other kept |
| Translations.Translation.GetMessageCount | export/core/translation.cpp:903-906 | the number of keys |
| Translations.Translation.SetMessages | export/core/translation.cpp:845-856 | an odd-length array is refused and changes nothing; an even one adds each pair in order |
| Translations.Translation.GetMessages | export/core/translation.cpp:816-829 | given an enumeration of the map's keys, the loop lays out each key and its translation in that order, and loading the layout rebuilds the map |
| Translations.Enumerates | export/core/translation.cpp:816-829 | the iteration order of a map: its keys, each once |
| Translations.FirstAnswerMeaning | export/core/translation.cpp:1094-1120 | the null name exactly when no catalogue answers; otherwise the message of one that does |
| Translations.FirstAnswerAppend | export/core/translation.cpp:1094-1120 | searching one more catalogue only matters when none before answered |
| Translations.LookupPass | export/core/translation.cpp:1090-1120 | the loop with `res` and `near_match` gives the pass: an exact catalogue wins, else the first near one |
| Translations.ExactStops | export/core/translation.cpp:1115-1116 | the first exact catalogue that answers ends the pass with its message |
| Translations.FirstAnswerPrefix | export/core/translation.cpp:1094-1120 | once a prefix answers, the rest of the list does not matter |
| Translations.ResolveSource | export/core/translation.cpp:1071-1161 | a translation comes from a catalogue of the locale's or the fallback's language, or is the message itself |
| Translations.ExactBeatsNear | export/core/translation.cpp:1094-1120 | an exact catalogue holding the message beats every near one, in whatever order the catalogues come |
| Translations.TranslationServer.SetLocale | export/core/translation.cpp:979-1002 | never fails: the resolved locale, or "en" when there is none, and the result is always valid |
| Translations.TranslationServer.Translate | export/core/translation.cpp:1071-1161 | the message itself when disabled or the locale is too short; otherwise the locale's pass, then the fallback's, then the message |
| Translations.TranslationServer.ToolTranslate | export/core/translation.cpp:1218-1229 | the editor catalogue's non-empty message, else the message itself |
| Translations.FirstAnswer | export/core/translation.cpp:1094-1120 | the first catalogue answering for the locale, exactly or by language (stated in `FirstAnswerMeaning`) |
| Translations.Pass | export/core/translation.cpp:1090-1120 | one pass of `translate`: an exact catalogue wins, else the first near one (computed by `LookupPass`) |
| Translations.Resolve | export/core/translation.cpp:1071-1161 | the locale's pass, then the fallback's, then the message itself (stated in `ResolveSource`) |
| Bytes.LittleEndianRoundTrip | export/platform/android/java/lib/src/org/godotengine/godot/Godot.java:530 | the little-endian read of the length field gives back any 32-bit value written least significant byte first |
| Bytes.BigEndianRoundTrip | export/platform/osx/export/export.cpp:297-300 | a length written with `BSWAP32` and `encode_uint32`, most significant byte first, reads back as that length |
| World.Visible | export/scene/resources/world.cpp:161-163 | at most `VISIBILITY_CULL_MAX` notifiers, the first of those culled, all of them when they fit |
| World.CullCamera | export/scene/resources/world.cpp:157-199 | every notifier in the frustum is stamped with the pass and nothing else is kept; the added ones are exactly those new to the camera, without repeats; the removed ones exactly those it no longer sees |
| World.StampStep | export/scene/resources/world.cpp:170-182 | one more culled notifier keeps the loop's stamps, additions and uniqueness |
| World.UpdateCameras | export/scene/resources/world.cpp:155-200 | every camera is culled with its own pass number, one above the last, and every stamp stays at most the newest pass |
| World.CullNextCamera | export/scene/resources/world.cpp:155-200 | one turn of the camera loop culls one more camera and leaves the rest as they were |
| World.SecondPassQuiet | export/scene/resources/world.cpp:146-202 | with unchanged frustums a second pass reports no enter and no exit, and every camera keeps the same notifiers |
| World.RemoveFromCameras | export/scene/resources/world.cpp:96-104 | every camera forgets the notifier, and exactly the cameras that saw it are reported |
| World.SpatialIndexer.constructor | export/scene/resources/world.cpp:204-210 | nothing registered, pass and frame 0, unchanged |
| World.SpatialIndexer.NotifierAdd | export/scene/resources/world.cpp:67-73 | refused exactly when already registered, changing nothing; otherwise registered with its box and the index marked changed |
| World.SpatialIndexer.NotifierUpdate | export/scene/resources/world.cpp:75-85 | refused exactly when unknown; an unmoved notifier changes nothing; a moved one takes its new box and marks the index changed |
| World.SpatialIndexer.NotifierRemove | export/scene/resources/world.cpp:87-113 | refused exactly when unknown; otherwise unregistered, forgotten by every camera, and exactly the cameras that saw it get an exit |
| World.SpatialIndexer.AddCamera | export/scene/resources/world.cpp:115-121 | refused exactly when already registered; a new camera has seen nothing and marks the index changed |
| World.SpatialIndexer.UpdateCamera | export/scene/resources/world.cpp:123-128 | refused exactly when unknown; a known camera marks the index changed |
| World.SpatialIndexer.RemoveCamera | export/scene/resources/world.cpp:130-144 | refused exactly when unknown; otherwise every notifier it saw gets an exit and the camera is erased, without marking the index changed |
| World.SpatialIndexer.Update | export/scene/resources/world.cpp:146-202 | the frame is recorded; nothing else happens for the same frame or when nothing changed; otherwise every camera is culled in its own pass and the index is unchanged again |

## Left out

- Threading in `Godot.java` is not modelled: the render-thread event queue, the main-thread handler and `runOnUiThread`. Each callback is modelled by the decision it makes, applied at once.
- Android system services in `Godot.java` are not modelled, because they are foreign I/O: clipboard, vibration, permissions, the expansion download UI, window flags, MD5 digests and `System.exit`.
- XRMode.java is not part of this model. The XR mode values are parameters or constants named after it.
- AndroidHost: `new String(arg, "UTF-8")` is read as one character per byte (`Bytes.Chars`). This agrees with UTF-8 on ASCII bytes only; multi-byte UTF-8 decoding is not modelled.
- The command line file's encoder side is not in `Godot.java`. The model writes its own encoder only to state the round trip.
- ustring.cpp is not part of this model. `Text` defines the `String` operations the modules use (replace, split, join, strip, find, `begins_with`) from their documented meaning.
- Translations: the locale and language name tables and the loading of translation resources are left out. The `Set` of translations is modelled as a sequence in iteration order.
- Inspector: `MAX_PLUGINS` is declared in editor_inspector.h, which is not part of this model, so the capacity is a parameter of the registry. Inspector drawing, layout and widget wiring are left out.
- macOS export: zip and unzip, codesign, hdiutil, directory copying and image resizing are file-system and tool calls, so they are left out. The icon images are given as channel data.
- OsxExport.MakeIcon: the read-back promise holds for the corrected encoder. The encoder as written gives the same bytes only on channels where no run reaches its scan limit (`AsWrittenAgrees`); elsewhere it loses bytes, as the findings below show.
- OsxExport.RgbEntryDecodes: stated for the corrected encoder. It holds as written under the same condition as `MakeIcon`.
- OsCore: the clock and the sleep of `add_frame_delay` are parameters.
- GradleExport: the helpers that write files and the manifest tags other than the screen-size, XR and activity tags are left out.
- PluginConfig: reading the config file, the file-existence and modification-time queries, and the path helpers of `String` are parameters.
- PluginConfig.ResolveLocalDependencyPath only states the empty-path case, because path joining and simplification are parameters.
- `get_prebuilt_plugins` returns an empty list in this version, because its only entry is commented out. `PluginConfig.ResolvePrebuiltPlugin` models the resolution it would apply.
- Engine: `get_version_info` entries other than the hash and the version string are left out.
- StringBuffer: `as_double` and `as_int` are left out, because they parse floats.
- Logger: file I/O, `vsnprintf` formatting and `rotate_file` are left out. The directory listing is a parameter. The files to delete are returned instead of deleted.
- EditorRun: the process launch is a parameter. Printing the command line is left out.
- EditorRun.EditorRun.Run: the window position uses the float display scale (`DisplayScale`), not the truncating `int` of the source. The difference is listed under Findings and stated in `DisplayScaleAsWrittenDiffers`.
- DependencyEditor: the tree widgets and the file-system scan are left out. Resource files and their dependencies are given as maps.
- DependencyEditor.DependencyRemoveDialog.Show: the recursion of `_find_files_in_removed_folder` is given as the list of directories it visits. The error message of `ERR_FAIL_COND` is not modelled. The contract requires `FileSystem`: each file lies in one directory, once, as in the editor's file system.
- World: culling by the octree is a parameter that maps each camera to the notifiers it sees. The 64-bit `pass` counter is unbounded.
- Csg: a shape's parent is fixed at construction. Vertex, UV and normal generation and mesh building are floating-point numerics, so they are left out; only the face counts are modelled. Setters that only store a value and mark the shape dirty are modelled for the primitives listed in the table.
- Csg.CsgPolygon.BuildFaces requires a mode other than path, because the path mode's face count depends on the path's curve, which is not modelled.
- Layers: bit positions are below 32, and masks are naturals below 2^32.
- Ray: the physics space's ray query is a parameter. The debug shape, gizmo and colour are left out.
- SoftBody: the Bullet soft-body creation calls and the stiffness, damping and other setters are left out. Node positions are not modelled.
- SoftBody.SoftBodyBullet.SetTrimeshBodyShape requires every index to be in range, which the source does not check.
- SpriteFrames: the undo/redo actions are applied at once. Drawing, and the frame buttons other than sheet selection and select/clear-all, are left out. So are animated sprites that follow a rename. The click position is given in whole pixels.
- Bvh: the methods that use `calculate_size`, planes, convex shapes or segments are left out, because they are floating-point numerics. `grow` is exact here.
- Collada: the `Vector3` and `Color` orders are parameters. The sort of `fix_weights` is a parameter: any heaviest-first order of the same weights. Float rounding in the rescaling is not modelled.
- MonoOs: the process handling of `RunProcess` and `ExecuteCommand` is left out. `Path.Combine`, the file and executable tests and the environment variables are parameters. Case-insensitive comparison covers ASCII letters only. `IsX` properties other than the platform tests are left out.
- MonoOs.CmdLineRoundTrip: the reader it is stated against splits on spaces and double quotes only. The .NET and Windows rules also read backslashes before a double quote as escapes, so under them an argument that holds a space and ends in `\` does not come back; that case is not modelled.
- GodotRid: `GC.SuppressFinalize` and `ToString` are left out. The native constructor behind `RID(Object)` is a parameter.

## Findings

| source | as written | input that shows it | evidently intended | confidence | as-written member | corrected member |
|---|---|---|---|---|---|---|
| export/platform/osx/export/export.cpp:212-216 | when the scan reaches `lim` without a differing byte, `lim + 1` bytes are consumed but the header `lim - 3 + 0x80` announces only `lim` | four equal bytes encode as `[0x80, x]`, which decodes to three bytes | the header of a run announces every byte the run consumed | not executed | OsxExport.AsWrittenDropsByte | OsxExport.EncodeRoundTrip |
| export/platform/osx/export/export.cpp:200-216 | with three bytes left, `lim` is 2 and the run header `lim - 3 + 0x80` is 0x7F, which is a literal header | three equal bytes `[x, x, x]` encode as `[0x7F, x]`, which announces 128 literal bytes | a run at the end of the channel decodes back to its bytes | not executed | OsxExport.AsWrittenTailRunMisread | OsxExport.PackBitsEncode |
| export/core/string_buffer.h:125-127 | `reserve` returns at once for any size below the short-buffer size, even when a smaller heap buffer is current | one character, `reserve(64)`, `as_string`, then two more characters: the second is written past the heap buffer | `reserve` compares with the capacity of the current buffer | not executed | StringBuffer.AppendOverrunsAfterAsString | StringBuffer.ReserveCorrected |
| export/editor/editor_inspector.cpp:1335-1336 | after the shift, slot `idx` is cleared instead of the last slot | plugins `[1, 2]`; removing 1 leaves the slots `[2, 2]` | the last slot is cleared | not executed | Inspector.RemoveAsWrittenLeavesStaleSlot | Inspector.PluginRegistry.RemoveInspectorPlugin |
| export/editor/editor_run.cpp:116-125 | the display scale is stored in an `int`, so both `max_scale` (line 121) and `1.f / max_scale` (line 125) are truncated | a non-hiDPI editor, a hiDPI project and a screen scale of 2 give 0 instead of 0.5; a hiDPI editor, a non-hiDPI project and a scale of 1.5 give 1 instead of 1.5 | the scale is a float | not executed | EditorRun.DisplayScaleTruncatesToZero | EditorRun.DisplayScale |
| export/editor/plugins/sprite_frames_editor_plugin.cpp:555 | after a rename, `edited_anim` is set to the sanitized name, not to the unique name actually used | renaming "a" to "b" while "b" exists stores "b 1", but the editor goes on to edit "b" | the editor edits the renamed animation | not executed | SpriteFrames.RenameAsWrittenEditsOther | SpriteFrames.RenameKeepsEditing |
