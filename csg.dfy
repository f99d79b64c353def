/**
 * CSG nodes of modules/csg/csg_shape.cpp: the collision settings of a shape,
 * the dirty flag that `_make_dirty` raises along the chain of CSG parents
 * (the root queues one deferred `_update_shape`), the primitives' setters
 * with their rejections and clamps, and the loops of the primitives'
 * `_build_brush` that count the faces they write.
 *
 * A shape's CSG parent is fixed when the shape is made; the physics-server
 * calls behind the root's collision body are reduced to whether the body
 * exists. Each primitive owns the `CsgShape` that holds its dirty flag.
 * Float fields are reals.
 */
module Csg {
  import opened Layers

  class CsgShape {
    const parent: CsgShape?
    /** The CSG parents above this shape, nearest first. */
    ghost const ancestors: seq<CsgShape>

    var insideTree: bool
    var dirty: bool
    var useCollision: bool
    /** Whether `root_collision_instance` holds a physics body. */
    var hasBody: bool
    var collisionLayer: Word
    var collisionMask: Word

    /** The parent links form a finite chain without cycles. */
    ghost predicate Valid()
      decreases |ancestors|
    {
      && this !in ancestors
      && (parent == null ==> ancestors == [])
      && (parent != null ==>
            && ancestors != []
            && ancestors[0] == parent
            && parent.ancestors == ancestors[1..]
            && parent.Valid())
    }

    /** This shape and its CSG parents, up to the root. */
    ghost function Chain(): seq<CsgShape>
    {
      [this] + ancestors
    }

    ghost function Root(): CsgShape
    {
      Chain()[|ancestors|]
    }

    /** How many shapes of the chain, from this one up, are inside the tree before the first one that is not. */
    ghost function Reach(): (n: nat)
      requires Valid()
      reads this, ancestors
      ensures n <= |Chain()|
      decreases |ancestors|
    {
      if !insideTree then 0
      else if parent == null then 1
      else 1 + parent.Reach()
    }

    /** Inside the scene tree a shape's parents are inside it too. */
    ghost predicate TreeClosed()
      requires Valid()
      reads this, ancestors
      decreases |ancestors|
    {
      insideTree && parent != null ==> parent.insideTree && parent.TreeClosed()
    }

    /** After `_make_dirty`: every shape it reached is dirty, the others are as they were. */
    twostate predicate DirtyRaised()
      requires Valid()
      reads this, ancestors
    {
      forall k :: 0 <= k < |Chain()| ==> Chain()[k].dirty == (k < old(Reach()) || old(Chain()[k].dirty))
    }

    /** The root, when reached, queues `_update_shape` exactly when it was clean. */
    twostate predicate RootQueued(queued: bool)
      requires Valid()
      reads this, ancestors
    {
      queued <==> old(Reach()) == |Chain()| && !old(Root().dirty)
    }

    /** No field of the chain other than `dirty` changed. */
    twostate predicate OthersKept()
      reads this, ancestors
    {
      forall a :: a in Chain() ==>
        && a.insideTree == old(a.insideTree)
        && a.useCollision == old(a.useCollision)
        && a.hasBody == old(a.hasBody)
        && a.collisionLayer == old(a.collisionLayer)
        && a.collisionMask == old(a.collisionMask)
    }

    /** What `_make_dirty` does. */
    twostate predicate MadeDirty(queued: bool)
      requires Valid()
      reads this, ancestors
    {
      DirtyRaised() && RootQueued(queued) && OthersKept()
    }

    constructor (p: CsgShape?)
      requires p != null ==> p.Valid()
      ensures Valid() && parent == p
      ensures !insideTree && !dirty && !useCollision && !hasBody
      ensures collisionLayer == 1 && collisionMask == 1
    {
      parent := p;
      ancestors := if p == null then [] else [p] + p.ancestors;
      insideTree := false;
      dirty := false;
      useCollision := false;
      hasBody := false;
      collisionLayer := 1;
      collisionMask := 1;
    }

    /** `_make_dirty`: returns whether the root queued `_update_shape`. */
    method MakeDirty() returns (queued: bool)
      requires Valid()
      modifies this, ancestors
      ensures DirtyRaised()
      ensures RootQueued(queued)
      ensures OthersKept()
      decreases |ancestors|
    {
      if !insideTree {
        return false;
      }
      if parent != null {
        ghost var before := Chain();
        assert before[1..] == parent.Chain();
        queued := parent.MakeDirty();
        dirty := true;
        forall k | 1 <= k < |before|
          ensures before[k].dirty == (k < old(Reach()) || old(before[k].dirty))
        {
          assert before[k] == parent.Chain()[k - 1];
        }
        return;
      } else {
        queued := !dirty;
      }
      dirty := true;
    }

    /**
     * `set_use_collision`: nothing happens when the value is unchanged. A
     * root inside the tree creates its collision body on enabling, then
     * marks itself dirty, and frees the body on disabling; any other shape
     * only records the flag.
     */
    method SetUseCollision(enable: bool) returns (queued: bool)
      requires Valid()
      modifies this
      ensures enable == old(useCollision) ==> !queued && unchanged(this)
      ensures enable != old(useCollision) ==>
        && useCollision == enable
        && insideTree == old(insideTree)
        && collisionLayer == old(collisionLayer) && collisionMask == old(collisionMask)
      ensures enable != old(useCollision) && old(insideTree) && parent == null ==>
        && hasBody == enable
        && (enable ==> dirty && (queued <==> !old(dirty)))
        && (!enable ==> !queued && dirty == old(dirty))
      ensures enable != old(useCollision) && !(old(insideTree) && parent == null) ==>
        !queued && hasBody == old(hasBody) && dirty == old(dirty)
    {
      queued := false;
      if useCollision == enable {
        return;
      }
      useCollision := enable;
      if !insideTree || parent != null {
        return;
      }
      if useCollision {
        hasBody := true;
        queued := MakeDirty();
      } else {
        hasBody := false;
      }
    }

    /** `set_collision_layer`; the body, when there is one, gets the same layer. */
    method SetCollisionLayer(layer: Word)
      modifies this`collisionLayer
      ensures collisionLayer == layer
    {
      collisionLayer := layer;
    }

    /** `set_collision_mask`; the body, when there is one, gets the same mask. */
    method SetCollisionMask(mask: Word)
      modifies this`collisionMask
      ensures collisionMask == mask
    {
      collisionMask := mask;
    }

    /** `set_collision_layer_bit`: only bit `bit` of the layer changes, to `value`. */
    method SetCollisionLayerBit(bit: nat, value: bool)
      requires bit < Width
      modifies this`collisionLayer
      ensures GetCollisionLayerBit(bit) == value
      ensures forall k :: 0 <= k < Width && k != bit ==> GetCollisionLayerBit(k) == old(GetCollisionLayerBit(k))
    {
      var layer := SetBit(collisionLayer, bit, value);
      forall k | 0 <= k < Width
        ensures GetBit(layer, k) == if k == bit then value else GetBit(collisionLayer, k)
      {
        GetAfterSet(collisionLayer, bit, value, k);
      }
      SetCollisionLayer(layer);
    }

    /** `get_collision_layer_bit`. */
    predicate GetCollisionLayerBit(bit: nat)
      requires bit < Width
      reads this
    {
      GetBit(collisionLayer, bit)
    }

    /** `set_collision_mask_bit`: only bit `bit` of the mask changes, to `value`. */
    method SetCollisionMaskBit(bit: nat, value: bool)
      requires bit < Width
      modifies this`collisionMask
      ensures GetCollisionMaskBit(bit) == value
      ensures forall k :: 0 <= k < Width && k != bit ==> GetCollisionMaskBit(k) == old(GetCollisionMaskBit(k))
    {
      var mask := SetBit(collisionMask, bit, value);
      forall k | 0 <= k < Width
        ensures GetBit(mask, k) == if k == bit then value else GetBit(collisionMask, k)
      {
        GetAfterSet(collisionMask, bit, value, k);
      }
      SetCollisionMask(mask);
    }

    /** `get_collision_mask_bit`. */
    predicate GetCollisionMaskBit(bit: nat)
      requires bit < Width
      reads this
    {
      GetBit(collisionMask, bit)
    }
  }

  /** In a closed tree, a shape inside the tree reaches its whole chain. */
  lemma {:induction false} ReachWholeChain(s: CsgShape)
    requires s.Valid() && s.TreeClosed() && s.insideTree
    ensures s.Reach() == |s.Chain()|
    decreases |s.ancestors|
  {
    if s.parent != null {
      ReachWholeChain(s.parent);
    }
  }

  // ---- Primitives ----

  datatype Point2 = Point2(x: real, y: real)

  class CsgSphere {
    const shape: CsgShape
    var radius: real
    var radialSegments: int
    var rings: int

    ghost predicate Valid()
      reads this
    {
      shape.Valid() && radius > 0.0 && radialSegments >= 4 && rings >= 1
    }

    constructor (s: CsgShape)
      requires s.Valid()
      ensures shape == s && Valid()
      ensures radius == 1.0 && radialSegments == 12 && rings == 6
    {
      shape := s;
      radius := 1.0;
      radialSegments := 12;
      rings := 6;
    }

    /** `set_radius`: a radius of zero or less is refused and changes nothing. */
    method SetRadius(r: real) returns (queued: bool)
      requires Valid()
      modifies this`radius, shape, shape.ancestors
      ensures Valid()
      ensures r <= 0.0 ==> radius == old(radius) && !queued && unchanged(shape.Chain())
      ensures r > 0.0 ==> radius == r && shape.MadeDirty(queued)
    {
      if r <= 0.0 {
        return false;
      }
      radius := r;
      queued := shape.MakeDirty();
    }

    /** `set_radial_segments`: fewer than 4 segments become 4. */
    method SetRadialSegments(n: int) returns (queued: bool)
      requires Valid()
      modifies this`radialSegments, shape, shape.ancestors
      ensures Valid()
      ensures radialSegments >= 4 && (n >= 4 ==> radialSegments == n) && (n < 4 ==> radialSegments == 4)
      ensures shape.MadeDirty(queued)
    {
      radialSegments := if n > 4 then n else 4;
      queued := shape.MakeDirty();
    }

    /** `set_rings`: fewer than 1 ring becomes 1. */
    method SetRings(n: int) returns (queued: bool)
      requires Valid()
      modifies this`rings, shape, shape.ancestors
      ensures Valid()
      ensures rings >= 1 && (n >= 1 ==> rings == n) && (n < 1 ==> rings == 1)
      ensures shape.MadeDirty(queued)
    {
      rings := if n > 1 then n else 1;
      queued := shape.MakeDirty();
    }

    /**
     * The face loops of `_build_brush`: every ring has one face per segment
     * below the top ring and one above the bottom ring, so the counter ends
     * at `face_count` and every write stays inside the arrays.
     */
    method BuildFaces() returns (faceCount: int, face: nat)
      requires Valid()
      ensures faceCount == 2 * radialSegments * (rings - 1)
      ensures face == faceCount
    {
      faceCount := rings * radialSegments * 2 - radialSegments * 2;
      face := 0;
      var i := 1;
      while i <= rings
        invariant 1 <= i <= rings + 1
        invariant face == radialSegments * ((if i - 1 < rings then i - 1 else rings - 1) + (if i >= 2 then i - 2 else 0))
      {
        var perSegment := (if i < rings then 1 else 0) + (if i > 1 then 1 else 0);
        var j := radialSegments;
        while j >= 1
          invariant 0 <= j <= radialSegments
          invariant face == radialSegments * ((if i - 1 < rings then i - 1 else rings - 1) + (if i >= 2 then i - 2 else 0))
                            + (radialSegments - j) * perSegment
        {
          if i < rings {
            face := face + 1;
          }
          if i > 1 {
            face := face + 1;
          }
          j := j - 1;
        }
        i := i + 1;
      }
    }
  }

  class CsgBox {
    const shape: CsgShape
    var width: real
    var height: real
    var depth: real

    constructor (s: CsgShape)
      ensures shape == s
      ensures width == 2.0 && height == 2.0 && depth == 2.0
    {
      shape := s;
      width := 2.0;
      height := 2.0;
      depth := 2.0;
    }

    /** The face loop of `_build_brush`: two faces for each of the six sides, `face_count` 12. */
    method BuildFaces() returns (faceCount: int, face: nat)
      ensures faceCount == 12 && face == faceCount
    {
      faceCount := 12;
      face := 0;
      var i := 0;
      while i < 6
        invariant 0 <= i <= 6 && face == 2 * i
      {
        face := face + 1;
        face := face + 1;
        i := i + 1;
      }
    }
  }

  class CsgCylinder {
    const shape: CsgShape
    var radius: real
    var height: real
    var sides: int
    var cone: bool

    ghost predicate Valid()
      reads this
    {
      shape.Valid() && sides >= 3
    }

    constructor (s: CsgShape)
      requires s.Valid()
      ensures shape == s && Valid()
      ensures radius == 1.0 && height == 1.0 && sides == 8 && !cone
    {
      shape := s;
      radius := 1.0;
      height := 1.0;
      sides := 8;
      cone := false;
    }

    /** `set_sides`: fewer than 3 sides are refused and change nothing. */
    method SetSides(n: int) returns (queued: bool)
      requires Valid()
      modifies this`sides, shape, shape.ancestors
      ensures Valid()
      ensures n < 3 ==> sides == old(sides) && !queued && unchanged(shape.Chain())
      ensures n >= 3 ==> sides == n && shape.MadeDirty(queued)
    {
      if n < 3 {
        return false;
      }
      sides := n;
      queued := shape.MakeDirty();
    }

    /** `set_cone`. */
    method SetCone(c: bool) returns (queued: bool)
      requires Valid()
      modifies this`cone, shape, shape.ancestors
      ensures Valid()
      ensures cone == c && shape.MadeDirty(queued)
    {
      cone := c;
      queued := shape.MakeDirty();
    }

    /**
     * The face loop of `_build_brush`: per side one face around, one more
     * unless a cone, one cap face and one more cap unless a cone; the
     * counter ends at `face_count`, four faces per side, two for a cone.
     */
    method BuildFaces() returns (faceCount: int, face: nat)
      requires Valid()
      ensures faceCount == (if cone then 2 else 4) * sides
      ensures face == faceCount
    {
      faceCount := sides * (if cone then 1 else 2) + sides + (if cone then 0 else sides);
      var perSide := if cone then 2 else 4;
      face := 0;
      var i := 0;
      while i < sides
        invariant 0 <= i <= sides && face == perSide * i
      {
        face := face + 1;
        if !cone {
          face := face + 1;
        }
        face := face + 1;
        if !cone {
          face := face + 1;
        }
        i := i + 1;
      }
    }
  }

  class CsgTorus {
    const shape: CsgShape
    var innerRadius: real
    var outerRadius: real
    var sides: int
    var ringSides: int

    ghost predicate Valid()
      reads this
    {
      shape.Valid() && sides >= 3 && ringSides >= 3
    }

    constructor (s: CsgShape)
      requires s.Valid()
      ensures shape == s && Valid()
      ensures innerRadius == 2.0 && outerRadius == 3.0 && sides == 8 && ringSides == 6
    {
      shape := s;
      innerRadius := 2.0;
      outerRadius := 3.0;
      sides := 8;
      ringSides := 6;
    }

    /** `set_inner_radius`: any value is taken. */
    method SetInnerRadius(r: real) returns (queued: bool)
      requires Valid()
      modifies this`innerRadius, shape, shape.ancestors
      ensures Valid()
      ensures innerRadius == r && shape.MadeDirty(queued)
    {
      innerRadius := r;
      queued := shape.MakeDirty();
    }

    /** `set_outer_radius`: any value is taken. */
    method SetOuterRadius(r: real) returns (queued: bool)
      requires Valid()
      modifies this`outerRadius, shape, shape.ancestors
      ensures Valid()
      ensures outerRadius == r && shape.MadeDirty(queued)
    {
      outerRadius := r;
      queued := shape.MakeDirty();
    }

    /** `set_sides`: fewer than 3 sides are refused and change nothing. */
    method SetSides(n: int) returns (queued: bool)
      requires Valid()
      modifies this`sides, shape, shape.ancestors
      ensures Valid()
      ensures n < 3 ==> sides == old(sides) && !queued && unchanged(shape.Chain())
      ensures n >= 3 ==> sides == n && shape.MadeDirty(queued)
    {
      if n < 3 {
        return false;
      }
      sides := n;
      queued := shape.MakeDirty();
    }

    /** `set_ring_sides`: fewer than 3 ring sides are refused and change nothing. */
    method SetRingSides(n: int) returns (queued: bool)
      requires Valid()
      modifies this`ringSides, shape, shape.ancestors
      ensures Valid()
      ensures n < 3 ==> ringSides == old(ringSides) && !queued && unchanged(shape.Chain())
      ensures n >= 3 ==> ringSides == n && shape.MadeDirty(queued)
    {
      if n < 3 {
        return false;
      }
      ringSides := n;
      queued := shape.MakeDirty();
    }

    /**
     * `_build_brush`: equal radii give an empty brush; otherwise the loops
     * write two faces per side and ring side, ending at `face_count`.
     */
    method BuildFaces() returns (built: bool, faceCount: int, face: nat)
      requires Valid()
      ensures built <==> innerRadius != outerRadius
      ensures !built ==> face == 0
      ensures built ==> faceCount == 2 * sides * ringSides && face == faceCount
    {
      if innerRadius == outerRadius {
        return false, 0, 0;
      }
      built := true;
      faceCount := ringSides * sides * 2;
      face := 0;
      var i := 0;
      while i < sides
        invariant 0 <= i <= sides && face == 2 * ringSides * i
      {
        var j := 0;
        while j < ringSides
          invariant 0 <= j <= ringSides && face == 2 * ringSides * i + 2 * j
        {
          face := face + 1;
          face := face + 1;
          j := j + 1;
        }
        i := i + 1;
      }
    }
  }

  datatype Mode = Depth | Spin | Path

  class CsgPolygon {
    const shape: CsgShape
    var polygon: seq<Point2>
    var mode: Mode
    var depth: real
    var spinDegrees: real
    var spinSides: int
    var pathInterval: real

    ghost predicate Valid()
      reads this
    {
      && shape.Valid()
      && depth >= 0.001
      && 0.01 <= spinDegrees <= 360.0
      && spinSides >= 3
      && pathInterval >= 0.001
    }

    constructor (s: CsgShape)
      requires s.Valid()
      ensures shape == s && Valid()
      ensures polygon == [Point2(0.0, 0.0), Point2(0.0, 1.0), Point2(1.0, 1.0), Point2(1.0, 0.0)]
      ensures mode == Depth && depth == 1.0 && spinDegrees == 360.0 && spinSides == 8 && pathInterval == 1.0
    {
      shape := s;
      polygon := [Point2(0.0, 0.0), Point2(0.0, 1.0), Point2(1.0, 1.0), Point2(1.0, 0.0)];
      mode := Depth;
      depth := 1.0;
      spinDegrees := 360.0;
      spinSides := 8;
      pathInterval := 1.0;
    }

    /** `set_polygon`: any outline is taken. */
    method SetPolygon(p: seq<Point2>) returns (queued: bool)
      requires Valid()
      modifies this`polygon, shape, shape.ancestors
      ensures Valid()
      ensures polygon == p && shape.MadeDirty(queued)
    {
      polygon := p;
      queued := shape.MakeDirty();
    }

    /** `set_mode`: any mode is taken. */
    method SetMode(m: Mode) returns (queued: bool)
      requires Valid()
      modifies this`mode, shape, shape.ancestors
      ensures Valid()
      ensures mode == m && shape.MadeDirty(queued)
    {
      mode := m;
      queued := shape.MakeDirty();
    }

    /** `set_depth`: a depth below 0.001 is refused and changes nothing. */
    method SetDepth(d: real) returns (queued: bool)
      requires Valid()
      modifies this`depth, shape, shape.ancestors
      ensures Valid()
      ensures d < 0.001 ==> depth == old(depth) && !queued && unchanged(shape.Chain())
      ensures d >= 0.001 ==> depth == d && shape.MadeDirty(queued)
    {
      if d < 0.001 {
        return false;
      }
      depth := d;
      queued := shape.MakeDirty();
    }

    /** `set_spin_degrees`: an angle outside [0.01, 360] is refused and changes nothing. */
    method SetSpinDegrees(degrees: real) returns (queued: bool)
      requires Valid()
      modifies this`spinDegrees, shape, shape.ancestors
      ensures Valid()
      ensures (degrees < 0.01 || degrees > 360.0) ==> spinDegrees == old(spinDegrees) && !queued && unchanged(shape.Chain())
      ensures 0.01 <= degrees <= 360.0 ==> spinDegrees == degrees && shape.MadeDirty(queued)
    {
      if degrees < 0.01 || degrees > 360.0 {
        return false;
      }
      spinDegrees := degrees;
      queued := shape.MakeDirty();
    }

    /** `set_spin_sides`: fewer than 3 sides are refused and change nothing. */
    method SetSpinSides(n: int) returns (queued: bool)
      requires Valid()
      modifies this`spinSides, shape, shape.ancestors
      ensures Valid()
      ensures n < 3 ==> spinSides == old(spinSides) && !queued && unchanged(shape.Chain())
      ensures n >= 3 ==> spinSides == n && shape.MadeDirty(queued)
    {
      if n < 3 {
        return false;
      }
      spinSides := n;
      queued := shape.MakeDirty();
    }

    /** `set_path_interval`: an interval below 0.001 is refused and changes nothing. */
    method SetPathInterval(interval: real) returns (queued: bool)
      requires Valid()
      modifies this`pathInterval, shape, shape.ancestors
      ensures Valid()
      ensures interval < 0.001 ==> pathInterval == old(pathInterval) && !queued && unchanged(shape.Chain())
      ensures interval >= 0.001 ==> pathInterval == interval && shape.MadeDirty(queued)
    {
      if interval < 0.001 {
        return false;
      }
      pathInterval := interval;
      queued := shape.MakeDirty();
    }

    /**
     * `_build_brush` in depth and spin mode, given the triangulation of the
     * outline (`triangles`, three indices per triangle). An outline of fewer
     * than 3 points or fewer than 3 indices gives an empty brush. Otherwise
     * the loops write a front and a back cap of one face per triangle and
     * two faces per outline edge (depth), or two faces per edge and spin
     * step plus both caps when the spin is short of a full turn (spin); the
     * counter ends at `face_count`.
     */
    method BuildFaces(triangles: seq<int>) returns (built: bool, faceCount: int, face: nat)
      requires Valid() && mode != Path
      requires |triangles| % 3 == 0
      ensures built <==> |polygon| >= 3 && |triangles| >= 3
      ensures !built ==> face == 0
      ensures built && mode == Depth ==> faceCount == 2 * (|triangles| / 3) + 2 * |polygon|
      ensures built && mode == Spin ==>
        faceCount == (if spinDegrees < 360.0 then 2 * (|triangles| / 3) else 0) + 2 * |polygon| * spinSides
      ensures built ==> face == faceCount
    {
      if |polygon| < 3 || |triangles| < 3 {
        return false, 0, 0;
      }
      built := true;
      var t := |triangles|;
      var p := |polygon|;
      if mode == Depth {
        faceCount := t * 2 / 3 + p * 2;
        face := DepthFaces(t, p);
      } else {
        faceCount := (if spinDegrees < 360.0 then t * 2 / 3 else 0) + p * 2 * spinSides;
        face := SpinFaces(t, p, spinSides, spinDegrees < 360.0);
      }
    }
  }

  /** The loops over one cap's triangles, three indices at a time: one face per triangle. */
  method CapFaces(t: nat, face0: nat) returns (face: nat)
    requires t % 3 == 0
    ensures face == face0 + t / 3
  {
    face := face0;
    var j := 0;
    while j < t
      invariant 0 <= j <= t && j % 3 == 0
      invariant face == face0 + j / 3
    {
      face := face + 1;
      j := j + 3;
    }
  }

  /** The depth-mode loops: both caps, then two faces per outline point. */
  method DepthFaces(t: nat, p: nat) returns (face: nat)
    requires t % 3 == 0
    ensures face == 2 * (t / 3) + 2 * p
  {
    face := 0;
    var i := 0;
    while i < 2
      invariant 0 <= i <= 2 && face == i * (t / 3)
    {
      face := CapFaces(t, face);
      i := i + 1;
    }
    i := 0;
    while i < p
      invariant 0 <= i <= p && face == 2 * (t / 3) + 2 * i
    {
      face := face + 1;
      face := face + 1;
      i := i + 1;
    }
  }

  /** The spin-mode loops: two faces per outline point and step, the caps after the first and the last step when `partial`. */
  method SpinFaces(t: nat, p: nat, steps: nat, partial: bool) returns (face: nat)
    requires t % 3 == 0 && steps >= 1
    ensures face == (if partial then 2 * (t / 3) else 0) + 2 * p * steps
  {
    face := 0;
    var i := 0;
    while i < steps
      invariant 0 <= i <= steps
      invariant face == 2 * p * i + (if partial && i >= 1 then t / 3 else 0) + (if partial && i >= steps then t / 3 else 0)
    {
      var j := 0;
      while j < p
        invariant 0 <= j <= p
        invariant face == 2 * p * i + 2 * j + (if partial && i >= 1 then t / 3 else 0)
      {
        face := face + 1;
        face := face + 1;
        j := j + 1;
      }
      if i == 0 && partial {
        face := CapFaces(t, face);
      }
      if i == steps - 1 && partial {
        face := CapFaces(t, face);
      }
      i := i + 1;
    }
  }
}
