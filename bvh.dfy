/**
 * The axis-aligned box of the BVH (core/math/bvh_abb.h). A box keeps its
 * minimum corner and the negated maximum corner, so that both bounds are
 * tested with "less than" and merged with "minimum".
 *
 * Coordinates are exact reals. Merging and the tests only take minima and
 * compare, so they round nothing; `grow` subtracts, and its float rounding
 * is not modelled.
 */
module Bvh {
  import opened Geometry

  /** `FLT_MAX`, the largest finite single-precision float. */
  const FltMax: real := 340282346638528859811704183484516925440.0

  function Neg(v: Vector3): Vector3
  {
    Vector3(-v.x, -v.y, -v.z)
  }

  function Add(a: Vector3, b: Vector3): Vector3
  {
    Vector3(a.x + b.x, a.y + b.y, a.z + b.z)
  }

  function Sub(a: Vector3, b: Vector3): Vector3
  {
    Vector3(a.x - b.x, a.y - b.y, a.z - b.z)
  }

  /** `MIN(a, b)`: `a < b ? a : b`. */
  function Min(a: real, b: real): (r: real)
    ensures r <= a && r <= b && (r == a || r == b)
  {
    if a < b then a else b
  }

  function MinV(a: Vector3, b: Vector3): Vector3
  {
    Vector3(Min(a.x, b.x), Min(a.y, b.y), Min(a.z, b.z))
  }

  /** `_vector3_any_lessthan`. */
  predicate AnyLessThan(a: Vector3, b: Vector3)
  {
    a.x < b.x || a.y < b.y || a.z < b.z
  }

  /** `_vector3_any_morethan`. */
  predicate AnyMoreThan(a: Vector3, b: Vector3)
  {
    a.x > b.x || a.y > b.y || a.z > b.z
  }

  /** Componentwise `a <= b`. */
  predicate LeAll(a: Vector3, b: Vector3)
  {
    a.x <= b.x && a.y <= b.y && a.z <= b.z
  }

  /** A box: the minimum corner and the negated maximum corner. */
  datatype Abb = Abb(min: Vector3, negMax: Vector3)
  {
    /** The maximum corner. */
    function Max(): Vector3
    {
      Neg(negMax)
    }

    /** Every coordinate lies within plus or minus `FLT_MAX`. */
    predicate Finite()
    {
      && -FltMax <= min.x <= FltMax && -FltMax <= min.y <= FltMax && -FltMax <= min.z <= FltMax
      && -FltMax <= negMax.x <= FltMax && -FltMax <= negMax.y <= FltMax && -FltMax <= negMax.z <= FltMax
    }
  }

  /** `inner` lies inside `outer`, bound by bound. */
  predicate Encloses(outer: Abb, inner: Abb)
  {
    LeAll(outer.min, inner.min) && LeAll(inner.Max(), outer.Max())
  }

  /** A box whose minimum does not exceed its maximum on any axis. */
  predicate Proper(a: Abb)
  {
    LeAll(a.min, a.Max())
  }

  /** `set(min, max)`: the maximum comes back exactly from the stored negation. */
  function Bounds(mn: Vector3, mx: Vector3): (b: Abb)
    ensures b.min == mn && b.Max() == mx
  {
    Abb(mn, Neg(mx))
  }

  /** `from(aabb)`: the box from `position` to `position + size`. */
  function FromAabb(position: Vector3, size: Vector3): (b: Abb)
    ensures b.min == position && b.Max() == Add(position, size)
  {
    Abb(position, Neg(Add(position, size)))
  }

  /** `merge`: the smallest box enclosing both. */
  function Merged(a: Abb, o: Abb): (r: Abb)
    ensures Encloses(r, a) && Encloses(r, o)
    ensures forall c :: Encloses(c, a) && Encloses(c, o) ==> Encloses(c, r)
  {
    Abb(MinV(a.min, o.min), MinV(a.negMax, o.negMax))
  }

  lemma MergeCommutes(a: Abb, o: Abb)
    ensures Merged(a, o) == Merged(o, a)
  {
  }

  lemma MergeIdempotent(a: Abb)
    ensures Merged(a, a) == a
  {
  }

  lemma MergeAssociates(a: Abb, b: Abb, c: Abb)
    ensures Merged(Merged(a, b), c) == Merged(a, Merged(b, c))
  {
  }

  /** `set_to_max_opposite_extents`: both stored vectors at `FLT_MAX`, a box inside out. */
  const Empty: Abb := Abb(Vector3(FltMax, FltMax, FltMax), Vector3(FltMax, FltMax, FltMax))

  /** Merging into the inside-out box gives the other box, when its coordinates are finite floats. */
  lemma MergeEmpty(b: Abb)
    requires b.Finite()
    ensures Merged(Empty, b) == b
  {
  }

  /** `intersects_point`: the point is not past the maximum on any axis, nor below the minimum. */
  predicate IntersectsPoint(a: Abb, p: Vector3)
  {
    !AnyLessThan(Neg(p), a.negMax) && !AnyLessThan(p, a.min)
  }

  /** The negated test is the plain one: the point lies between the corners. */
  lemma IntersectsPointBetween(a: Abb, p: Vector3)
    ensures IntersectsPoint(a, p) <==> LeAll(a.min, p) && LeAll(p, a.Max())
  {
  }

  /** `intersects`: neither box starts past the other's end on any axis. */
  predicate Intersects(a: Abb, o: Abb)
  {
    !AnyMoreThan(o.min, a.Max()) && !AnyMoreThan(a.min, o.Max())
  }

  lemma IntersectsSymmetric(a: Abb, o: Abb)
    ensures Intersects(a, o) == Intersects(o, a)
  {
  }

  /** Two proper boxes intersect exactly when some point lies in both. */
  lemma IntersectsCommonPoint(a: Abb, o: Abb)
    requires Proper(a) && Proper(o)
    ensures Intersects(a, o) <==> exists p :: IntersectsPoint(a, p) && IntersectsPoint(o, p)
  {
    if Intersects(a, o) {
      var p := Vector3(if a.min.x < o.min.x then o.min.x else a.min.x,
                       if a.min.y < o.min.y then o.min.y else a.min.y,
                       if a.min.z < o.min.z then o.min.z else a.min.z);
      assert IntersectsPoint(a, p) && IntersectsPoint(o, p);
    }
    if exists p :: IntersectsPoint(a, p) && IntersectsPoint(o, p) {
      var p :| IntersectsPoint(a, p) && IntersectsPoint(o, p);
      IntersectsPointBetween(a, p);
      IntersectsPointBetween(o, p);
    }
  }

  /** `is_other_within`: neither bound of `o` lies outside the matching bound of `a`. */
  predicate IsOtherWithin(a: Abb, o: Abb)
  {
    !AnyLessThan(o.negMax, a.negMax) && !AnyLessThan(o.min, a.min)
  }

  /** Containment is enclosure, and every point of the inner box is a point of the outer one. */
  lemma IsOtherWithinEncloses(a: Abb, o: Abb)
    ensures IsOtherWithin(a, o) <==> Encloses(a, o)
    ensures IsOtherWithin(a, o) ==> forall p :: IntersectsPoint(o, p) ==> IntersectsPoint(a, p)
  {
  }

  /** `grow(change)`: the minimum moves down and the maximum up by `change`. */
  function Grown(a: Abb, change: Vector3): (r: Abb)
    ensures r.min == Sub(a.min, change) && r.Max() == Add(a.Max(), change)
  {
    Abb(Sub(a.min, change), Sub(a.negMax, change))
  }

  /** Growing by a non-negative change gives a box the original lies within. */
  lemma GrowEncloses(a: Abb, change: Vector3)
    requires LeAll(Vector3(0.0, 0.0, 0.0), change)
    ensures IsOtherWithin(Grown(a, change), a)
  {
  }

  /** Growing by a change and then by its negation restores the box. */
  lemma GrowUndo(a: Abb, change: Vector3)
    ensures Grown(Grown(a, change), Neg(change)) == a
  {
  }

  /** A `BVH_ABB` held in place, as the tree's nodes hold theirs. */
  class BvhAbb {
    var min: Vector3
    var negMax: Vector3

    function Box(): Abb
      reads this
    {
      Abb(min, negMax)
    }

    constructor (b: Abb)
      ensures Box() == b
    {
      min := b.min;
      negMax := b.negMax;
    }

    /** `set`. */
    method Set(mn: Vector3, mx: Vector3)
      modifies this
      ensures Box() == Bounds(mn, mx)
    {
      min := mn;
      negMax := Neg(mx);
    }

    /** `from`. */
    method From(position: Vector3, size: Vector3)
      modifies this
      ensures Box() == FromAabb(position, size)
    {
      min := position;
      negMax := Neg(Add(position, size));
    }

    /** `merge`: each stored coordinate takes the smaller of the two. */
    method Merge(o: Abb)
      modifies this
      ensures Box() == Merged(old(Box()), o)
    {
      negMax := Vector3(Min(negMax.x, o.negMax.x), Min(negMax.y, o.negMax.y), Min(negMax.z, o.negMax.z));
      min := Vector3(Min(min.x, o.min.x), Min(min.y, o.min.y), Min(min.z, o.min.z));
    }

    /** `grow`. */
    method Grow(change: Vector3)
      modifies this
      ensures Box() == Grown(old(Box()), change)
    {
      negMax := Sub(negMax, change);
      min := Sub(min, change);
    }

    /** `expand`: `grow` by the same amount on every axis. */
    method Expand(change: real)
      modifies this
      ensures Box() == Grown(old(Box()), Vector3(change, change, change))
    {
      Grow(Vector3(change, change, change));
    }

    /** `set_to_max_opposite_extents`. */
    method SetToMaxOppositeExtents()
      modifies this
      ensures Box() == Empty
    {
      negMax := Vector3(FltMax, FltMax, FltMax);
      min := negMax;
    }
  }
}
