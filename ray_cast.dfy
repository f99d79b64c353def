/**
 * The `RayCast` node of scene/3d/ray_cast.cpp: its collision mask, the
 * switch that enables it, the set of bodies it ignores, and the result
 * fields that each physics frame's ray query overwrites.
 *
 * The physics space is not modelled. Whether the node has a world with a
 * direct space state, its global origin and transform, and the space's
 * `intersect_ray` are parameters of the query; `ObjectDB::get_instance` is
 * a parameter of `get_collider`. An object is seen only as far as the ray
 * cast looks at it: whether it is a `CollisionObject`, and its RID.
 * Gizmo and debug-shape updates are left out.
 */
module Ray {
  import opened Wrappers
  import opened Layers
  import opened Geometry

  type Rid = nat
  type ObjectId = nat

  datatype Object = Object(isCollisionObject: bool, rid: Rid)

  /** What `intersect_ray` reports for a hit. */
  datatype RayResult = RayResult(colliderId: ObjectId, position: Vector3, normal: Vector3, shape: int)

  /** `intersect_ray(from, to, exclude, mask, bodies, areas)`: a hit or none. */
  type RayQuery = (Vector3, Vector3, set<Rid>, Word, bool, bool) -> Option<RayResult>

  /** The target `_update_raycast_state` casts to: a zero `cast_to` becomes (0, 0.01, 0), so the ray is never empty. */
  function Target(castTo: Vector3): (to: Vector3)
    ensures castTo != Zero ==> to == castTo
    ensures castTo == Zero ==> to == Vector3(0.0, 0.01, 0.0)
    ensures to != Zero
  {
    if castTo == Zero then Vector3(0.0, 0.01, 0.0) else castTo
  }

  class RayCast {
    var enabled: bool
    var collided: bool
    var against: ObjectId
    var againstShape: int
    var collisionPoint: Vector3
    var collisionNormal: Vector3
    var collisionMask: Word
    var castTo: Vector3
    var exclude: set<Rid>
    var excludeParentBody: bool
    var collideWithAreas: bool
    var collideWithBodies: bool
    var insideTree: bool
    /** Whether internal physics processing is on (`set_physics_process_internal`). */
    var physicsProcessing: bool
    /** The parent's RID when the parent is a `CollisionObject`. */
    var parentBody: Option<Rid>
    /** `Engine::is_editor_hint`. */
    const editorHint: bool

    constructor (editor: bool)
      ensures editorHint == editor
      ensures !enabled && !collided && against == 0 && againstShape == 0
      ensures collisionMask == 1 && castTo == Vector3(0.0, -1.0, 0.0)
      ensures collisionPoint == Zero && collisionNormal == Zero
      ensures exclude == {} && excludeParentBody && !collideWithAreas && collideWithBodies
      ensures !insideTree && !physicsProcessing && parentBody == None
    {
      editorHint := editor;
      enabled := false;
      collided := false;
      against := 0;
      againstShape := 0;
      collisionPoint := Zero;
      collisionNormal := Zero;
      collisionMask := 1;
      castTo := Vector3(0.0, -1.0, 0.0);
      exclude := {};
      excludeParentBody := true;
      collideWithAreas := false;
      collideWithBodies := true;
      insideTree := false;
      physicsProcessing := false;
      parentBody := None;
    }

    /** `set_cast_to`. */
    method SetCastTo(point: Vector3)
      modifies this`castTo
      ensures castTo == point
    {
      castTo := point;
    }

    /** `set_collision_mask`. */
    method SetCollisionMask(mask: Word)
      modifies this`collisionMask
      ensures collisionMask == mask
    {
      collisionMask := mask;
    }

    /** `set_collision_mask_bit`: only bit `bit` of the mask changes, to `value`. */
    method SetCollisionMaskBit(bit: nat, value: bool)
      requires bit < Width
      modifies this`collisionMask
      ensures GetCollisionMaskBit(bit) == value
      ensures forall k :: 0 <= k < Width && k != bit ==> GetCollisionMaskBit(k) == old(GetCollisionMaskBit(k))
    {
      var mask := SetBit(collisionMask, bit, value);
      forall k | 0 <= k < Width
        ensures GetBit(mask, k) == if k == bit then value else GetBit(collisionMask, k)
      {
        GetAfterSet(collisionMask, bit, value, k);
      }
      SetCollisionMask(mask);
    }

    /** `get_collision_mask_bit`. */
    predicate GetCollisionMaskBit(bit: nat)
      requires bit < Width
      reads this
    {
      GetBit(collisionMask, bit)
    }

    /** `get_collider`: no object while nothing was hit, else what the object database holds for the collider's id. */
    function GetCollider(instances: ObjectId -> Option<Object>): (r: Option<Object>)
      reads this
      ensures against == 0 ==> r == None
      ensures against != 0 ==> r == instances(against)
    {
      if against == 0 then None else instances(against)
    }

    /**
     * `set_enabled`: inside the tree and outside the editor, physics
     * processing follows the switch; disabling forgets the last hit.
     */
    method SetEnabled(e: bool)
      modifies this`enabled, this`physicsProcessing, this`collided
      ensures enabled == e
      ensures physicsProcessing == if insideTree && !editorHint then e else old(physicsProcessing)
      ensures collided == (e && old(collided))
    {
      enabled := e;
      if insideTree && !editorHint {
        physicsProcessing := e;
      }
      if !e {
        collided := false;
      }
    }

    /**
     * `set_exclude_parent_body`: nothing happens when the flag is unchanged;
     * outside the tree only the flag changes; inside it, a parent body's RID
     * is added to or removed from the exceptions with the flag.
     */
    method SetExcludeParentBody(flag: bool)
      modifies this`excludeParentBody, this`exclude
      ensures excludeParentBody == flag
      ensures flag == old(excludeParentBody) || !insideTree || parentBody.None? ==> exclude == old(exclude)
      ensures flag != old(excludeParentBody) && insideTree && parentBody.Some? ==>
        exclude == if flag then old(exclude) + {parentBody.value} else old(exclude) - {parentBody.value}
    {
      if excludeParentBody == flag {
        return;
      }
      excludeParentBody := flag;
      if !insideTree {
        return;
      }
      if parentBody.Some? {
        if excludeParentBody {
          exclude := exclude + {parentBody.value};
        } else {
          exclude := exclude - {parentBody.value};
        }
      }
    }

    /**
     * `NOTIFICATION_ENTER_TREE` under a parent whose body RID is `parent`
     * when it is a `CollisionObject`: physics processing is on exactly when
     * enabled outside the editor, and the parent body is excluded or not as
     * the flag says.
     */
    method EnterTree(parent: Option<Rid>)
      modifies this`insideTree, this`parentBody, this`physicsProcessing, this`exclude
      ensures insideTree && parentBody == parent
      ensures physicsProcessing == (enabled && !editorHint)
      ensures parent.None? ==> exclude == old(exclude)
      ensures parent.Some? ==>
        exclude == if excludeParentBody then old(exclude) + {parent.value} else old(exclude) - {parent.value}
    {
      insideTree := true;
      parentBody := parent;
      physicsProcessing := enabled && !editorHint;
      if parentBody.Some? {
        if excludeParentBody {
          exclude := exclude + {parentBody.value};
        } else {
          exclude := exclude - {parentBody.value};
        }
      }
    }

    /** `NOTIFICATION_EXIT_TREE`: an enabled ray stops processing. */
    method ExitTree()
      modifies this`insideTree, this`physicsProcessing
      ensures !insideTree
      ensures physicsProcessing == (!old(enabled) && old(physicsProcessing))
    {
      if enabled {
        physicsProcessing := false;
      }
      insideTree := false;
    }

    /** What the space reports for this ray: from the global origin to the transformed `Target(cast_to)`, skipping the exceptions and filtered by the mask. */
    function Cast(origin: Vector3, xform: Vector3 -> Vector3, intersect: RayQuery): Option<RayResult>
      reads this
    {
      intersect(origin, xform(Target(castTo)), exclude, collisionMask, collideWithBodies, collideWithAreas)
    }

    /** The result fields as a hit `hit` leaves them, or a miss when `hit` is none. */
    twostate predicate Recorded(new hit: Option<RayResult>)
      reads this
    {
      && collided == hit.Some?
      && (hit.Some? ==>
            && against == hit.value.colliderId && collisionPoint == hit.value.position
            && collisionNormal == hit.value.normal && againstShape == hit.value.shape)
      && (hit.None? ==>
            && against == 0 && againstShape == 0
            && collisionPoint == old(collisionPoint) && collisionNormal == old(collisionNormal))
    }

    /**
     * `_update_raycast_state` (and `force_raycast_update`): without a space
     * nothing changes. Otherwise a hit records the collider, point, normal
     * and shape, and a miss clears the collider and shape and keeps the old
     * point and normal.
     */
    method UpdateRaycastState(hasSpace: bool, origin: Vector3, xform: Vector3 -> Vector3, intersect: RayQuery)
      modifies this`collided, this`against, this`againstShape, this`collisionPoint, this`collisionNormal
      ensures !hasSpace ==> unchanged(this)
      ensures hasSpace ==> Recorded(old(Cast(origin, xform, intersect)))
    {
      if !hasSpace {
        return;
      }
      var rr := Cast(origin, xform, intersect);
      if rr.Some? {
        RecordHit(rr.value);
      } else {
        RecordMiss();
      }
    }

    /** A hit: the collider, point, normal and shape are recorded. */
    method RecordHit(hit: RayResult)
      modifies this`collided, this`against, this`againstShape, this`collisionPoint, this`collisionNormal
      ensures collided && against == hit.colliderId && againstShape == hit.shape
      ensures collisionPoint == hit.position && collisionNormal == hit.normal
    {
      collided := true;
      against := hit.colliderId;
      collisionPoint := hit.position;
      collisionNormal := hit.normal;
      againstShape := hit.shape;
    }

    /** A miss: the collider and shape are cleared; the point and normal stay. */
    method RecordMiss()
      modifies this`collided, this`against, this`againstShape
      ensures !collided && against == 0 && againstShape == 0
    {
      collided := false;
      against := 0;
      againstShape := 0;
    }

    /** `NOTIFICATION_INTERNAL_PHYSICS_PROCESS`: a disabled ray does nothing, an enabled one updates its state. */
    method PhysicsProcess(hasSpace: bool, origin: Vector3, xform: Vector3 -> Vector3, intersect: RayQuery)
      modifies this`collided, this`against, this`againstShape, this`collisionPoint, this`collisionNormal
      ensures !enabled || !hasSpace ==> unchanged(this)
      ensures enabled && hasSpace ==> Recorded(old(Cast(origin, xform, intersect)))
    {
      if !enabled {
        return;
      }
      UpdateRaycastState(hasSpace, origin, xform, intersect);
    }

    /** `add_exception_rid`. */
    method AddExceptionRid(rid: Rid)
      modifies this`exclude
      ensures exclude == old(exclude) + {rid}
    {
      exclude := exclude + {rid};
    }

    /** `add_exception`: a null object or one that is not a `CollisionObject` is ignored. */
    method AddException(obj: Option<Object>)
      modifies this`exclude
      ensures obj.Some? && obj.value.isCollisionObject ==> exclude == old(exclude) + {obj.value.rid}
      ensures !(obj.Some? && obj.value.isCollisionObject) ==> exclude == old(exclude)
    {
      if obj.None? {
        return;
      }
      if !obj.value.isCollisionObject {
        return;
      }
      AddExceptionRid(obj.value.rid);
    }

    /** `remove_exception_rid`. */
    method RemoveExceptionRid(rid: Rid)
      modifies this`exclude
      ensures exclude == old(exclude) - {rid}
    {
      exclude := exclude - {rid};
    }

    /** `remove_exception`: a null object or one that is not a `CollisionObject` is ignored. */
    method RemoveException(obj: Option<Object>)
      modifies this`exclude
      ensures obj.Some? && obj.value.isCollisionObject ==> exclude == old(exclude) - {obj.value.rid}
      ensures !(obj.Some? && obj.value.isCollisionObject) ==> exclude == old(exclude)
    {
      if obj.None? {
        return;
      }
      if !obj.value.isCollisionObject {
        return;
      }
      RemoveExceptionRid(obj.value.rid);
    }

    /** `clear_exceptions`. */
    method ClearExceptions()
      modifies this`exclude
      ensures exclude == {}
    {
      exclude := {};
    }

    /** `set_collide_with_areas`. */
    method SetCollideWithAreas(areas: bool)
      modifies this`collideWithAreas
      ensures collideWithAreas == areas
    {
      collideWithAreas := areas;
    }

    /** `set_collide_with_bodies`. */
    method SetCollideWithBodies(bodies: bool)
      modifies this`collideWithBodies
      ensures collideWithBodies == bodies
    {
      collideWithBodies := bodies;
    }
  }
}
