/**
 * The `SpatialIndexer` of scene/resources/world.cpp: the registry of
 * visibility notifiers and cameras, and the per-frame pass that tells each
 * notifier which cameras it entered or left.
 *
 * Notifiers and cameras are identified by number. The octree is not
 * modelled: what its convex cull returns for a camera's frustum is a
 * parameter, and the model keeps the first `CullMax` of those as the octree
 * does when it fills the cull buffer. The `_enter_camera` and `_exit_camera`
 * callbacks are returned as the notifiers entered and left, per camera.
 */
module World {
  import opened Geometry

  type NotifierId = nat
  type CameraId = nat

  /** An `AABB`, compared only for equality here. */
  datatype Aabb = Aabb(position: Vector3, size: Vector3)

  /** `VISIBILITY_CULL_MAX`, the size of the cull buffer. */
  const CullMax: nat := 32768

  /** The notifiers the octree reports for a camera: at most a buffer's worth. */
  function Visible(cull: seq<NotifierId>): (v: seq<NotifierId>)
    ensures |v| <= CullMax
    ensures |cull| <= CullMax ==> v == cull
    ensures forall k :: 0 <= k < |v| ==> v[k] == cull[k]
  {
    if |cull| <= CullMax then cull else cull[..CullMax]
  }

  /** The set of notifiers in a camera's frustum. */
  function Culled(cull: seq<NotifierId>): set<NotifierId>
  {
    set n | n in Visible(cull)
  }

  predicate NoDuplicates(s: seq<NotifierId>)
  {
    forall i, j :: 0 <= i < j < |s| ==> s[i] != s[j]
  }

  /** For each camera, the notifiers it saw, stamped with the pass in which it last saw them. */
  type CameraMap = map<CameraId, map<NotifierId, nat>>

  /** Every stamp is at most `pass`. */
  ghost predicate StampsAtMost(cameras: CameraMap, pass: nat)
  {
    forall c, n :: c in cameras && n in cameras[c] ==> cameras[c][n] <= pass
  }

  // ---- One camera's pass ----

  /**
   * The body of `_update`'s camera loop, after `pass` was incremented: the
   * notifiers in the frustum are stamped with the pass, those new to the
   * camera are entered in cull order, and those left with an older stamp
   * are erased and exited. Afterwards the camera sees exactly the culled set.
   */
  method CullCamera(seen: map<NotifierId, nat>, culled: seq<NotifierId>, pass: nat)
    returns (r: map<NotifierId, nat>, added: seq<NotifierId>, removed: set<NotifierId>)
    requires forall n :: n in seen ==> seen[n] < pass
    ensures forall n :: n in r <==> n in culled
    ensures forall n :: n in r ==> r[n] == pass
    ensures forall n :: n in added <==> n in culled && n !in seen
    ensures NoDuplicates(added)
    ensures forall n :: n in removed <==> n in seen && n !in culled
  {
    var m := seen;
    added := [];
    var i := 0;
    while i < |culled|
      invariant i <= |culled| && StampedSoFar(seen, culled, i, pass, m, added)
    {
      StampStep(seen, culled, i, pass, m, added);
      var n := culled[i];
      if n !in m {
        added := added + [n];
      }
      m := m[n := pass];
      i := i + 1;
    }
    assert culled[..i] == culled;
    removed := {};
    var todo := m.Keys;
    while todo != {}
      invariant todo <= m.Keys
      invariant forall n :: n in removed <==> n in m && n !in todo && m[n] != pass
      decreases |todo|
    {
      var n :| n in todo;
      if m[n] != pass {
        removed := removed + {n};
      }
      todo := todo - {n};
    }
    r := m - removed;
  }

  /** What the cull loop has built after the first `i` culled notifiers. */
  ghost predicate StampedSoFar(seen: map<NotifierId, nat>, culled: seq<NotifierId>, i: nat, pass: nat,
                               m: map<NotifierId, nat>, added: seq<NotifierId>)
    requires i <= |culled|
  {
    && (forall n :: n in seen ==> seen[n] < pass)
    && (forall n :: n in m <==> n in seen || n in culled[..i])
    && (forall n :: n in m ==> m[n] == if n in culled[..i] then pass else seen[n])
    && (forall n :: n in added <==> n in culled[..i] && n !in seen)
    && NoDuplicates(added)
  }

  lemma StampStep(seen: map<NotifierId, nat>, culled: seq<NotifierId>, i: nat, pass: nat,
                  m: map<NotifierId, nat>, added: seq<NotifierId>)
    requires i < |culled| && StampedSoFar(seen, culled, i, pass, m, added)
    ensures var n := culled[i];
      StampedSoFar(seen, culled, i + 1, pass, m[n := pass], if n in m then added else added + [n])
  {
    var n := culled[i];
    assert culled[..i + 1] == culled[..i] + [n];
    if n !in m {
      var added' := added + [n];
      forall a, b | 0 <= a < b < |added'| ensures added'[a] != added'[b] {
        if b == |added| {
          assert added[a] in added;
        }
      }
    }
  }

  // ---- The cameras' pass ----

  /**
   * One camera's outcome of a pass numbered above `pass` and at most
   * `newPass`: it sees exactly the culled notifiers, stamped in that range;
   * the new ones are entered, once each, and the others it saw are exited.
   */
  ghost predicate CameraCulled(before: map<NotifierId, nat>, cull: seq<NotifierId>, pass: nat, newPass: nat,
                               after: map<NotifierId, nat>, added: seq<NotifierId>, removed: set<NotifierId>)
  {
    && after.Keys == Culled(cull)
    && (forall n :: n in after ==> pass < after[n] <= newPass)
    && NoDuplicates(added)
    && (forall n :: n in added <==> n in Culled(cull) && n !in before)
    && removed == before.Keys - Culled(cull)
  }

  /** The outcome of `_update`'s camera loop over every camera. */
  ghost predicate PassDone(cameras: CameraMap, cull: CameraId -> seq<NotifierId>, pass: nat,
                           r: CameraMap, newPass: nat, entered: map<CameraId, seq<NotifierId>>,
                           exited: map<CameraId, set<NotifierId>>)
  {
    && newPass == pass + |cameras|
    && r.Keys == cameras.Keys && entered.Keys == cameras.Keys && exited.Keys == cameras.Keys
    && (forall c :: c in cameras ==> CameraCulled(cameras[c], cull(c), pass, newPass, r[c], entered[c], exited[c]))
  }

  /**
   * The camera loop of `_update`: every camera gets its own pass number,
   * one more than the previous, and is culled as `CullCamera` says.
   */
  method UpdateCameras(cameras: CameraMap, cull: CameraId -> seq<NotifierId>, pass: nat)
    returns (r: CameraMap, newPass: nat, entered: map<CameraId, seq<NotifierId>>, exited: map<CameraId, set<NotifierId>>)
    requires StampsAtMost(cameras, pass)
    ensures PassDone(cameras, cull, pass, r, newPass, entered, exited)
    ensures StampsAtMost(r, newPass)
  {
    r, newPass, entered, exited := cameras, pass, map[], map[];
    var todo := cameras.Keys;
    while todo != {}
      invariant CamerasSoFar(cameras, cull, pass, todo, r, newPass, entered, exited)
      decreases |todo|
    {
      var c :| c in todo;
      r, newPass, entered, exited := CullNextCamera(cameras, cull, pass, todo, r, newPass, entered, exited, c);
      todo := todo - {c};
    }
    CamerasDone(cameras, cull, pass, r, newPass, entered, exited);
  }

  /** One turn of the camera loop: camera `c` gets the next pass number and is culled. */
  method CullNextCamera(cameras: CameraMap, cull: CameraId -> seq<NotifierId>, pass: nat, todo: set<CameraId>,
                        r: CameraMap, newPass: nat, entered: map<CameraId, seq<NotifierId>>,
                        exited: map<CameraId, set<NotifierId>>, c: CameraId)
    returns (r': CameraMap, newPass': nat, entered': map<CameraId, seq<NotifierId>>, exited': map<CameraId, set<NotifierId>>)
    requires CamerasSoFar(cameras, cull, pass, todo, r, newPass, entered, exited) && c in todo
    ensures CamerasSoFar(cameras, cull, pass, todo - {c}, r', newPass', entered', exited')
  {
    TodoStamps(cameras, cull, pass, todo, r, newPass, entered, exited, c);
    var seen, added, removed := CullCamera(r[c], Visible(cull(c)), newPass + 1);
    CamerasStep(cameras, cull, pass, todo, r, newPass, entered, exited, c, seen, added, removed);
    r', newPass', entered', exited' := r[c := seen], newPass + 1, entered[c := added], exited[c := removed];
  }

  /** The cameras done so far are culled; the others are as they were. */
  ghost predicate CamerasSoFar(cameras: CameraMap, cull: CameraId -> seq<NotifierId>, pass: nat, todo: set<CameraId>,
                               r: CameraMap, newPass: nat, entered: map<CameraId, seq<NotifierId>>,
                               exited: map<CameraId, set<NotifierId>>)
  {
    && CamerasShape(cameras, pass, todo, r, newPass, entered, exited)
    && (forall c :: c in cameras && c !in todo ==>
          CameraCulled(cameras[c], cull(c), pass, newPass, r[c], entered[c], exited[c]))
  }

  /** Which cameras have results, and how many passes were numbered. */
  ghost predicate CamerasShape(cameras: CameraMap, pass: nat, todo: set<CameraId>,
                               r: CameraMap, newPass: nat, entered: map<CameraId, seq<NotifierId>>,
                               exited: map<CameraId, set<NotifierId>>)
  {
    && StampsAtMost(cameras, pass)
    && todo <= cameras.Keys
    && pass <= newPass && newPass + |todo| == pass + |cameras|
    && r.Keys == cameras.Keys
    && entered.Keys == cameras.Keys - todo && exited.Keys == cameras.Keys - todo
    && (forall c :: c in todo ==> r[c] == cameras[c])
  }

  /** A camera still to do has only stamps from before the pass. */
  lemma TodoStamps(cameras: CameraMap, cull: CameraId -> seq<NotifierId>, pass: nat, todo: set<CameraId>,
                   r: CameraMap, newPass: nat, entered: map<CameraId, seq<NotifierId>>,
                   exited: map<CameraId, set<NotifierId>>, c: CameraId)
    requires CamerasSoFar(cameras, cull, pass, todo, r, newPass, entered, exited) && c in todo
    ensures c in r && forall n :: n in r[c] ==> r[c][n] < newPass + 1
  {
  }

  lemma CameraCulledLater(before: map<NotifierId, nat>, cull: seq<NotifierId>, pass: nat, newPass: nat,
                          after: map<NotifierId, nat>, added: seq<NotifierId>, removed: set<NotifierId>)
    requires CameraCulled(before, cull, pass, newPass, after, added, removed)
    ensures CameraCulled(before, cull, pass, newPass + 1, after, added, removed)
  {
  }

  lemma CamerasStep(cameras: CameraMap, cull: CameraId -> seq<NotifierId>, pass: nat, todo: set<CameraId>,
                    r: CameraMap, newPass: nat, entered: map<CameraId, seq<NotifierId>>,
                    exited: map<CameraId, set<NotifierId>>,
                    c: CameraId, seen: map<NotifierId, nat>, added: seq<NotifierId>, removed: set<NotifierId>)
    requires CamerasSoFar(cameras, cull, pass, todo, r, newPass, entered, exited) && c in todo
    requires forall n :: n in seen <==> n in Visible(cull(c))
    requires forall n :: n in seen ==> seen[n] == newPass + 1
    requires NoDuplicates(added) && forall n :: n in added <==> n in Visible(cull(c)) && n !in r[c]
    requires forall n :: n in removed <==> n in r[c] && n !in Visible(cull(c))
    ensures CamerasSoFar(cameras, cull, pass, todo - {c}, r[c := seen], newPass + 1,
                         entered[c := added], exited[c := removed])
  {
    CamerasShapeStep(cameras, pass, todo, r, newPass, entered, exited, c, seen, added, removed);
    assert CameraCulled(cameras[c], cull(c), pass, newPass + 1, seen, added, removed) by {
      assert seen.Keys == Culled(cull(c));
      assert r[c] == cameras[c];
    }
    var r', entered', exited' := r[c := seen], entered[c := added], exited[c := removed];
    forall d | d in cameras && d !in todo - {c}
      ensures CameraCulled(cameras[d], cull(d), pass, newPass + 1, r'[d], entered'[d], exited'[d])
    {
      if d != c {
        CameraCulledLater(cameras[d], cull(d), pass, newPass, r[d], entered[d], exited[d]);
      }
    }
  }

  lemma CamerasShapeStep(cameras: CameraMap, pass: nat, todo: set<CameraId>,
                         r: CameraMap, newPass: nat, entered: map<CameraId, seq<NotifierId>>,
                         exited: map<CameraId, set<NotifierId>>,
                         c: CameraId, seen: map<NotifierId, nat>, added: seq<NotifierId>, removed: set<NotifierId>)
    requires CamerasShape(cameras, pass, todo, r, newPass, entered, exited) && c in todo
    ensures CamerasShape(cameras, pass, todo - {c}, r[c := seen], newPass + 1, entered[c := added], exited[c := removed])
  {
    var done := cameras.Keys - todo;
    KeysStep(cameras.Keys, todo, entered, c, added);
    KeysStep(cameras.Keys, todo, exited, c, removed);
  }

  /** Marking one more key done. */
  lemma KeysStep<T>(all: set<CameraId>, todo: set<CameraId>, m: map<CameraId, T>, c: CameraId, v: T)
    requires todo <= all && c in todo && m.Keys == all - todo
    ensures m[c := v].Keys == all - (todo - {c})
  {
  }

  lemma CamerasDone(cameras: CameraMap, cull: CameraId -> seq<NotifierId>, pass: nat,
                    r: CameraMap, newPass: nat, entered: map<CameraId, seq<NotifierId>>,
                    exited: map<CameraId, set<NotifierId>>)
    requires CamerasSoFar(cameras, cull, pass, {}, r, newPass, entered, exited)
    ensures PassDone(cameras, cull, pass, r, newPass, entered, exited)
    ensures StampsAtMost(r, newPass)
  {
    assert cameras.Keys - {} == cameras.Keys;
    forall c, n | c in r && n in r[c] ensures r[c][n] <= newPass {
      assert CameraCulled(cameras[c], cull(c), pass, newPass, r[c], entered[c], exited[c]);
    }
  }

  /**
   * With the frustums unchanged, a second pass reports no enter and no exit,
   * and every camera keeps seeing the same notifiers.
   */
  lemma SecondPassQuiet(cameras: CameraMap, cull: CameraId -> seq<NotifierId>, pass: nat,
                        r: CameraMap, newPass: nat, entered: map<CameraId, seq<NotifierId>>,
                        exited: map<CameraId, set<NotifierId>>,
                        r2: CameraMap, pass2: nat, entered2: map<CameraId, seq<NotifierId>>,
                        exited2: map<CameraId, set<NotifierId>>)
    requires PassDone(cameras, cull, pass, r, newPass, entered, exited)
    requires PassDone(r, cull, newPass, r2, pass2, entered2, exited2)
    ensures r2.Keys == r.Keys && forall c :: c in r2 ==> r2[c].Keys == r[c].Keys
    ensures forall c :: c in entered2 ==> entered2[c] == [] && exited2[c] == {}
  {
    forall c | c in entered2 ensures entered2[c] == [] && exited2[c] == {} {
      assert CameraCulled(cameras[c], cull(c), pass, newPass, r[c], entered[c], exited[c]);
      assert CameraCulled(r[c], cull(c), newPass, pass2, r2[c], entered2[c], exited2[c]);
      NonEmptyHasMember(entered2[c]);
    }
  }

  /** A non-empty list has a member. */
  lemma NonEmptyHasMember(s: seq<NotifierId>)
    ensures s != [] ==> s[0] in s
  {
  }

  // ---- Removing a notifier ----

  /** The camera loop of `_notifier_remove`: the notifier leaves every camera, and those that saw it are reported. */
  method RemoveFromCameras(cameras: CameraMap, n: NotifierId) returns (r: CameraMap, removed: set<CameraId>)
    ensures r.Keys == cameras.Keys
    ensures forall c :: c in r ==> r[c] == cameras[c] - {n}
    ensures forall c :: c in removed <==> c in cameras && n in cameras[c]
  {
    r, removed := cameras, {};
    var todo := cameras.Keys;
    while todo != {}
      invariant RemovedSoFar(cameras, n, todo, r, removed)
      decreases |todo|
    {
      var c :| c in todo;
      var r', removed' := r, removed;
      if n in r[c] {
        r', removed' := r[c := r[c] - {n}], removed + {c};
      }
      RemoveStep(cameras, n, todo, r, removed, c, r', removed');
      r, removed, todo := r', removed', todo - {c};
    }
  }

  /** The cameras done so far have forgotten `n`, and those that saw it are reported. */
  ghost predicate RemovedSoFar(cameras: CameraMap, n: NotifierId, todo: set<CameraId>, r: CameraMap, removed: set<CameraId>)
  {
    && todo <= cameras.Keys && r.Keys == cameras.Keys
    && (forall c :: c in r ==> r[c] == if c in todo then cameras[c] else cameras[c] - {n})
    && (forall c :: c in removed <==> c in cameras && c !in todo && n in cameras[c])
  }

  lemma RemoveStep(cameras: CameraMap, n: NotifierId, todo: set<CameraId>, r: CameraMap, removed: set<CameraId>,
                   c: CameraId, r': CameraMap, removed': set<CameraId>)
    requires RemovedSoFar(cameras, n, todo, r, removed) && c in todo
    requires n in r[c] ==> r' == r[c := r[c] - {n}] && removed' == removed + {c}
    requires n !in r[c] ==> r' == r && removed' == removed
    ensures RemovedSoFar(cameras, n, todo - {c}, r', removed')
  {
    assert r[c] == cameras[c];
    if n !in r[c] {
      assert cameras[c] - {n} == cameras[c];
    }
  }

  class SpatialIndexer {
    var notifiers: map<NotifierId, Aabb>
    var cameras: CameraMap
    var changed: bool
    var pass: nat
    var lastFrame: nat

    ghost predicate Valid()
      reads this
    {
      StampsAtMost(cameras, pass)
    }

    /** `SpatialIndexer()`: nothing registered, pass and frame 0, unchanged. */
    constructor ()
      ensures Valid()
      ensures notifiers == map[] && cameras == map[]
      ensures pass == 0 && lastFrame == 0 && !changed
    {
      notifiers := map[];
      cameras := map[];
      changed := false;
      pass := 0;
      lastFrame := 0;
    }

    /** `_notifier_add`: a notifier already registered is refused and nothing changes. */
    method NotifierAdd(n: NotifierId, rect: Aabb) returns (ok: bool)
      requires Valid()
      modifies this
      ensures Valid()
      ensures ok <==> n !in old(notifiers)
      ensures !ok ==> notifiers == old(notifiers) && changed == old(changed)
      ensures ok ==> notifiers == old(notifiers)[n := rect] && changed
      ensures cameras == old(cameras) && pass == old(pass) && lastFrame == old(lastFrame)
    {
      if n in notifiers {
        return false;
      }
      notifiers := notifiers[n := rect];
      changed := true;
      ok := true;
    }

    /** `_notifier_update`: an unknown notifier is refused; an unmoved one changes nothing. */
    method NotifierUpdate(n: NotifierId, rect: Aabb) returns (ok: bool)
      requires Valid()
      modifies this
      ensures Valid()
      ensures ok <==> n in old(notifiers)
      ensures !ok || old(notifiers)[n] == rect ==> notifiers == old(notifiers) && changed == old(changed)
      ensures ok && old(notifiers)[n] != rect ==> notifiers == old(notifiers)[n := rect] && changed
      ensures cameras == old(cameras) && pass == old(pass) && lastFrame == old(lastFrame)
    {
      if n !in notifiers {
        return false;
      }
      ok := true;
      if notifiers[n] == rect {
        return;
      }
      notifiers := notifiers[n := rect];
      changed := true;
    }

    /**
     * `_notifier_remove`: an unknown notifier is refused; otherwise it is
     * unregistered, every camera forgets it, and exactly the cameras that
     * saw it get an exit.
     */
    method NotifierRemove(n: NotifierId) returns (ok: bool, exits: set<CameraId>)
      requires Valid()
      modifies this
      ensures Valid()
      ensures ok <==> n in old(notifiers)
      ensures !ok ==> notifiers == old(notifiers) && cameras == old(cameras) && changed == old(changed) && exits == {}
      ensures ok ==> notifiers == old(notifiers) - {n} && changed
      ensures ok ==> cameras.Keys == old(cameras).Keys && forall c :: c in cameras ==> cameras[c] == old(cameras)[c] - {n}
      ensures ok ==> forall c :: c in exits <==> c in old(cameras) && n in old(cameras)[c]
      ensures pass == old(pass) && lastFrame == old(lastFrame)
    {
      exits := {};
      if n !in notifiers {
        return false, {};
      }
      notifiers := notifiers - {n};
      var r, removed := RemoveFromCameras(cameras, n);
      cameras := r;
      exits := removed;
      changed := true;
      ok := true;
    }

    /** `_add_camera`: a camera already registered is refused; a new one has seen nothing. */
    method AddCamera(c: CameraId) returns (ok: bool)
      requires Valid()
      modifies this
      ensures Valid()
      ensures ok <==> c !in old(cameras)
      ensures !ok ==> cameras == old(cameras) && changed == old(changed)
      ensures ok ==> cameras == old(cameras)[c := map[]] && changed
      ensures notifiers == old(notifiers) && pass == old(pass) && lastFrame == old(lastFrame)
    {
      if c in cameras {
        return false;
      }
      cameras := cameras[c := map[]];
      changed := true;
      ok := true;
    }

    /** `_update_camera`: an unknown camera is refused; a known one marks the index changed. */
    method UpdateCamera(c: CameraId) returns (ok: bool)
      requires Valid()
      modifies this`changed
      ensures Valid()
      ensures ok <==> c in cameras
      ensures changed == (ok || old(changed))
    {
      if c !in cameras {
        return false;
      }
      changed := true;
      ok := true;
    }

    /**
     * `_remove_camera`: an unknown camera is refused; otherwise every
     * notifier it saw gets an exit and the camera is erased. The index is
     * not marked changed.
     */
    method RemoveCamera(c: CameraId) returns (ok: bool, exits: set<NotifierId>)
      requires Valid()
      modifies this`cameras
      ensures Valid()
      ensures ok <==> c in old(cameras)
      ensures !ok ==> cameras == old(cameras) && exits == {}
      ensures ok ==> cameras == old(cameras) - {c} && exits == old(cameras)[c].Keys
    {
      if c !in cameras {
        return false, {};
      }
      exits := cameras[c].Keys;
      cameras := cameras - {c};
      ok := true;
    }

    /**
     * `_update`: nothing happens for the frame already handled, nor when
     * nothing changed since the last pass. Otherwise every camera now sees
     * exactly the notifiers in its frustum, the new ones entered and the
     * others exited, and the index is no longer marked changed.
     */
    method Update(frame: nat, cull: CameraId -> seq<NotifierId>)
      returns (entered: map<CameraId, seq<NotifierId>>, exited: map<CameraId, set<NotifierId>>)
      requires Valid()
      modifies this`cameras, this`pass, this`changed, this`lastFrame
      ensures Valid()
      ensures lastFrame == frame
      ensures frame == old(lastFrame) || !old(changed) ==>
        cameras == old(cameras) && pass == old(pass) && changed == old(changed) && entered == map[] && exited == map[]
      ensures frame != old(lastFrame) && old(changed) ==>
        !changed && PassDone(old(cameras), cull, old(pass), cameras, pass, entered, exited)
    {
      entered, exited := map[], map[];
      if frame == lastFrame {
        return;
      }
      lastFrame := frame;
      if !changed {
        return;
      }
      var r, newPass, e, x := UpdateCameras(cameras, cull, pass);
      assert PassDone(old(cameras), cull, old(pass), r, newPass, e, x);
      cameras, pass, entered, exited := r, newPass, e, x;
      changed := false;
    }
  }
}
