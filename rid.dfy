/**
 * The C# `RID` wrapper (modules/mono/glue/GodotSharp/GodotSharp/Core/RID.cs):
 * a handle on a native RID that is released at most once, either by
 * `Dispose` or by the finaliser, and that refuses to hand out its pointer
 * once disposed.
 *
 * The native side is seen only through the pointers handed to its
 * destructor, kept in `destroyed`. The garbage collector's choice of when
 * to run the finaliser is left to the caller: `Finalize` may be called at
 * any point, before or after `Dispose`.
 */
module GodotRid {
  import opened Wrappers

  /** The exceptions `GetPtr` throws. */
  datatype RidError = NullReference | ObjectDisposed

  class Rid {
    var disposed: bool
    var ptr: int
    /** The pointers passed to the native destructor, oldest first. */
    var destroyed: seq<int>
    /** The native pointer the handle was created with. */
    ghost const native: int

    /**
     * Before disposal the handle holds its native pointer and nothing was
     * released; after it the pointer is zero and the native pointer was
     * released exactly when it was not zero.
     */
    ghost predicate Valid()
      reads this
    {
      && (!disposed ==> ptr == native && destroyed == [])
      && (disposed ==> ptr == 0 && destroyed == if native != 0 then [native] else [])
    }

    /** `RID(IntPtr ptr)`, and `RID(Object from)` with `p` what the native constructor returned. */
    constructor (p: int)
      ensures Valid() && !disposed && native == p && ptr == p
    {
      disposed := false;
      ptr := p;
      destroyed := [];
      native := p;
    }

    /** The parameterless `RID()`: a null handle. */
    constructor Empty()
      ensures Valid() && !disposed && native == 0 && ptr == 0
    {
      disposed := false;
      ptr := 0;
      destroyed := [];
      native := 0;
    }

    /** `NativeInstance`: the native pointer until disposal, zero after. */
    function NativeInstance(): (p: int)
      reads this
      ensures Valid() ==> p == if disposed then 0 else native
    {
      ptr
    }

    /**
     * `Dispose(bool)`: a disposed handle is left alone; otherwise a non-zero
     * pointer is passed to the native destructor and zeroed, and the handle
     * becomes disposed.
     */
    method DisposeCore()
      requires Valid()
      modifies this`disposed, this`ptr, this`destroyed
      ensures Valid() && disposed
      ensures old(disposed) ==> ptr == old(ptr) && destroyed == old(destroyed)
      ensures !old(disposed) ==> ptr == 0 && destroyed == old(destroyed) + (if old(ptr) != 0 then [old(ptr)] else [])
    {
      if disposed {
        return;
      }
      if ptr != 0 {
        destroyed := destroyed + [ptr];
        ptr := 0;
      }
      disposed := true;
    }

    /** `Dispose()`; suppressing the finaliser is not modelled, since a finaliser run after it changes nothing. */
    method Dispose()
      requires Valid()
      modifies this`disposed, this`ptr, this`destroyed
      ensures Valid() && disposed
      ensures old(disposed) ==> ptr == old(ptr) && destroyed == old(destroyed)
      ensures !old(disposed) ==> ptr == 0 && destroyed == old(destroyed) + (if old(ptr) != 0 then [old(ptr)] else [])
    {
      DisposeCore();
    }

    /** The finaliser `~RID()`. */
    method Finalize()
      requires Valid()
      modifies this`disposed, this`ptr, this`destroyed
      ensures Valid() && disposed
      ensures old(disposed) ==> ptr == old(ptr) && destroyed == old(destroyed)
      ensures !old(disposed) ==> ptr == 0 && destroyed == old(destroyed) + (if old(ptr) != 0 then [old(ptr)] else [])
    {
      DisposeCore();
    }

    /** `GetId`: the native id of the pointer `GetPtr` hands out, or the exception it throws. */
    function GetId(nativeId: int -> int): (r: Result<int, RidError>)
      reads this
      ensures Valid() && disposed ==> r == Err(ObjectDisposed)
      ensures Valid() && !disposed ==> r == Ok(nativeId(native))
    {
      match GetPtr(this)
      case Ok(p) => Ok(nativeId(p))
      case Err(e) => Err(e)
    }
  }

  /** `GetPtr`: a null instance and a disposed one throw; otherwise the native pointer. */
  function GetPtr(instance: Rid?): (r: Result<int, RidError>)
    reads instance
    ensures instance == null ==> r == Err(NullReference)
    ensures instance != null && instance.disposed ==> r == Err(ObjectDisposed)
    ensures instance != null && instance.Valid() && !instance.disposed ==> r == Ok(instance.native)
  {
    if instance == null then Err(NullReference)
    else if instance.disposed then Err(ObjectDisposed)
    else Ok(instance.ptr)
  }

  /** The native destructor runs at most once per handle, never on a null pointer, and never for a null handle. */
  lemma DestroyedAtMostOnce(r: Rid)
    requires r.Valid()
    ensures |r.destroyed| <= 1
    ensures forall k :: 0 <= k < |r.destroyed| ==> r.destroyed[k] == r.native && r.native != 0
    ensures r.native == 0 ==> r.destroyed == []
  {
  }

  /**
   * Any sequence of `Dispose` and finaliser calls after construction releases
   * the native pointer once: the first call releases it, and the second
   * changes nothing.
   */
  method DisposeTwice(p: int, finalizeFirst: bool) returns (r: Rid)
    ensures r.disposed && r.ptr == 0
    ensures r.destroyed == if p != 0 then [p] else []
  {
    r := new Rid(p);
    if finalizeFirst {
      r.Finalize();
      r.Dispose();
    } else {
      r.Dispose();
      r.Finalize();
    }
  }
}
