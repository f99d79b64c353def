/**
 * The engine singleton of core/engine.cpp: its validated setters, the
 * registry of named singletons, and the version string.
 *
 * Objects are identified by number, with 0 standing for the null pointer.
 */
module Engine {
  import Text

  const U32: int := 0x1_0000_0000

  /** An `Engine::Singleton`: a name and the object registered under it. */
  datatype Singleton = Singleton(name: string, ptr: nat)

  class Engine {
    var ips: int
    var physicsJitterFix: real
    var targetFps: int
    var frameDelay: int
    var timeScale: real
    /** Every registration, in order, repeats included. */
    var singletons: seq<Singleton>
    /** The object last registered under each name. */
    var singletonPtrs: map<string, nat>

    ghost predicate Valid()
      reads this
    {
      && ips > 0
      && physicsJitterFix >= 0.0
      && targetFps >= 0
      && 0 <= frameDelay < U32
      && (forall n :: n in singletonPtrs <==> exists k :: 0 <= k < |singletons| && singletons[k].name == n)
    }

    /** `Engine::Engine`: 60 iterations per second, a jitter fix of 0.5, no frame limit, no singletons. */
    constructor ()
      ensures Valid()
      ensures ips == 60 && physicsJitterFix == 0.5 && targetFps == 0 && frameDelay == 0 && timeScale == 1.0
      ensures singletons == [] && singletonPtrs == map[]
    {
      ips := 60;
      physicsJitterFix := 0.5;
      targetFps := 0;
      frameDelay := 0;
      timeScale := 1.0;
      singletons := [];
      singletonPtrs := map[];
    }

    /** `set_iterations_per_second`: a value of 0 or less is refused and nothing changes. */
    method SetIterationsPerSecond(p: int)
      requires Valid()
      modifies this`ips
      ensures Valid()
      ensures p <= 0 ==> ips == old(ips)
      ensures p > 0 ==> ips == p
    {
      if p <= 0 {
        return;
      }
      ips := p;
    }

    /** `set_physics_jitter_fix`: a negative threshold is stored as 0. */
    method SetPhysicsJitterFix(threshold: real)
      requires Valid()
      modifies this`physicsJitterFix
      ensures Valid()
      ensures physicsJitterFix == if threshold < 0.0 then 0.0 else threshold
    {
      var t := threshold;
      if t < 0.0 {
        t := 0.0;
      }
      physicsJitterFix := t;
    }

    /** `set_target_fps`: a limit of 0 or less means no limit, stored as 0. */
    method SetTargetFps(fps: int)
      requires Valid()
      modifies this`targetFps
      ensures Valid()
      ensures targetFps == if fps > 0 then fps else 0
    {
      targetFps := if fps > 0 then fps else 0;
    }

    /** `set_frame_delay`, whose argument is a `uint32_t`. */
    method SetFrameDelay(msec: int)
      requires Valid() && 0 <= msec < U32
      modifies this`frameDelay
      ensures Valid() && frameDelay == msec
    {
      frameDelay := msec;
    }

    /** `set_time_scale`, stored as given. */
    method SetTimeScale(scale: real)
      requires Valid()
      modifies this`timeScale
      ensures Valid() && timeScale == scale
    {
      timeScale := scale;
    }

    /** `get_singleton_object`: the object registered under the name, or null when there is none. */
    function GetSingletonObject(name: string): (ptr: nat)
      reads this
      ensures name !in singletonPtrs ==> ptr == 0
    {
      if name in singletonPtrs then singletonPtrs[name] else 0
    }

    /** `has_singleton`. */
    function HasSingleton(name: string): (has: bool)
      reads this
      requires Valid()
      ensures has <==> exists k :: 0 <= k < |singletons| && singletons[k].name == name
    {
      name in singletonPtrs
    }

    /**
     * `add_singleton`: the registration is appended to the list and its
     * object replaces any earlier one under the same name; every other
     * name keeps its object.
     */
    method AddSingleton(s: Singleton)
      requires Valid()
      modifies this`singletons, this`singletonPtrs
      ensures Valid()
      ensures singletons == old(singletons) + [s]
      ensures HasSingleton(s.name) && GetSingletonObject(s.name) == s.ptr
      ensures forall n :: n != s.name ==> GetSingletonObject(n) == old(GetSingletonObject(n))
    {
      ghost var before := singletons;
      singletons := singletons + [s];
      singletonPtrs := singletonPtrs[s.name := s.ptr];
      forall n ensures n in singletonPtrs <==> exists k :: 0 <= k < |singletons| && singletons[k].name == n {
        if n == s.name {
          assert singletons[|before|].name == n;
        } else if n in singletonPtrs {
          var k :| 0 <= k < |before| && before[k].name == n;
          assert singletons[k] == before[k];
        }
        if exists k :: 0 <= k < |singletons| && singletons[k].name == n {
          var k :| 0 <= k < |singletons| && singletons[k].name == n;
          if k < |before| {
            assert before[k] == singletons[k];
          }
        }
      }
      assert singletons[|singletons| - 1].name == s.name;
    }

    /** `get_singletons`: every registration, in the order made. */
    method GetSingletons() returns (list: seq<Singleton>)
      requires Valid()
      ensures list == singletons
      ensures forall k :: 0 <= k < |list| ==> HasSingleton(list[k].name)
    {
      list := singletons;
    }
  }

  // ---- Version ----

  /** The fields of `get_version_info` that the version string is made from. */
  datatype Version = Version(major: nat, minor: nat, patch: nat, status: string, build: string, hash: string)

  /** The `hash` entry: the build's hash, or "unknown" when it is empty. */
  function VersionHash(v: Version): (h: string)
    ensures h != ""
    ensures v.hash != "" ==> h == v.hash
  {
    if |v.hash| == 0 then "unknown" else v.hash
  }

  /** The `string` entry: "major.minor", ".patch" unless the patch is 0, then "-status (build)". */
  function VersionString(v: Version): (s: string)
  {
    var stringver := Text.NatToString(v.major) + "." + Text.NatToString(v.minor);
    var stringver := if v.patch != 0 then stringver + "." + Text.NatToString(v.patch) else stringver;
    stringver + "-" + v.status + " (" + v.build + ")"
  }

  /** The part after "major.minor". */
  function PatchTail(v: Version): string
  {
    (if v.patch != 0 then "." + Text.NatToString(v.patch) else "") + "-" + v.status + " (" + v.build + ")"
  }

  lemma VersionSplit(v: Version)
    ensures VersionString(v) == Text.NatToString(v.major) + "." + Text.NatToString(v.minor) + PatchTail(v)
  {
  }

  /** Versions that differ only in the patch number print differently, so the patch can be read back. */
  lemma VersionPatchInjective(v: Version, w: Version)
    requires v.(patch := w.patch) == w
    requires VersionString(v) == VersionString(w)
    ensures v.patch == w.patch
  {
    TailsEqual(v, w);
    if v.patch != 0 && w.patch != 0 {
      PatchDigitsEqual(v, w);
    } else {
      TailStart(v);
      TailStart(w);
    }
  }

  /** Equal strings of versions with the same major and minor have equal tails. */
  lemma TailsEqual(v: Version, w: Version)
    requires v.major == w.major && v.minor == w.minor
    requires VersionString(v) == VersionString(w)
    ensures PatchTail(v) == PatchTail(w)
  {
    VersionSplit(v);
    VersionSplit(w);
    var head := Text.NatToString(v.major) + "." + Text.NatToString(v.minor);
    assert VersionString(v)[|head|..] == PatchTail(v);
    assert VersionString(w)[|head|..] == PatchTail(w);
  }

  /** The tail starts with '.' when there is a patch number and with '-' otherwise. */
  lemma TailStart(v: Version)
    ensures |PatchTail(v)| > 0 && PatchTail(v)[0] == if v.patch != 0 then '.' else '-'
  {
  }

  /** Equal tails with non-zero patches, the same status and the same build hold the same patch. */
  lemma PatchDigitsEqual(v: Version, w: Version)
    requires v.patch != 0 && w.patch != 0 && v.status == w.status && v.build == w.build
    requires PatchTail(v) == PatchTail(w)
    ensures v.patch == w.patch
  {
    var a, b := PatchTail(v), PatchTail(w);
    var rest := "-" + v.status + " (" + v.build + ")";
    var x, y := Text.NatToString(v.patch), Text.NatToString(w.patch);
    assert a == "." + x + rest && b == "." + y + rest;
    assert |x| == |y|;
    assert x == a[1..|x| + 1] && y == b[1..|y| + 1];
    Text.NatToStringInjective(v.patch, w.patch);
  }
}
