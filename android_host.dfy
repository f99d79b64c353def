/**
 * The Android host fragment `Godot` (platform/android/java/.../Godot.java):
 * decoding of the `_cl_` command-line asset, the launch-flag scan of
 * `onCreate`, the `--main-pack` append of `initializeGodot`, the legacy
 * 64-slot module table, the sensor axis remap and the lifecycle fan-outs.
 *
 * Argument bodies are read as opaque bytes and turned into characters one
 * for one, which agrees with UTF-8 on ASCII text. The asset stream is a byte
 * sequence; a read of n bytes returns what is left when fewer than n remain.
 */
module AndroidHost {
  import opened Wrappers
  import opened Bytes

  const MAX_SINGLETONS: nat := 64
  const MAX_ARG_LENGTH: int := 65535

  /**
   * The strings of `XRMode.REGULAR.cmdLineArg` and `XRMode.OVR.cmdLineArg`.
   * XRMode.java is not part of this model; the values are those of the Godot
   * 3.x enum.
   */
  const XR_REGULAR_ARG := "--xr_mode_regular"
  const XR_OVR_ARG := "--xr_mode_ovr"

  /** One slot of the decoded command line: `None` is a Java `null` slot. */
  type Slot = Option<string>

  /** A Java `int` read as four little-endian bytes (two's complement). */
  function LeInt32(b: seq<byte>): (v: int)
    requires |b| == 4
    ensures -0x8000_0000 <= v < 0x8000_0000
    ensures v >= 0 ==> v == UnsignedLE(b)
  {
    var u := UnsignedLE(b);
    if u >= 0x8000_0000 then u - 0x1_0000_0000 else u
  }

  function Min(a: int, b: int): int { if a < b then a else b }

  /**
   * The `argc` entries of the blob starting at `pos`; `None` when the whole
   * parse returns an empty array (a short length field, a length above
   * 65535, or a negative length, whose `new byte[]` throws).
   */
  function Entries(blob: seq<byte>, pos: nat, n: nat): (r: Option<seq<Slot>>)
    requires pos <= |blob|
    ensures r.Some? ==> |r.value| == n
    decreases n
  {
    if n == 0 then Some([])
    else if |blob| - pos < 4 then None
    else
      var len := LeInt32(blob[pos..pos + 4]);
      if len > MAX_ARG_LENGTH || len < 0 then None
      else
        var start := pos + 4;
        var got := Min(len, |blob| - start);
        var slot: Slot := if got == len then Some(Chars(blob[start..start + len])) else None;
        match Entries(blob, start + got, n - 1)
        case None => None
        case Some(rest) => Some([slot] + rest)
  }

  /** What `parseCommandLine` returns for the asset bytes `blob`. */
  function DecodeCommandLine(blob: seq<byte>): (r: seq<Slot>)
    ensures r != [] ==> |blob| >= 4 && |r| == LeInt32(blob[..4])
  {
    if |blob| < 4 then []
    else
      var argc := LeInt32(blob[..4]);
      if argc < 0 then []
      else match Entries(blob, 4, argc)
        case None => []
        case Some(e) => e
  }

  function Prepend(done: seq<Slot>, rest: Option<seq<Slot>>): Option<seq<Slot>>
  {
    match rest
    case None => None
    case Some(r) => Some(done + r)
  }

  lemma PrependTwice(a: seq<Slot>, b: seq<Slot>, x: Option<seq<Slot>>)
    ensures Prepend(a, Prepend(b, x)) == Prepend(a + b, x)
  {
    if x.Some? {
      assert a + (b + x.value) == (a + b) + x.value;
    }
  }

  /** `parseCommandLine`: the read loop that fills `cmdline[i]` in order. */
  method ParseCommandLine(blob: seq<byte>) returns (cmdline: seq<Slot>)
    ensures cmdline == DecodeCommandLine(blob)
  {
    if |blob| < 4 {
      return [];
    }
    var argc := LeInt32(blob[..4]);
    if argc < 0 {
      return [];
    }
    var slots := new Slot[argc](_ => None);
    var pos := 4;
    var i := 0;
    ghost var done: seq<Slot> := [];
    ghost var whole := Entries(blob, 4, argc);
    match whole {
      case None =>
      case Some(e) => assert [] + e == e;
    }
    while i < argc
      invariant 0 <= i <= argc && 4 <= pos <= |blob|
      invariant done == slots[..i]
      invariant whole == Prepend(done, Entries(blob, pos, argc - i))
      invariant forall k :: i <= k < argc ==> slots[k] == None
    {
      ghost var left := argc - i;
      var ok, slot, next := ReadEntry(blob, pos, left);
      if !ok {
        return [];
      }
      if slot.Some? {
        slots[i] := slot;
      }
      ghost var later := Entries(blob, next, left - 1);
      PrependTwice(done, [slot], later);
      assert left - 1 == argc - (i + 1);
      assert slots[..i + 1] == slots[..i] + [slot];
      done := done + [slot];
      pos := next;
      i := i + 1;
    }
    assert slots[..argc] == slots[..];
    return slots[..];
  }

  /**
   * One turn of the read loop at `pos`: the length field, then the body if
   * the stream holds all of it (the slot stays null when it does not).
   */
  method ReadEntry(blob: seq<byte>, pos: nat, ghost n: nat) returns (ok: bool, slot: Slot, next: nat)
    requires pos <= |blob| && n > 0
    ensures ok ==> pos < next <= |blob| && Entries(blob, pos, n) == Prepend([slot], Entries(blob, next, n - 1))
    ensures !ok ==> Entries(blob, pos, n) == None
  {
    if |blob| - pos < 4 {
      return false, None, pos;
    }
    var strlen := LeInt32(blob[pos..pos + 4]);
    var start := pos + 4;
    if strlen > MAX_ARG_LENGTH || strlen < 0 {
      return false, None, pos;
    }
    var r := Min(strlen, |blob| - start);
    slot := None;
    if r == strlen {
      slot := Some(Chars(blob[start..start + r]));
    }
    ok := true;
    next := start + r;
  }

  // ---- The encoding that the export tool writes, and the round trip ----

  /** Every character fits in one byte. */
  predicate Latin1(s: string)
  {
    forall j :: 0 <= j < |s| ==> s[j] as int < 256
  }

  function EncodeEntries(args: seq<string>): seq<byte>
    requires forall k :: 0 <= k < |args| ==> |args[k]| <= MAX_ARG_LENGTH && Latin1(args[k])
  {
    if args == [] then []
    else
      assert Latin1(args[0]);
      LittleEndian32(|args[0]|) + ArgBytes(args[0]) + EncodeEntries(args[1..])
  }

  /** The bytes the exporter writes for one argument, one per character. */
  function ArgBytes(a: string): (b: seq<byte>)
    requires Latin1(a)
    ensures |b| == |a| && Chars(b) == a
  {
    var b: seq<byte> := seq(|a|, j requires 0 <= j < |a| => a[j] as int);
    assert forall j :: 0 <= j < |a| ==> Chars(b)[j] == a[j];
    b
  }

  /** An entry the exporter wrote reads back as its argument, followed by the entries after it. */
  lemma EntriesHead(blob: seq<byte>, pos: nat, n: nat, a: string, rest: seq<byte>)
    requires n > 0 && |a| <= MAX_ARG_LENGTH && Latin1(a)
    requires pos <= |blob| && blob[pos..] == LittleEndian32(|a|) + ArgBytes(a) + rest
    ensures pos + 4 + |a| <= |blob| && blob[pos + 4 + |a|..] == rest
    ensures Entries(blob, pos, n) == Prepend([Some(a)], Entries(blob, pos + 4 + |a|, n - 1))
  {
    var start := pos + 4;
    assert blob[pos..pos + 4] == LittleEndian32(|a|);
    LittleEndianRoundTrip(|a|);
    assert blob[start..start + |a|] == ArgBytes(a);
    assert blob[start + |a|..] == rest;
  }

  function EncodeCommandLine(args: seq<string>): seq<byte>
    requires |args| < 0x8000_0000
    requires forall k :: 0 <= k < |args| ==> |args[k]| <= MAX_ARG_LENGTH && Latin1(args[k])
  {
    LittleEndian32(|args|) + EncodeEntries(args)
  }

  function AllSome(args: seq<string>): (r: seq<Slot>)
    ensures |r| == |args| && forall k :: 0 <= k < |args| ==> r[k] == Some(args[k])
  {
    seq(|args|, k requires 0 <= k < |args| => Some(args[k]))
  }

  lemma {:induction false} EntriesOfEncoding(blob: seq<byte>, pos: nat, args: seq<string>, tail: seq<byte>)
    requires forall k :: 0 <= k < |args| ==> |args[k]| <= MAX_ARG_LENGTH && Latin1(args[k])
    requires pos <= |blob| && blob[pos..] == EncodeEntries(args) + tail
    ensures Entries(blob, pos, |args|) == Some(AllSome(args))
    decreases |args|
  {
    if args != [] {
      var a := args[0];
      var more := args[1..];
      var rest := EncodeEntries(more) + tail;
      var head := LittleEndian32(|a|) + ArgBytes(a);
      assert blob[pos..] == head + rest by {
        assert EncodeEntries(args) == head + EncodeEntries(more);
      }
      var next := pos + 4 + |a|;
      assert Entries(blob, pos, |args|) == Prepend([Some(a)], Entries(blob, next, |more|))
        && next <= |blob| && blob[next..] == rest by {
        EntriesHead(blob, pos, |args|, a, rest);
      }
      assert Entries(blob, next, |more|) == Some(AllSome(more)) by {
        EntriesOfEncoding(blob, next, more, tail);
      }
      assert AllSome(args) == [Some(a)] + AllSome(more);
    } else {
      assert Entries(blob, pos, 0) == Some([]);
    }
  }

  /** Decoding what the exporter encodes gives every argument back, none of them null. */
  lemma DecodeEncode(args: seq<string>)
    requires |args| < 0x8000_0000
    requires forall k :: 0 <= k < |args| ==> |args[k]| <= MAX_ARG_LENGTH && Latin1(args[k])
    ensures DecodeCommandLine(EncodeCommandLine(args)) == AllSome(args)
  {
    var blob := EncodeCommandLine(args);
    assert blob[..4] == LittleEndian32(|args|);
    LittleEndianRoundTrip(|args|);
    assert blob[4..] == EncodeEntries(args) + [];
    EntriesOfEncoding(blob, 4, args, []);
  }

  /** A length field above 65535 in the first entry empties the whole result. */
  lemma OversizeArgumentRejected(argc: nat, len: nat, rest: seq<byte>)
    requires 1 <= argc < 0x8000_0000 && MAX_ARG_LENGTH < len < 0x8000_0000
    ensures DecodeCommandLine(LittleEndian32(argc) + LittleEndian32(len) + rest) == []
  {
    var blob := LittleEndian32(argc) + LittleEndian32(len) + rest;
    assert blob[..4] == LittleEndian32(argc);
    assert blob[4..8] == LittleEndian32(len);
    LittleEndianRoundTrip(argc);
    LittleEndianRoundTrip(len);
  }

  /** A body shorter than its length field leaves that slot null instead of failing. */
  lemma ShortBodyLeavesNull(len: nat, body: seq<byte>)
    requires |body| < len <= MAX_ARG_LENGTH
    ensures DecodeCommandLine(LittleEndian32(1) + LittleEndian32(len) + body) == [None]
  {
    var blob := LittleEndian32(1) + LittleEndian32(len) + body;
    assert blob[..4] == LittleEndian32(1);
    assert blob[4..8] == LittleEndian32(len);
    LittleEndianRoundTrip(1);
    LittleEndianRoundTrip(len);
  }

  // ---- getCommandLine and initializeGodot ----

  /** `getCommandLine`: the decoded arguments, then the host's, in order. */
  function GetCommandLine(original: seq<Slot>, host: Option<seq<string>>): (r: seq<Slot>)
    ensures host.None? || host.value == [] ==> r == original
    ensures host.Some? ==> |r| == |original| + |host.value|
    ensures r[..|original|] == original
    ensures host.Some? ==> forall k :: 0 <= k < |host.value| ==> r[|original| + k] == Some(host.value[k])
  {
    match host
    case None => original
    case Some(h) => original + AllSome(h)
  }

  /** The arguments after `initializeGodot` appends the expansion pack; `None` stands for a null array. */
  function WithMainPack(commandLine: Option<seq<Slot>>, expansionPackPath: Option<string>): (r: Option<seq<Slot>>)
    ensures expansionPackPath.None? ==> r == commandLine
    ensures expansionPackPath.Some? ==> r.Some? && |r.value| == |commandLine.GetOr([])| + 2
    ensures expansionPackPath.Some? ==> r.value[..|r.value| - 2] == commandLine.GetOr([])
    ensures expansionPackPath.Some? ==> r.value[|r.value| - 2..] == [Some("--main-pack"), expansionPackPath]
  {
    match expansionPackPath
    case None => commandLine
    case Some(p) => Some(commandLine.GetOr([]) + [Some("--main-pack"), Some(p)])
  }

  // ---- The onCreate flag scan ----

  datatype XrMode = Regular | Ovr

  /** The fields the scan sets, its two locals and the kept arguments. */
  datatype Scanned = Scanned(
    xrMode: XrMode, use32Bits: bool, useDebugOpengl: bool, useImmersive: bool, useApkExpansion: bool,
    mainPackMd5: Option<string>, mainPackKey: Option<string>, kept: seq<string>)

  /** The scan either finishes, or dereferences a null slot and throws with the fields set so far. */
  datatype ScanOutcome = Finished(st: Scanned) | NullAt(index: nat, st: Scanned)

  /** `String.trim().length() != 0`: some character is above the space. */
  predicate NonBlank(s: string)
  {
    exists k :: 0 <= k < |s| && s[k] > ' '
  }

  /** The six flags that are always consumed. */
  predicate IsPlainFlag(s: string)
  {
    s == XR_REGULAR_ARG || s == XR_OVR_ARG || s == "--use_depth_32" || s == "--debug_opengl"
    || s == "--use_immersive" || s == "--use_apk_expansion"
  }

  predicate IsValueFlag(s: string)
  {
    s == "--apk_expansion_md5" || s == "--apk_expansion_key"
  }

  /** One turn of the loop at a non-null argument: the next index and the updated state. */
  function Next(cl: seq<Slot>, i: nat, st: Scanned): (r: (nat, Scanned))
    requires i < |cl| && cl[i].Some?
    ensures i < r.0 <= |cl|
  {
    var a := cl[i].value;
    var hasExtra := i < |cl| - 1;
    if a == XR_REGULAR_ARG then (i + 1, st.(xrMode := Regular))
    else if a == XR_OVR_ARG then (i + 1, st.(xrMode := Ovr))
    else if a == "--use_depth_32" then (i + 1, st.(use32Bits := true))
    else if a == "--debug_opengl" then (i + 1, st.(useDebugOpengl := true))
    else if a == "--use_immersive" then (i + 1, st.(useImmersive := true))
    else if a == "--use_apk_expansion" then (i + 1, st.(useApkExpansion := true))
    else if hasExtra && a == "--apk_expansion_md5" then (i + 2, st.(mainPackMd5 := cl[i + 1]))
    else if hasExtra && a == "--apk_expansion_key" then (i + 2, st.(mainPackKey := cl[i + 1]))
    else if NonBlank(a) then (i + 1, st.(kept := st.kept + [a]))
    else (i + 1, st)
  }

  /** One turn of the `onCreate` flag loop at a non-null argument, as the source's `if` chain. */
  method ScanStep(cl: seq<Slot>, i: nat, st: Scanned) returns (j: nat, st': Scanned)
    requires i < |cl| && cl[i].Some?
    ensures (j, st') == Next(cl, i, st)
  {
    var a := cl[i].value;
    var hasExtra := i < |cl| - 1;
    j := i;
    st' := st;
    if a == XR_REGULAR_ARG {
      st' := st.(xrMode := Regular);
    } else if a == XR_OVR_ARG {
      st' := st.(xrMode := Ovr);
    } else if a == "--use_depth_32" {
      st' := st.(use32Bits := true);
    } else if a == "--debug_opengl" {
      st' := st.(useDebugOpengl := true);
    } else if a == "--use_immersive" {
      st' := st.(useImmersive := true);
    } else if a == "--use_apk_expansion" {
      st' := st.(useApkExpansion := true);
    } else if hasExtra && a == "--apk_expansion_md5" {
      st' := st.(mainPackMd5 := cl[i + 1]);
      j := j + 1;
    } else if hasExtra && a == "--apk_expansion_key" {
      st' := st.(mainPackKey := cl[i + 1]);
      j := j + 1;
    } else if NonBlank(a) {
      st' := st.(kept := st.kept + [a]);
    }
    j := j + 1;
  }

  /** The whole loop from index `i`. */
  function ScanFrom(cl: seq<Slot>, i: nat, st: Scanned): ScanOutcome
    requires i <= |cl|
    decreases |cl| - i
  {
    if i == |cl| then Finished(st)
    else if cl[i].None? then NullAt(i, st)
    else
      var (j, st') := Next(cl, i, st);
      ScanFrom(cl, j, st')
  }

  predicate AllPlain(kept: seq<string>)
  {
    forall k :: 0 <= k < |kept| ==> NonBlank(kept[k]) && !IsPlainFlag(kept[k])
  }

  lemma NextKeepsOnlyPlainArguments(cl: seq<Slot>, i: nat, st: Scanned)
    requires i < |cl| && cl[i].Some? && AllPlain(st.kept)
    ensures AllPlain(Next(cl, i, st).1.kept)
  {
    var a := cl[i].value;
    var kept := Next(cl, i, st).1.kept;
    if IsPlainFlag(a) {
      assert kept == st.kept;
    } else if NonBlank(a) {
      assert kept == st.kept || kept == st.kept + [a];
    } else {
      assert kept == st.kept;
    }
  }

  /** Every argument the scan keeps is non-blank and is none of the six flags it always consumes. */
  lemma {:induction false} ScanKeepsOnlyPlainArguments(cl: seq<Slot>, i: nat, st: Scanned)
    requires i <= |cl| && AllPlain(st.kept)
    ensures AllPlain(ScanFrom(cl, i, st).st.kept)
    decreases |cl| - i
  {
    if i < |cl| && cl[i].Some? {
      var (j, st') := Next(cl, i, st);
      NextKeepsOnlyPlainArguments(cl, i, st);
      ScanKeepsOnlyPlainArguments(cl, j, st');
    }
  }

  /** Arguments that are neither flags nor blank pass through unchanged and in order. */
  lemma {:induction false} ScanPassesOrdinaryArguments(cl: seq<Slot>, i: nat, st: Scanned)
    requires i <= |cl|
    requires forall k :: i <= k < |cl| ==>
      cl[k].Some? && NonBlank(cl[k].value) && !IsPlainFlag(cl[k].value) && !IsValueFlag(cl[k].value)
    ensures ScanFrom(cl, i, st) == Finished(st.(kept := st.kept + seq(|cl| - i, k requires 0 <= k < |cl| - i => cl[i + k].value)))
    decreases |cl| - i
  {
    var tail := seq(|cl| - i, k requires 0 <= k < |cl| - i => cl[i + k].value);
    if i < |cl| {
      var a := cl[i].value;
      ScanPassesOrdinaryArguments(cl, i + 1, st.(kept := st.kept + [a]));
      var tail1 := seq(|cl| - (i + 1), k requires 0 <= k < |cl| - (i + 1) => cl[i + 1 + k].value);
      assert tail == [a] + tail1;
      assert st.kept + [a] + tail1 == st.kept + tail;
    } else {
      assert tail == [];
      assert st.kept + tail == st.kept;
    }
  }

  /**
   * The arguments from `i` on that are neither blank, nor one of the six
   * flags, nor the value taken by a value flag, in order, up to the first
   * null slot.
   */
  function Ordinary(cl: seq<Slot>, i: nat): seq<string>
    decreases |cl| - i
  {
    if i >= |cl| || cl[i].None? then []
    else
      var a := cl[i].value;
      if IsPlainFlag(a) then Ordinary(cl, i + 1)
      else if IsValueFlag(a) && i + 1 < |cl| then Ordinary(cl, i + 2)
      else if NonBlank(a) then [a] + Ordinary(cl, i + 1)
      else Ordinary(cl, i + 1)
  }

  /**
   * Whatever flags are interleaved, the scan keeps exactly the ordinary
   * arguments, in order, after those it had kept already.
   */
  lemma {:induction false} ScanKeepsOrdinary(cl: seq<Slot>, i: nat, st: Scanned)
    requires i <= |cl|
    ensures ScanFrom(cl, i, st).st.kept == st.kept + Ordinary(cl, i)
    decreases |cl| - i
  {
    if i < |cl| && cl[i].Some? {
      var a := cl[i].value;
      var (j, st') := Next(cl, i, st);
      ScanKeepsOrdinary(cl, j, st');
      if !IsPlainFlag(a) && !(IsValueFlag(a) && i + 1 < |cl|) && NonBlank(a) {
        assert st'.kept == st.kept + [a] && j == i + 1;
        assert st.kept + [a] + Ordinary(cl, i + 1) == st.kept + ([a] + Ordinary(cl, i + 1));
      } else {
        assert st'.kept == st.kept;
      }
    } else {
      assert st.kept + [] == st.kept;
    }
  }

  /** A trailing `--apk_expansion_md5` has no value to take, so it is kept as an ordinary argument. */
  lemma TrailingValueFlagKept(st: Scanned)
    ensures ScanFrom([Some("--apk_expansion_md5")], 0, st) == Finished(st.(kept := st.kept + ["--apk_expansion_md5"]))
    ensures ScanFrom([Some("--apk_expansion_md5"), Some("abc")], 0, st) == Finished(st.(mainPackMd5 := Some("abc")))
  {
    assert NonBlank("--apk_expansion_md5") by { assert "--apk_expansion_md5"[0] > ' '; }
  }

  // ---- Sensor remap ----

  /** The `axisSwap` table, one row per display rotation 0, 90, 180 and 270 degrees. */
  const AXIS_SWAP: seq<seq<int>> := [[1, -1, 0, 1], [-1, -1, 1, 0], [-1, 1, 0, 1], [1, 1, 1, 0]]

  datatype Vec3 = Vec3(x: real, y: real, z: real)

  /** `adjustedValues` for a display rotation: x and y come from the two device axes, z is kept. */
  function Remap(rotation: int, v: seq<real>): (r: Vec3)
    requires 0 <= rotation < 4 && |v| >= 3
    ensures rotation == 0 ==> r == Vec3(v[0], -v[1], v[2])
    ensures rotation == 1 ==> r == Vec3(-v[1], -v[0], v[2])
    ensures rotation == 2 ==> r == Vec3(-v[0], v[1], v[2])
    ensures rotation == 3 ==> r == Vec3(v[1], v[0], v[2])
  {
    var swap := AXIS_SWAP[rotation];
    Vec3(swap[0] as real * v[swap[2]], swap[1] as real * v[swap[3]], v[2])
  }

  /** The remap only swaps axes and flips signs, so it keeps the length of the sensor vector. */
  lemma RemapKeepsLength(rotation: int, v: seq<real>)
    requires 0 <= rotation < 4 && |v| >= 3
    ensures var r := Remap(rotation, v);
      r.x * r.x + r.y * r.y + r.z * r.z == v[0] * v[0] + v[1] * v[1] + v[2] * v[2]
  {
  }

  datatype SensorType = Accelerometer | Gravity | MagneticField | Gyroscope | OtherSensor

  /** The engine call queued for a sensor event, if any: its type and the signed vector. */
  function SensorDelivery(sensor: SensorType, rotation: int, v: seq<real>, hasView: bool): (r: Option<(SensorType, Vec3)>)
    requires 0 <= rotation < 4 && |v| >= 3
    ensures r.Some? <==> hasView && !sensor.OtherSensor?
    ensures r.Some? ==> r.value.0 == sensor
    ensures r.Some? && !sensor.Gyroscope? ==> r.value.1 == Vec3(-Remap(rotation, v).x, Remap(rotation, v).y, -v[2])
    ensures r.Some? && sensor.Gyroscope? ==> r.value.1 == Vec3(Remap(rotation, v).x, -Remap(rotation, v).y, v[2])
  {
    var a := Remap(rotation, v);
    if !hasView then None
    else match sensor
      case Accelerometer => Some((sensor, Vec3(-a.x, a.y, -a.z)))
      case Gravity => Some((sensor, Vec3(-a.x, a.y, -a.z)))
      case MagneticField => Some((sensor, Vec3(-a.x, a.y, -a.z)))
      case Gyroscope => Some((sensor, Vec3(a.x, -a.y, a.z)))
      case OtherSensor => None
  }

  /**
   * The vectors the engine receives, rotation by rotation: in the natural
   * orientation the gyroscope passes through unchanged and the accelerometer,
   * gravity and magnetometer vectors are inverted; the other rotations turn
   * the device axes a quarter at a time.
   */
  lemma NaturalOrientation(v: seq<real>, sensor: SensorType)
    requires |v| >= 3 && !sensor.OtherSensor?
    ensures SensorDelivery(Gyroscope, 0, v, true) == Some((Gyroscope, Vec3(v[0], v[1], v[2])))
    ensures SensorDelivery(Gyroscope, 1, v, true) == Some((Gyroscope, Vec3(-v[1], v[0], v[2])))
    ensures SensorDelivery(Gyroscope, 2, v, true) == Some((Gyroscope, Vec3(-v[0], -v[1], v[2])))
    ensures SensorDelivery(Gyroscope, 3, v, true) == Some((Gyroscope, Vec3(v[1], -v[0], v[2])))
    ensures !sensor.Gyroscope? ==> SensorDelivery(sensor, 0, v, true) == Some((sensor, Vec3(-v[0], -v[1], -v[2])))
    ensures !sensor.Gyroscope? ==> SensorDelivery(sensor, 1, v, true) == Some((sensor, Vec3(v[1], -v[0], -v[2])))
    ensures !sensor.Gyroscope? ==> SensorDelivery(sensor, 2, v, true) == Some((sensor, Vec3(v[0], v[1], -v[2])))
    ensures !sensor.Gyroscope? ==> SensorDelivery(sensor, 3, v, true) == Some((sensor, Vec3(-v[1], v[0], -v[2])))
  {
  }

  // ---- The legacy module table and the lifecycle ----

  datatype MethodDecl = MethodDecl(name: string, returnType: string, paramTypes: seq<string>)

  /** One `nativeRegisterMethod` call. */
  datatype Registration = Registration(singleton: string, methodName: string, returnType: string, paramTypes: seq<string>)

  /** How many of the first `n` declared methods are listed. */
  function ListedBefore(declared: seq<MethodDecl>, listed: seq<string>, n: nat): (c: nat)
    requires n <= |declared|
    ensures c <= n
  {
    if n == 0 then 0
    else (if declared[0].name in listed then 1 else 0) + ListedBefore(declared[1..], listed, n - 1)
  }

  /** A listed method comes after every listed method declared before it. */
  lemma {:induction false} ListedBeforeIncreasing(declared: seq<MethodDecl>, listed: seq<string>, j: nat, k: nat)
    requires j < k <= |declared| && declared[j].name in listed
    ensures ListedBefore(declared, listed, j) < ListedBefore(declared, listed, k)
  {
    if j > 0 {
      ListedBeforeIncreasing(declared[1..], listed, j - 1, k - 1);
    }
  }

  /**
   * The registrations for the declared methods whose names are listed: one
   * per listed method, at the position given by the listed methods declared
   * before it, so in declaration order, and nothing else.
   */
  function Exported(singleton: string, declared: seq<MethodDecl>, listed: seq<string>): (r: seq<Registration>)
    ensures |r| == ListedBefore(declared, listed, |declared|)
    ensures forall k :: 0 <= k < |r| ==> r[k].singleton == singleton && r[k].methodName in listed
    ensures forall k :: 0 <= k < |declared| && declared[k].name in listed ==>
      ListedBefore(declared, listed, k) < |r| && r[ListedBefore(declared, listed, k)] == Registration(singleton, declared[k].name, declared[k].returnType, declared[k].paramTypes)
  {
    if declared == [] then []
    else
      var m := declared[0];
      var rest := Exported(singleton, declared[1..], listed);
      assert forall k :: 1 <= k < |declared| ==> declared[k] == declared[1..][k - 1];
      var r := if m.name in listed then [Registration(singleton, m.name, m.returnType, m.paramTypes)] + rest else rest;
      assert forall k :: 1 <= k <= |declared| ==>
        ListedBefore(declared, listed, k) == (if m.name in listed then 1 else 0) + ListedBefore(declared[1..], listed, k - 1);
      r
  }

  /** The inner search of `registerClass`: is the method's name among the listed ones. */
  method IsListed(name: string, listed: seq<string>) returns (found: bool)
    ensures found <==> name in listed
  {
    found := false;
    var k := 0;
    while k < |listed|
      invariant 0 <= k <= |listed|
      invariant !found ==> name !in listed[..k]
      invariant found ==> name in listed
    {
      if listed[k] == name {
        found := true;
        break;
      }
      k := k + 1;
    }
  }

  /** The method loop of `registerClass`: one `nativeRegisterMethod` call per listed declared method. */
  method ExportMethods(name: string, declared: seq<MethodDecl>, listed: seq<string>)
    returns (registered: seq<Registration>)
    ensures registered == Exported(name, declared, listed)
  {
    registered := [];
    var i := 0;
    while i < |declared|
      invariant 0 <= i <= |declared|
      invariant registered == Exported(name, declared[..i], listed)
    {
      var m := declared[i];
      var found := IsListed(m.name, listed);
      ExportedAppend(name, declared[..i], m, listed);
      assert declared[..i + 1] == declared[..i] + [m];
      if found {
        registered := registered + [Registration(name, m.name, m.returnType, m.paramTypes)];
      }
      i := i + 1;
    }
    assert declared[..i] == declared;
  }

  /** A callback the host runs: the one-shot result callback, a legacy module's or a plugin's. */
  datatype Call = ResultCallback | ModuleCall(slot: nat) | PluginCall(index: nat)

  /** The legacy modules in slot order, then the plugins in registry order. */
  function FanOut(modules: nat, plugins: nat): (r: seq<Call>)
    ensures |r| == modules + plugins
    ensures forall k :: 0 <= k < modules ==> r[k] == ModuleCall(k)
    ensures forall k :: 0 <= k < plugins ==> r[modules + k] == PluginCall(k)
  {
    seq(modules, k requires 0 <= k < modules => ModuleCall(k)) + seq(plugins, k requires 0 <= k < plugins => PluginCall(k))
  }

  /**
   * `onBackPressed`: every legacy module and then every plugin is asked, with no
   * short cut; the engine's back event is queued only if none handled it and
   * the view exists.
   */
  method OnBackPressed(moduleVotes: seq<bool>, pluginVotes: seq<bool>, hasView: bool)
    returns (asked: seq<Call>, queueBack: bool)
    ensures asked == FanOut(|moduleVotes|, |pluginVotes|)
    ensures queueBack <==>
      hasView && (forall k :: 0 <= k < |moduleVotes| ==> !moduleVotes[k]) && (forall k :: 0 <= k < |pluginVotes| ==> !pluginVotes[k])
  {
    var shouldQuit := true;
    asked := [];
    var i := 0;
    while i < |moduleVotes|
      invariant 0 <= i <= |moduleVotes|
      invariant asked == seq(i, k requires 0 <= k < i => ModuleCall(k))
      invariant shouldQuit <==> forall k :: 0 <= k < i ==> !moduleVotes[k]
    {
      asked := asked + [ModuleCall(i)];
      if moduleVotes[i] {
        shouldQuit := false;
      }
      i := i + 1;
    }
    var j := 0;
    while j < |pluginVotes|
      invariant 0 <= j <= |pluginVotes|
      invariant asked == FanOut(|moduleVotes|, j)
      invariant shouldQuit <==>
        (forall k :: 0 <= k < |moduleVotes| ==> !moduleVotes[k]) && (forall k :: 0 <= k < j ==> !pluginVotes[k])
    {
      asked := asked + [PluginCall(j)];
      if pluginVotes[j] {
        shouldQuit := false;
      }
      j := j + 1;
    }
    queueBack := shouldQuit && hasView;
  }

  /** The host fragment's state: the static module table and the fields the lifecycle reads and writes. */
  class Godot {
    var singletons: array<string>
    var singletonCount: nat
    var xrMode: XrMode
    var use32Bits: bool
    var useDebugOpengl: bool
    var useImmersive: bool
    var useApkExpansion: bool
    var commandLine: Option<seq<Slot>>
    var expansionPackPath: Option<string>
    var godotInitialized: bool
    var activityResumed: bool
    var resultCallbackSet: bool

    ghost predicate Valid()
      reads this
    {
      singletons.Length == MAX_SINGLETONS && singletonCount <= MAX_SINGLETONS
    }

    constructor ()
      ensures Valid() && fresh(singletons) && singletonCount == 0
      ensures !godotInitialized && !activityResumed && !resultCallbackSet
      ensures xrMode == Regular && !use32Bits && !useDebugOpengl && !useImmersive && !useApkExpansion
      ensures commandLine.None? && expansionPackPath.None?
    {
      singletons := new string[MAX_SINGLETONS](_ => "");
      singletonCount := 0;
      xrMode := Regular;
      use32Bits, useDebugOpengl, useImmersive, useApkExpansion := false, false, false, false;
      commandLine := None;
      expansionPackPath := None;
      godotInitialized, activityResumed, resultCallbackSet := false, false, false;
    }

    /**
     * `SingletonBase.registerClass`: export the listed declared methods, then
     * store the module in the next slot. The source does not check the
     * capacity, so a caller must leave a free slot.
     */
    method RegisterClass(name: string, declared: seq<MethodDecl>, listed: seq<string>)
      returns (registered: seq<Registration>)
      requires Valid() && singletonCount < MAX_SINGLETONS
      modifies this`singletonCount, singletons
      ensures Valid()
      ensures registered == Exported(name, declared, listed)
      ensures singletonCount == old(singletonCount) + 1
      ensures singletons[old(singletonCount)] == name
      ensures forall k :: 0 <= k < MAX_SINGLETONS && k != old(singletonCount) ==> singletons[k] == old(singletons[k])
    {
      registered := ExportMethods(name, declared, listed);
      singletons[singletonCount] := name;
      singletonCount := singletonCount + 1;
    }

    /** The launch-flag loop of `onCreate`, over the arguments `getCommandLine` returned. */
    method ScanLaunchArguments(cl: seq<Slot>) returns (outcome: ScanOutcome)
      modifies this`xrMode, this`use32Bits, this`useDebugOpengl, this`useImmersive, this`useApkExpansion, this`commandLine
      ensures outcome == ScanFrom(cl, 0, Scanned(old(xrMode), old(use32Bits), old(useDebugOpengl),
        old(useImmersive), old(useApkExpansion), None, None, []))
      ensures xrMode == outcome.st.xrMode && use32Bits == outcome.st.use32Bits
      ensures useDebugOpengl == outcome.st.useDebugOpengl && useImmersive == outcome.st.useImmersive
      ensures useApkExpansion == outcome.st.useApkExpansion
      ensures outcome.Finished? ==> commandLine == if outcome.st.kept == [] then None else Some(AllSome(outcome.st.kept))
      ensures outcome.NullAt? ==> commandLine == Some(cl)
    {
      commandLine := Some(cl);
      var st := Scanned(xrMode, use32Bits, useDebugOpengl, useImmersive, useApkExpansion, None, None, []);
      ghost var start := st;
      var i := 0;
      while i < |cl|
        invariant 0 <= i <= |cl|
        invariant ScanFrom(cl, 0, start) == ScanFrom(cl, i, st)
        invariant commandLine == Some(cl)
      {
        if cl[i].None? {
          outcome := NullAt(i, st);
          xrMode, use32Bits, useDebugOpengl, useImmersive, useApkExpansion :=
            st.xrMode, st.use32Bits, st.useDebugOpengl, st.useImmersive, st.useApkExpansion;
          return;
        }
        i, st := ScanStep(cl, i, st);
      }
      outcome := Finished(st);
      xrMode, use32Bits, useDebugOpengl, useImmersive, useApkExpansion :=
        st.xrMode, st.use32Bits, st.useDebugOpengl, st.useImmersive, st.useApkExpansion;
      if st.kept == [] {
        commandLine := None;
      } else {
        commandLine := Some(AllSome(st.kept));
      }
    }

    /** `initializeGodot`: append the expansion pack, drop any pending result callback, mark the engine up. */
    method InitializeGodot()
      modifies this`commandLine, this`resultCallbackSet, this`godotInitialized
      ensures commandLine == WithMainPack(old(commandLine), expansionPackPath)
      ensures !resultCallbackSet && godotInitialized
    {
      commandLine := WithMainPack(commandLine, expansionPackPath);
      resultCallbackSet := false;
      godotInitialized := true;
    }

    /** `onActivityResult`: the one-shot callback first (then cleared), then every module and plugin. */
    method OnActivityResult(plugins: nat) returns (calls: seq<Call>)
      modifies this`resultCallbackSet
      ensures !resultCallbackSet
      ensures calls == (if old(resultCallbackSet) then [ResultCallback] else []) + FanOut(singletonCount, plugins)
    {
      calls := [];
      if resultCallbackSet {
        calls := [ResultCallback];
        resultCallbackSet := false;
      }
      calls := calls + FanOut(singletonCount, plugins);
    }

    /** `onPause`: always records the pause; modules and plugins hear of it only once the engine is up. */
    method OnPause(plugins: nat) returns (calls: seq<Call>)
      modifies this`activityResumed
      ensures !activityResumed
      ensures calls == if godotInitialized then FanOut(singletonCount, plugins) else []
    {
      activityResumed := false;
      if !godotInitialized {
        return [];
      }
      calls := FanOut(singletonCount, plugins);
    }

    /** `onResume`: the mirror image of `onPause`. */
    method OnResume(plugins: nat) returns (calls: seq<Call>)
      modifies this`activityResumed
      ensures activityResumed
      ensures calls == if godotInitialized then FanOut(singletonCount, plugins) else []
    {
      activityResumed := true;
      if !godotInitialized {
        return [];
      }
      calls := FanOut(singletonCount, plugins);
    }
  }

  lemma ExportedAppend(singleton: string, declared: seq<MethodDecl>, m: MethodDecl, listed: seq<string>)
    ensures Exported(singleton, declared + [m], listed) == Exported(singleton, declared, listed)
      + (if m.name in listed then [Registration(singleton, m.name, m.returnType, m.paramTypes)] else [])
    decreases |declared|
  {
    if declared != [] {
      assert (declared + [m])[1..] == declared[1..] + [m];
      ExportedAppend(singleton, declared[1..], m, listed);
    }
  }
}
