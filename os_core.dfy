/**
 * Pieces of the `OS` singleton (core/os/os.cpp): `get_safe_dir_name`, the
 * project-setting orientation names, `set_exit_code`, the tick arithmetic of
 * `add_frame_delay` and `get_video_driver_name`.
 *
 * core/os/os.h is not part of this model: the `ScreenOrientation` values are
 * a datatype, and the `VideoDriver` numbers are those of the Godot 3.x enum
 * (GLES3 = 0, GLES2 = 1). The sleeps and clock reads of `add_frame_delay`
 * are parameters and results.
 */
module OsCore {
  import Text

  // ---- get_safe_dir_name ----

  /**
   * The tokens replaced by "-", in order: the pieces of ": * ? \" < > |"
   * split on spaces, then ".." when directory separators are allowed and
   * "/" when they are not.
   */
  function InvalidTokens(allowDirSeparator: bool): (r: seq<string>)
    ensures |r| == 8
    ensures forall k :: 0 <= k < 7 ==> r[k] == [InvalidChar(k)]
    ensures r[7] == if allowDirSeparator then ".." else "/"
  {
    [":", "*", "?", "\"", "<", ">", "|"] + [if allowDirSeparator then ".." else "/"]
  }

  function InvalidChar(k: nat): char
    requires k < 7
  {
    [':', '*', '?', '"', '<', '>', '|'][k]
  }

  /** The input with the first `k` tokens each replaced by "-", one after another. */
  function ReplaceEach(s: string, tokens: seq<string>, k: nat): string
    requires k <= |tokens| && forall j :: 0 <= j < |tokens| ==> |tokens[j]| > 0
  {
    if k == 0 then s else Text.ReplaceAll(ReplaceEach(s, tokens, k - 1), tokens[k - 1], "-")
  }

  /** What `get_safe_dir_name` returns. */
  function SafeDirName(dir: string, allowDirSeparator: bool): string
  {
    var tokens := InvalidTokens(allowDirSeparator);
    ReplaceEach(Text.StripEdges(Text.ReplaceAll(dir, "\\", "/")), tokens, |tokens|)
  }

  /** `get_safe_dir_name`: backslashes become slashes, the edges are stripped, then each token is replaced in turn. */
  method GetSafeDirName(dir: string, allowDirSeparator: bool) returns (safe: string)
    ensures safe == SafeDirName(dir, allowDirSeparator)
    ensures Safe(safe, allowDirSeparator)
  {
    var invalid := InvalidTokens(allowDirSeparator);
    ghost var start := Text.StripEdges(Text.ReplaceAll(dir, "\\", "/"));
    safe := Text.StripEdges(Text.ReplaceAll(dir, "\\", "/"));
    var i := 0;
    while i < |invalid|
      invariant 0 <= i <= |invalid|
      invariant safe == ReplaceEach(start, invalid, i)
    {
      safe := Text.ReplaceAll(safe, invalid[i], "-");
      i := i + 1;
    }
    SafeDirNameIsSafe(dir, allowDirSeparator);
  }

  /** No edge character is a space or a control character. */
  predicate Edged(t: string)
  {
    t == [] || (t[0] > ' ' && t[|t| - 1] > ' ')
  }

  /** What a safe name avoids: backslashes, every token, and blank edges. */
  predicate Safe(t: string, allowDirSeparator: bool)
  {
    '\\' !in t && Edged(t)
    && forall k :: 0 <= k < 8 ==> !Text.Contains(t, InvalidTokens(allowDirSeparator)[k])
  }

  /** The result of `get_safe_dir_name` holds no backslash, none of the tokens, and no blank edge. */
  lemma SafeDirNameIsSafe(dir: string, allowDirSeparator: bool)
    ensures Safe(SafeDirName(dir, allowDirSeparator), allowDirSeparator)
  {
    var start := Text.StripEdges(Text.ReplaceAll(dir, "\\", "/"));
    assert '\\' !in start by {
      Text.ReplaceCharRemoves(dir, '\\', "/");
    }
    ReplacedIsSafe(start, allowDirSeparator);
  }

  /** Replacing every token in a stripped name without backslashes gives a safe name. */
  lemma ReplacedIsSafe(start: string, allowDirSeparator: bool)
    requires '\\' !in start && Edged(start)
    ensures var tokens := InvalidTokens(allowDirSeparator);
      Safe(ReplaceEach(start, tokens, |tokens|), allowDirSeparator)
  {
    var tokens := InvalidTokens(allowDirSeparator);
    var t := ReplaceEach(start, tokens, |tokens|);
    ReplaceEachFacts(start, allowDirSeparator, |tokens|);
    forall k | 0 <= k < 8 ensures !Text.Contains(t, tokens[k]) {
      if k < 7 {
        assert tokens[k] == [InvalidChar(k)];
        Text.CharAbsent(t, InvalidChar(k));
      }
    }
  }

  /** Applying `get_safe_dir_name` to its own result changes nothing. */
  lemma SafeDirNameIdempotent(dir: string, allowDirSeparator: bool)
    ensures SafeDirName(SafeDirName(dir, allowDirSeparator), allowDirSeparator) == SafeDirName(dir, allowDirSeparator)
  {
    var t := SafeDirName(dir, allowDirSeparator);
    SafeDirNameIsSafe(dir, allowDirSeparator);
    Text.CharAbsent(t, '\\');
    Text.ReplaceAbsent(t, "\\", "/");
    StripEdged(t);
    var tokens := InvalidTokens(allowDirSeparator);
    ReplaceEachAbsent(t, tokens, |tokens|);
  }

  lemma StripEdged(t: string)
    requires Edged(t)
    ensures Text.StripEdges(t) == t
  {
  }

  lemma {:induction false} ReplaceEachAbsent(s: string, tokens: seq<string>, k: nat)
    requires k <= |tokens| && forall j :: 0 <= j < |tokens| ==> |tokens[j]| > 0
    requires forall j :: 0 <= j < k ==> !Text.Contains(s, tokens[j])
    ensures ReplaceEach(s, tokens, k) == s
    decreases k
  {
    if k > 0 {
      ReplaceEachAbsent(s, tokens, k - 1);
      Text.ReplaceAbsent(s, tokens[k - 1], "-");
    }
  }

  /** What holds after the first `k` replacements. */
  lemma {:induction false} ReplaceEachFacts(s: string, allowDirSeparator: bool, k: nat)
    requires k <= 8 && '\\' !in s && Edged(s)
    ensures var r := ReplaceEach(s, InvalidTokens(allowDirSeparator), k);
      '\\' !in r && Edged(r)
      && (forall j :: 0 <= j < k && j < 7 ==> InvalidChar(j) !in r)
      && (k == 8 ==> !Text.Contains(r, InvalidTokens(allowDirSeparator)[7]))
    decreases k
  {
    if k > 0 {
      var tokens := InvalidTokens(allowDirSeparator);
      var r := ReplaceEach(s, tokens, k - 1);
      var key := tokens[k - 1];
      ReplaceEachFacts(s, allowDirSeparator, k - 1);
      var r' := Text.ReplaceAll(r, key, "-");
      assert r' == ReplaceEach(s, tokens, k);
      Text.ReplaceKeepsOthers(r, key, "-", '\\');
      ReplaceEdged(r, key);
      forall j | 0 <= j < k - 1 && j < 7 ensures InvalidChar(j) !in r' {
        Text.ReplaceKeepsOthers(r, key, "-", InvalidChar(j));
      }
      if k - 1 < 7 {
        Text.ReplaceCharRemoves(r, InvalidChar(k - 1), "-");
      } else if allowDirSeparator {
        NoDoubleDot(r);
      } else {
        Text.ReplaceCharRemoves(r, '/', "-");
        Text.CharAbsent(r', '/');
      }
    }
  }

  /** Replacing with "-" keeps the edges free of blanks. */
  lemma ReplaceEdged(s: string, key: string)
    requires |key| > 0 && Edged(s)
    ensures Edged(Text.ReplaceAll(s, key, "-"))
  {
    if s != [] {
      ReplaceLast(s, key);
    }
  }

  /** The last character of a replacement is the input's last or the dash. */
  lemma {:induction false} ReplaceLast(s: string, key: string)
    requires |key| > 0 && s != []
    ensures var r := Text.ReplaceAll(s, key, "-");
      r != [] && (r[0] == s[0] || r[0] == '-') && (r[|r| - 1] == s[|s| - 1] || r[|r| - 1] == '-')
    decreases |s|
  {
    if |s| >= |key| {
      var rest := if s[..|key|] == key then s[|key|..] else s[1..];
      if rest != [] {
        ReplaceLast(rest, key);
      } else {
        assert Text.ReplaceAll(rest, key, "-") == [];
      }
    }
  }

  /** After replacing ".." with "-", no ".." is left: a '.' kept is never followed by another. */
  lemma {:induction false} NoDoubleDot(s: string)
    ensures !Text.Contains(Text.ReplaceAll(s, "..", "-"), "..")
    decreases |s|
  {
    var r := Text.ReplaceAll(s, "..", "-");
    if |s| < 2 {
      forall i: nat ensures !Text.OccursAt(r, "..", i) { }
    } else {
      var rest := if s[..2] == ".." then s[2..] else s[1..];
      var rr := Text.ReplaceAll(rest, "..", "-");
      NoDoubleDot(rest);
      if rest != [] {
        ReplaceLast(rest, "..");
      }
      var head := if s[..2] == ".." then "-" else [s[0]];
      assert r == head + rr;
      forall i: nat ensures !Text.OccursAt(r, "..", i) {
        if i + 2 <= |r| {
          if i == 0 {
            if r[0] == '.' {
              assert s[0] == '.' && s[1] != '.' && rest == s[1..];
              assert r[1] == rr[0];
            }
          } else {
            assert r[i..i + 2] == rr[i - 1..i + 1];
            assert !Text.OccursAt(rr, "..", i - 1);
          }
        }
      }
    }
  }

  // ---- Orientation ----

  /** `OS::ScreenOrientation`. */
  datatype ScreenOrientation =
    | Landscape | Portrait | ReverseLandscape | ReversePortrait | SensorLandscape | SensorPortrait | Sensor

  /** The project-setting spelling of each orientation. */
  function OrientationName(o: ScreenOrientation): string
  {
    match o
    case Landscape => "landscape"
    case Portrait => "portrait"
    case ReverseLandscape => "reverse_landscape"
    case ReversePortrait => "reverse_portrait"
    case SensorLandscape => "sensor_landscape"
    case SensorPortrait => "sensor_portrait"
    case Sensor => "sensor"
  }

  /** `get_screen_orientation_from_string`: the six named orientations, landscape for anything else. */
  function ScreenOrientationFromString(s: string): (r: ScreenOrientation)
    ensures r != Landscape ==> OrientationName(r) == s
  {
    if s == "portrait" then Portrait
    else if s == "reverse_landscape" then ReverseLandscape
    else if s == "reverse_portrait" then ReversePortrait
    else if s == "sensor_landscape" then SensorLandscape
    else if s == "sensor_portrait" then SensorPortrait
    else if s == "sensor" then Sensor
    else Landscape
  }

  /** Every orientation's name reads back as that orientation; every other string reads as landscape. */
  lemma OrientationRoundTrip(o: ScreenOrientation, s: string)
    ensures ScreenOrientationFromString(OrientationName(o)) == o
    ensures (forall p :: OrientationName(p) != s) ==> ScreenOrientationFromString(s) == Landscape
  {
    if ScreenOrientationFromString(s) != Landscape {
      assert OrientationName(ScreenOrientationFromString(s)) == s;
    }
  }

  // ---- Video driver names ----

  const VIDEO_DRIVER_GLES3: int := 0
  const VIDEO_DRIVER_GLES2: int := 1

  /** `get_video_driver_name`: "GLES2" for the GLES2 driver, "GLES3" for every other number. */
  function GetVideoDriverName(driver: int): (r: string)
    ensures r == "GLES2" <==> driver == VIDEO_DRIVER_GLES2
    ensures r == "GLES3" <==> driver != VIDEO_DRIVER_GLES2
  {
    if driver == VIDEO_DRIVER_GLES2 then "GLES2" else "GLES3"
  }

  // ---- Exit code and frame delay ----

  const U64: int := 0x1_0000_0000_0000_0000
  const U32: int := 0x1_0000_0000

  /** `Engine` settings that `add_frame_delay` reads. */
  datatype FrameSettings = FrameSettings(frameDelay: nat, targetFps: int, editorHint: bool)

  /** The sleeps `add_frame_delay` asks for: the fixed one, then the one up to the target tick. */
  datatype Sleeps = Sleeps(fixedUsec: nat, dynamicUsec: nat)

  /** The dynamic delay: the low-processor sleep when idle, raised to one frame at the target rate. */
  function DynamicDelay(lowProcessorMode: bool, canDraw: bool, lowProcessorSleepUsec: nat, fps: FrameSettings): (d: nat)
    ensures lowProcessorMode || !canDraw ==> d >= lowProcessorSleepUsec
    ensures fps.targetFps > 0 && !fps.editorHint ==> d >= 1000000 / fps.targetFps
    ensures d == 0 || d == lowProcessorSleepUsec || (fps.targetFps > 0 && d == 1000000 / fps.targetFps)
  {
    var low := if lowProcessorMode || !canDraw then lowProcessorSleepUsec else 0;
    if fps.targetFps > 0 && !fps.editorHint then
      var frame := 1000000 / fps.targetFps;
      if low > frame then low else frame
    else low
  }

  /** The computation of `dynamic_delay` in `add_frame_delay`. */
  method ComputeDynamicDelay(lowProcessorMode: bool, canDraw: bool, lowProcessorSleepUsec: nat, fps: FrameSettings)
    returns (dynamicDelay: nat)
    ensures dynamicDelay == DynamicDelay(lowProcessorMode, canDraw, lowProcessorSleepUsec, fps)
  {
    dynamicDelay := 0;
    if lowProcessorMode || !canDraw {
      dynamicDelay := lowProcessorSleepUsec;
    }
    if fps.targetFps > 0 && !fps.editorHint {
      var frame := 1000000 / fps.targetFps;
      dynamicDelay := if dynamicDelay > frame then dynamicDelay else frame;
    }
  }

  /** The delay fits the 64-bit counter whenever the low-processor sleep does. */
  lemma DynamicDelayBelow(lowProcessorMode: bool, canDraw: bool, lowProcessorSleepUsec: nat, fps: FrameSettings)
    requires lowProcessorSleepUsec < U64
    ensures DynamicDelay(lowProcessorMode, canDraw, lowProcessorSleepUsec, fps) < U64
  {
    if fps.targetFps > 0 {
      DivAtMost(1000000, fps.targetFps);
    }
  }

  lemma DivAtMost(n: nat, m: int)
    requires m > 0
    ensures n / m <= n
  {
    assert n == m * (n / m) + n % m;
    if n / m > n {
      MulAtLeast(m, n / m);
    }
  }

  lemma MulAtLeast(m: int, q: int)
    requires m > 0 && q >= 0
    ensures m * q >= q
  {
    assert m * q == (m - 1) * q + q;
    assert (m - 1) * q >= 0;
  }

  class Os {
    var exitCode: int
    var isCustomExitCode: bool
    var lowProcessorUsageMode: bool
    var lowProcessorUsageModeSleepUsec: nat
    /** The static `target_ticks`, a `uint64_t`. */
    var targetTicks: nat

    ghost predicate Valid()
      reads this
    {
      targetTicks < U64 && lowProcessorUsageModeSleepUsec < U64
    }

    /** `set_exit_code`: the code is stored and marked as custom. */
    method SetExitCode(code: int)
      modifies this`exitCode, this`isCustomExitCode
      ensures exitCode == code && isCustomExitCode
    {
      exitCode := code;
      isCustomExitCode := true;
    }

    /**
     * `add_frame_delay`. `before` is the clock read that decides the sleep,
     * `after` the read taken after it; both are microsecond ticks.
     */
    method AddFrameDelay(canDraw: bool, fps: FrameSettings, before: nat, after: nat) returns (sleeps: Sleeps)
      requires Valid() && fps.frameDelay < U32 && before < U64 && after < U64
      modifies this`targetTicks
      ensures Valid()
      ensures sleeps.fixedUsec == (fps.frameDelay * 1000) % U32
      ensures var d := DynamicDelay(lowProcessorUsageMode, canDraw, lowProcessorUsageModeSleepUsec, fps);
        && (d == 0 ==> targetTicks == old(targetTicks) && sleeps.dynamicUsec == 0)
        && (d > 0 ==> var target := (old(targetTicks) + d) % U64;
             sleeps.dynamicUsec == (if before < target then target - before else 0)
             && targetTicks == ClampTicks(target, after, d))
    {
      sleeps := Sleeps(0, 0);
      if fps.frameDelay != 0 {
        sleeps := sleeps.(fixedUsec := (fps.frameDelay * 1000) % U32);
      }
      var dynamicDelay := ComputeDynamicDelay(lowProcessorUsageMode, canDraw, lowProcessorUsageModeSleepUsec, fps);
      DynamicDelayBelow(lowProcessorUsageMode, canDraw, lowProcessorUsageModeSleepUsec, fps);
      if dynamicDelay > 0 {
        targetTicks := (targetTicks + dynamicDelay) % U64;
        if before < targetTicks {
          sleeps := sleeps.(dynamicUsec := targetTicks - before);
        }
        targetTicks := ClampTicks(targetTicks, after, dynamicDelay);
      }
    }
  }

  /** `MIN(MAX(target, current - d), current + d)` in `uint64_t`, whose subtraction and addition wrap. */
  function ClampTicks(target: nat, current: nat, d: nat): (r: nat)
    requires target < U64 && current < U64 && d < U64
    ensures r < U64
  {
    var low := (current - d) % U64;
    var high := (current + d) % U64;
    var m := if target > low then target else low;
    if m < high then m else high
  }

  /** Without wrap-around, the new target lies within `d` of the clock, and a target already there is kept. */
  lemma ClampTicksWithin(target: nat, current: nat, d: nat)
    requires target < U64 && d <= current && current + d < U64
    ensures current - d <= ClampTicks(target, current, d) <= current + d
    ensures current - d <= target <= current + d ==> ClampTicks(target, current, d) == target
  {
  }

  /**
   * With the clock behind the delay, the wrapped lower bound is huge and the
   * target is pushed to the upper end: `current + d`.
   */
  lemma ClampTicksEarlyClock(target: nat, current: nat, d: nat)
    requires target < U64 && current < d && 2 * d <= U64 && current + d < U64
    ensures ClampTicks(target, current, d) == current + d
  {
  }
}
