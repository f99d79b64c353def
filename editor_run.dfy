/**
 * The editor's "run project" launcher of editor/editor_run.cpp: the choice
 * of screen, the command line handed to the new process, and the
 * play/stop status.
 *
 * Settings, screen geometry and the process id are read through a `RunEnv`
 * value; launching the process is the `Launch` outcome given to `Run`.
 * `Math::wrapi` (core/math/math_funcs.h) is not part of this model and is
 * defined here as Godot 3 writes it, with C's truncating remainder.
 */
module EditorRun {
  import Text

  // ---- Screen choice ----

  function Abs(a: int): (r: int)
    ensures r >= 0
  {
    if a < 0 then -a else a
  }

  /** C's `%` on `int`: the remainder has the dividend's sign and the magnitude of `|a| mod |b|`. */
  function TruncMod(a: int, b: int): (r: int)
    requires b != 0
    ensures a >= 0 ==> 0 <= r < Abs(b)
    ensures a < 0 ==> -Abs(b) < r <= 0
  {
    if a >= 0 then a % Abs(b) else -((-a) % Abs(b))
  }

  /** `Math::wrapi`: `value` brought into `[min, max)` when the range is not empty. */
  function WrapI(value: int, min: int, max: int): (r: int)
    ensures max == min ==> r == min
    ensures max > min ==> min <= r < max
  {
    var range := max - min;
    if range == 0 then min
    else min + TruncMod(TruncMod(value - min, range) + range, range)
  }

  /** A value already in range is its own residue. */
  lemma ModSmall(x: int, range: int)
    requires 0 <= x < range
    ensures x % range == x
  {
  }

  /** Adding the range does not change the residue of a value in range. */
  lemma ModShift(x: int, range: int)
    requires 0 <= x < range
    ensures (x + range) % range == x
  {
  }

  /** A wrap of a value already in `[min, max)` leaves it as it is. */
  lemma WrapIInRange(value: int, min: int, max: int)
    requires min <= value < max
    ensures WrapI(value, min, max) == value
  {
    var range := max - min;
    ModSmall(value - min, range);
    ModShift(value - min, range);
  }

  /**
   * The `run/window_placement/screen` option: 0 is the editor's screen, 1
   * the previous and 2 the next one with wrap-around, and any other option
   * `k` the screen `k - 3`.
   */
  function SelectScreen(option: int, current: int, count: int): (screen: int)
    ensures option == 0 ==> screen == current
    ensures option != 0 && option != 1 && option != 2 ==> screen == option - 3
    ensures (option == 1 || option == 2) && count > 0 ==> 0 <= screen < count
  {
    if option == 0 then current
    else if option == 1 then WrapI(current - 1, 0, count)
    else if option == 2 then WrapI(current + 1, 0, count)
    else option - 3
  }

  /** From a valid screen, options 1 and 2 step to the neighbouring screen, wrapping at the ends. */
  lemma NeighbourScreens(current: int, count: int)
    requires 0 <= current < count
    ensures SelectScreen(1, current, count) == if current == 0 then count - 1 else current - 1
    ensures SelectScreen(2, current, count) == if current == count - 1 then 0 else current + 1
  {
    if current == 0 {
      // C's -1 % count is -1 (or 0 when count is 1), and adding count lands on count - 1.
      if count == 1 {
        assert 1 % 1 == 0;
        assert WrapI(-1, 0, 1) == 0;
      } else {
        ModSmall(1, count);
        ModShift(count - 1, count);
        ModSmall(count - 1, count);
      }
    } else {
      WrapIInRange(current - 1, 0, count);
    }
    if current == count - 1 {
      ModShift(0, count);
      ModSmall(0, count);
      assert count % count == 0;
    } else {
      WrapIInRange(current + 1, 0, count);
    }
  }

  // ---- Window placement ----

  datatype Point = Point(x: real, y: real)

  /** Conversion of a float to an integer: truncation toward zero. */
  function Trunc(r: real): (t: int)
    ensures r >= 0.0 ==> 0.0 <= t as real <= r < t as real + 1.0
    ensures r < 0.0 ==> t as real - 1.0 < r <= t as real <= 0.0
  {
    if r >= 0.0 then r.Floor else -((-r).Floor)
  }

  /**
   * The factor the screen rectangle is divided by: 1 when editor and project
   * agree on hiDPI, the screen's largest scale when only the editor uses
   * hiDPI, and its inverse when only the project does.
   */
  function DisplayScale(hidpiAllowed: bool, hidpiProject: bool, maxScale: real): (scale: real)
    requires maxScale > 0.0
    ensures scale > 0.0
    ensures hidpiAllowed == hidpiProject ==> scale == 1.0
    ensures !hidpiAllowed && hidpiProject ==> scale * maxScale == 1.0
  {
    if hidpiAllowed then (if hidpiProject then 1.0 else maxScale)
    else (if hidpiProject then 1.0 / maxScale else 1.0)
  }

  /** The factor as written: an `int`, so the inverse scale is truncated. */
  function DisplayScaleAsWritten(hidpiAllowed: bool, hidpiProject: bool, maxScale: real): int
    requires maxScale > 0.0
  {
    if hidpiAllowed then (if hidpiProject then 1 else Trunc(maxScale))
    else (if hidpiProject then Trunc(1.0 / maxScale) else 1)
  }

  /**
   * On a screen of scale 2, a hiDPI project run from a non-hiDPI editor
   * divides the screen rectangle by 0; on a screen of scale 1.5, a
   * non-hiDPI project run from a hiDPI editor divides it by 1.
   */
  lemma DisplayScaleTruncatesToZero()
    ensures DisplayScaleAsWritten(false, true, 2.0) == 0
    ensures DisplayScale(false, true, 2.0) == 0.5
    ensures DisplayScaleAsWritten(true, false, 1.5) == 1
    ensures DisplayScale(true, false, 1.5) == 1.5
  {
  }

  /**
   * The integer factor agrees with the float one when editor and project
   * agree on hiDPI. On any screen whose largest scale is above 1 it is 0
   * when only the project uses hiDPI, and when only the editor does it is
   * the scale rounded down, which is the float factor exactly when the
   * scale is a whole number.
   */
  lemma DisplayScaleAsWrittenDiffers(hidpiAllowed: bool, hidpiProject: bool, maxScale: real)
    requires maxScale > 0.0
    ensures hidpiAllowed == hidpiProject ==> DisplayScaleAsWritten(hidpiAllowed, hidpiProject, maxScale) as real == DisplayScale(hidpiAllowed, hidpiProject, maxScale)
    ensures maxScale > 1.0 && !hidpiAllowed && hidpiProject ==> DisplayScaleAsWritten(hidpiAllowed, hidpiProject, maxScale) == 0
    ensures hidpiAllowed && !hidpiProject ==> DisplayScaleAsWritten(hidpiAllowed, hidpiProject, maxScale) == maxScale.Floor
    ensures hidpiAllowed && !hidpiProject ==>
      (DisplayScaleAsWritten(hidpiAllowed, hidpiProject, maxScale) as real == DisplayScale(hidpiAllowed, hidpiProject, maxScale) <==> maxScale == maxScale.Floor as real)
  {
    if maxScale > 1.0 {
      assert 1.0 / maxScale < 1.0;
    }
  }

  function Scaled(p: Point, scale: real): Point
    requires scale > 0.0
  {
    Point(p.x / scale, p.y / scale)
  }

  /**
   * The window position for a placement: 1 centres the window on the screen
   * (rounded down), 2 offsets the custom position by the screen's, and every
   * other placement uses the screen's corner.
   */
  function PlacedPosition(placement: int, screenPos: Point, screenSize: Point, desired: Point, custom: Point): (p: Point)
    ensures placement == 1 ==>
      && 0.0 <= (screenSize.x - desired.x) - 2.0 * (p.x - screenPos.x) < 2.0
      && 0.0 <= (screenSize.y - desired.y) - 2.0 * (p.y - screenPos.y) < 2.0
    ensures placement == 2 ==> p.x - screenPos.x == custom.x && p.y - screenPos.y == custom.y
    ensures placement != 1 && placement != 2 ==> p == screenPos
  {
    if placement == 1 then
      Point(screenPos.x + ((screenSize.x - desired.x) / 2.0).Floor as real,
            screenPos.y + ((screenSize.y - desired.y) / 2.0).Floor as real)
    else if placement == 2 then
      Point(custom.x + screenPos.x, custom.y + screenPos.y)
    else screenPos
  }

  function PositionText(p: Point): string
  {
    Text.IntToString(Trunc(p.x)) + "," + Text.IntToString(Trunc(p.y))
  }

  /**
   * The `run/window_placement/rect` arguments: placements 0 to 4 give the
   * position, 3 then asks for a maximized and 4 for a fullscreen window;
   * any other placement adds nothing.
   */
  function PlacementArgs(placement: int, pos: Point): (args: seq<string>)
    ensures 0 <= placement <= 4 ==> |args| >= 2 && args[..2] == ["--position", PositionText(pos)]
    ensures !(0 <= placement <= 4) ==> args == []
    ensures "--maximized" in args <==> placement == 3
    ensures "--fullscreen" in args <==> placement == 4
  {
    var position := ["--position", PositionText(pos)];
    if 0 <= placement <= 2 then
      assert "--maximized" !in position && "--fullscreen" !in position by {
        assert |position[1]| > 0 && position[1][|position[1]| - 1] != 'd' && position[1][|position[1]| - 1] != 'n';
      }
      position
    else if placement == 3 then
      assert "--fullscreen" !in position + ["--maximized"] by {
        assert |position[1]| > 0 && position[1][|position[1]| - 1] != 'n';
      }
      position + ["--maximized"]
    else if placement == 4 then
      assert "--maximized" !in position + ["--fullscreen"] by {
        assert |position[1]| > 0 && position[1][|position[1]| - 1] != 'd';
      }
      position + ["--fullscreen"]
    else []
  }

  // ---- Command line ----

  /** An argument with its spaces written as "%20". */
  function Escape(s: string): (r: string)
    ensures ' ' !in r
    ensures ',' in r <==> ',' in s
  {
    Text.ReplaceCharRemoves(s, ' ', "%20");
    Text.ReplaceKeepsOthers(s, " ", "%20", ',');
    Text.ReplaceAll(s, " ", "%20")
  }

  function EscapeAll(items: seq<string>): (r: seq<string>)
    ensures |r| == |items|
    ensures forall k :: 0 <= k < |r| ==> r[k] == Escape(items[k])
  {
    seq(|items|, k requires 0 <= k < |items| => Escape(items[k]))
  }

  /** `--breakpoints` and the list, only when there are breakpoints. */
  function BreakpointArgs(breakpoints: seq<string>): seq<string>
  {
    if breakpoints == [] then [] else ["--breakpoints", Text.Join(EscapeAll(breakpoints), ",")]
  }

  /** The values the new process is told about the editor. */
  datatype RunEnv = RunEnv(
    resourcePath: string,
    remoteHost: string,
    remotePort: int,
    processId: int,
    screenOption: int,
    currentScreen: int,
    screenCount: int,
    disableCrashHandler: bool,
    screenPosition: int -> Point,
    screenSize: int -> Point,
    windowSize: Point,
    testSize: Point,
    windowPlacement: int,
    customPosition: Point,
    hidpiAllowed: bool,
    hidpiProject: bool,
    maxScale: real)

  /** The window size the project asks for: the test size when both its sides are set. */
  function DesiredSize(env: RunEnv): (size: Point)
    ensures env.testSize.x > 0.0 && env.testSize.y > 0.0 ==> size == env.testSize
    ensures !(env.testSize.x > 0.0 && env.testSize.y > 0.0) ==> size == env.windowSize
  {
    if env.testSize.x > 0.0 && env.testSize.y > 0.0 then env.testSize else env.windowSize
  }

  /** The window position, on the chosen screen's rectangle after display scaling. */
  function WindowPosition(env: RunEnv): Point
    requires env.maxScale > 0.0
  {
    var screen := SelectScreen(env.screenOption, env.currentScreen, env.screenCount);
    var scale := DisplayScale(env.hidpiAllowed, env.hidpiProject, env.maxScale);
    PlacedPosition(env.windowPlacement, Scaled(env.screenPosition(screen), scale),
                   Scaled(env.screenSize(screen), scale), DesiredSize(env), env.customPosition)
  }

  function PathArgs(resourcePath: string): seq<string>
  {
    if resourcePath != "" then ["--path", Escape(resourcePath)] else []
  }

  function DebuggerArgs(env: RunEnv): seq<string>
  {
    ["--remote-debug", env.remoteHost + ":" + Text.IntToString(env.remotePort),
     "--allow_focus_steal_pid", Text.IntToString(env.processId)]
  }

  function Flag(on: bool, name: string): seq<string>
  {
    if on then [name] else []
  }

  /** Everything after the debugger arguments, in order, with the window placement's arguments given. */
  function RunOptions(debugCollisions: bool, debugNavigation: bool, disableCrashHandler: bool, placement: seq<string>,
                      scene: string, customArgs: string, breakpoints: seq<string>, skipBreakpoints: bool): seq<string>
  {
    Flag(debugCollisions, "--debug-collisions") + Flag(debugNavigation, "--debug-navigation")
    + Flag(disableCrashHandler, "--disable-crash-handler") + placement
    + BreakpointArgs(breakpoints) + Flag(skipBreakpoints, "--skip-breakpoints")
    + Flag(scene != "", scene) + Text.SplitNonEmpty(customArgs, " ")
  }

  /** The whole command line `run` hands to the new process, in order. */
  function LaunchArgs(env: RunEnv, debugCollisions: bool, debugNavigation: bool, scene: string,
                      customArgs: string, breakpoints: seq<string>, skipBreakpoints: bool): seq<string>
    requires env.maxScale > 0.0
  {
    PathArgs(env.resourcePath) + DebuggerArgs(env)
    + RunOptions(debugCollisions, debugNavigation, env.disableCrashHandler,
                 PlacementArgs(env.windowPlacement, WindowPosition(env)), scene, customArgs, breakpoints, skipBreakpoints)
  }

  /** The command line opens with the project path (when there is one), then the debugger's address and the editor's process id. */
  lemma LaunchArgsPrefix(env: RunEnv, debugCollisions: bool, debugNavigation: bool, scene: string,
                         customArgs: string, breakpoints: seq<string>, skipBreakpoints: bool)
    requires env.maxScale > 0.0
    ensures var args := LaunchArgs(env, debugCollisions, debugNavigation, scene, customArgs, breakpoints, skipBreakpoints);
      var n := if env.resourcePath != "" then 2 else 0;
      && (env.resourcePath != "" ==> args[..2] == ["--path", Escape(env.resourcePath)])
      && args[n..n + 4] == ["--remote-debug", env.remoteHost + ":" + Text.IntToString(env.remotePort),
                            "--allow_focus_steal_pid", Text.IntToString(env.processId)]
  {
    var head := PathArgs(env.resourcePath) + DebuggerArgs(env);
    var args := LaunchArgs(env, debugCollisions, debugNavigation, scene, customArgs, breakpoints, skipBreakpoints);
    assert args[..|head|] == head;
  }

  /**
   * The `--breakpoints` value: the breakpoints with their spaces escaped,
   * separated by commas.
   */
  method BreakpointList(breakpoints: seq<string>) returns (bpoints: string)
    ensures bpoints == Text.Join(EscapeAll(breakpoints), ",")
  {
    var escaped := EscapeAll(breakpoints);
    bpoints := "";
    var i := 0;
    while i < |breakpoints|
      invariant 0 <= i <= |breakpoints|
      invariant i == 0 ==> bpoints == ""
      invariant 0 < i ==> bpoints == Text.Join(escaped[..i], ",") + (if i < |breakpoints| then "," else "")
    {
      var piece := Escape(breakpoints[i]);
      ghost var joined := bpoints + piece;
      assert joined == Text.Join(escaped[..i + 1], ",") by {
        assert escaped[..i + 1] == escaped[..i] + [piece];
        if i > 0 {
          Text.JoinSnoc(escaped[..i], piece, ",");
        }
      }
      bpoints := bpoints + piece;
      if i + 1 < |breakpoints| {
        bpoints := bpoints + ",";
      }
      i := i + 1;
    }
    assert escaped[..i] == escaped;
  }

  /** The breakpoint list carries no space and, when no breakpoint holds a comma, splits back into the breakpoints. */
  lemma BreakpointListSplitsBack(breakpoints: seq<string>)
    requires breakpoints != []
    requires forall k :: 0 <= k < |breakpoints| ==> ',' !in breakpoints[k]
    ensures Text.Split(Text.Join(EscapeAll(breakpoints), ","), ",") == EscapeAll(breakpoints)
  {
    Text.SplitJoin(EscapeAll(breakpoints), ',');
  }

  lemma {:induction false} JoinLacks(parts: seq<string>, sep: string, c: char)
    requires c !in sep
    requires forall k :: 0 <= k < |parts| ==> c !in parts[k]
    ensures c !in Text.Join(parts, sep)
    decreases |parts|
  {
    if |parts| > 1 {
      JoinLacks(parts[1..], sep, c);
    }
  }

  /** The breakpoint list is a single argument: it has no space. */
  lemma BreakpointListHasNoSpace(breakpoints: seq<string>)
    ensures ' ' !in Text.Join(EscapeAll(breakpoints), ",")
  {
    JoinLacks(EscapeAll(breakpoints), ",", ' ');
  }

  /**
   * The custom arguments: split on spaces with empty pieces dropped; the
   * "%20" escape each piece goes through never applies, since no piece has
   * a space.
   */
  method CustomArgs(customArgs: string) returns (cargs: seq<string>)
    ensures cargs == Text.SplitNonEmpty(customArgs, " ")
  {
    cargs := [];
    if customArgs != "" {
      var pieces := Text.SplitNonEmpty(customArgs, " ");
      Text.SplitNonEmptyLacksSeparator(customArgs, ' ');
      var i := 0;
      while i < |pieces|
        invariant 0 <= i <= |pieces|
        invariant cargs == pieces[..i]
      {
        Text.CharAbsent(pieces[i], ' ');
        Text.ReplaceAbsent(pieces[i], " ", "%20");
        cargs := cargs + [Escape(pieces[i])];
        i := i + 1;
      }
      assert pieces[..i] == pieces;
    } else {
      assert !Text.Contains(customArgs, " ");
      assert Text.Split(customArgs, " ") == [""];
    }
  }

  /** The command line `run` builds, argument by argument. */
  method BuildArgs(env: RunEnv, debugCollisions: bool, debugNavigation: bool, scene: string, customArgs: string,
                   breakpoints: seq<string>, skipBreakpoints: bool) returns (args: seq<string>)
    requires env.maxScale > 0.0
    ensures args == LaunchArgs(env, debugCollisions, debugNavigation, scene, customArgs, breakpoints, skipBreakpoints)
  {
    args := [];
    if env.resourcePath != "" {
      args := args + ["--path", Escape(env.resourcePath)];
    }
    args := args + ["--remote-debug", env.remoteHost + ":" + Text.IntToString(env.remotePort)];
    args := args + ["--allow_focus_steal_pid", Text.IntToString(env.processId)];
    assert args == PathArgs(env.resourcePath) + DebuggerArgs(env);
    var placement := PlacementArgs(env.windowPlacement, WindowPosition(env));
    var options := RunOptionArgs(debugCollisions, debugNavigation, env.disableCrashHandler, placement,
                                 scene, customArgs, breakpoints, skipBreakpoints);
    args := args + options;
  }

  /** The arguments after the debugger's, in the order `run` pushes them. */
  method RunOptionArgs(debugCollisions: bool, debugNavigation: bool, disableCrashHandler: bool, placement: seq<string>,
                       scene: string, customArgs: string, breakpoints: seq<string>, skipBreakpoints: bool)
    returns (args: seq<string>)
    ensures args == RunOptions(debugCollisions, debugNavigation, disableCrashHandler, placement,
                               scene, customArgs, breakpoints, skipBreakpoints)
  {
    args := [];
    if debugCollisions {
      args := args + ["--debug-collisions"];
    }
    if debugNavigation {
      args := args + ["--debug-navigation"];
    }
    if disableCrashHandler {
      args := args + ["--disable-crash-handler"];
    }
    ghost var flags := args;
    assert flags == Flag(debugCollisions, "--debug-collisions") + Flag(debugNavigation, "--debug-navigation")
      + Flag(disableCrashHandler, "--disable-crash-handler");
    args := args + placement;
    var debugging: seq<string> := [];
    if |breakpoints| > 0 {
      var bpoints := BreakpointList(breakpoints);
      debugging := ["--breakpoints", bpoints];
    }
    if skipBreakpoints {
      debugging := debugging + ["--skip-breakpoints"];
    }
    assert debugging == BreakpointArgs(breakpoints) + Flag(skipBreakpoints, "--skip-breakpoints");
    args := args + debugging;
    if scene != "" {
      args := args + [scene];
    }
    ghost var sceneArg := Flag(scene != "", scene);
    assert args == flags + placement + debugging + sceneArg;
    var cargs := CustomArgs(customArgs);
    args := args + cargs;
    assert args == flags + placement + BreakpointArgs(breakpoints) + Flag(skipBreakpoints, "--skip-breakpoints")
      + sceneArg + cargs by {
      Associative(flags + placement, BreakpointArgs(breakpoints), Flag(skipBreakpoints, "--skip-breakpoints"));
    }
  }

  lemma Associative(a: seq<string>, b: seq<string>, c: seq<string>)
    ensures a + (b + c) == a + b + c
  {
  }

  // ---- The launcher ----

  datatype Status = StatusPlay | StatusPaused | StatusStop

  /** What `OS::execute` did: started the process with an id, or failed with a non-zero error. */
  datatype Launch = Launched(pid: int) | Failed(err: int)

  const OK := 0

  class EditorRun {
    var status: Status
    var runningScene: string
    var pid: int
    var debugCollisions: bool
    var debugNavigation: bool

    /** Stopped, with no scene and both debug flags off; the process id is left as it is. */
    constructor (initialPid: int)
      ensures status == StatusStop && runningScene == "" && pid == initialPid
      ensures !debugCollisions && !debugNavigation
    {
      status := StatusStop;
      runningScene := "";
      pid := initialPid;
      debugCollisions := false;
      debugNavigation := false;
    }

    /**
     * `run`: builds the command line and launches it. On success the status
     * is Play, the process id is kept and a non-empty scene becomes the
     * running one; on failure the error is returned and only the process id
     * (reset before the launch) has changed.
     */
    method Run(env: RunEnv, scene: string, customArgs: string, breakpoints: seq<string>,
               skipBreakpoints: bool, launch: Launch) returns (err: int, args: seq<string>)
      requires env.maxScale > 0.0
      requires launch.Failed? ==> launch.err != OK
      modifies this
      ensures args == LaunchArgs(env, old(debugCollisions), old(debugNavigation), scene, customArgs, breakpoints, skipBreakpoints)
      ensures debugCollisions == old(debugCollisions) && debugNavigation == old(debugNavigation)
      ensures launch.Launched? ==>
        && err == OK && status == StatusPlay && pid == launch.pid
        && runningScene == (if scene != "" then scene else old(runningScene))
      ensures launch.Failed? ==>
        err == launch.err && status == old(status) && runningScene == old(runningScene) && pid == 0
    {
      args := BuildArgs(env, debugCollisions, debugNavigation, scene, customArgs, breakpoints, skipBreakpoints);
      pid := 0;
      match launch
      case Failed(e) =>
        err := e;
        return;
      case Launched(p) =>
        pid := p;
      status := StatusPlay;
      if scene != "" {
        runningScene := scene;
      }
      err := OK;
    }

    /** `stop`: the process is killed only when running with a known id; then the status is Stop and no scene runs. */
    method Stop() returns (killed: bool)
      modifies this
      ensures status == StatusStop && runningScene == "" && pid == old(pid)
      ensures killed <==> old(status) != StatusStop && old(pid) != 0
      ensures debugCollisions == old(debugCollisions) && debugNavigation == old(debugNavigation)
    {
      killed := status != StatusStop && pid != 0;
      status := StatusStop;
      runningScene := "";
    }
  }
}
