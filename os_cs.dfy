/**
 * The `OS` helpers of the C# editor tools
 * (modules/mono/editor/GodotTools/GodotTools/Utils/OS.cs): platform names
 * and ids, the platform tests, the PATH separator, the executable search
 * of `PathWhich` and the argument string handed to a started process.
 *
 * What the runtime provides is a parameter, gathered in a `Host`: the
 * platform name the engine reports, the `PATH` and `PATHEXT` variables,
 * the invalid path characters, the current directory, `Path.Combine`,
 * `Path.GetExtension`, `File.Exists` and the Unix executable test.
 * Ignoring case is modelled on ASCII letters only.
 */
module MonoOs {
  import opened Wrappers
  import opened Text

  // ---- Platform names ----

  const Windows: string := "Windows"
  const Osx: string := "OSX"
  const X11: string := "X11"
  const Server: string := "Server"
  const Uwp: string := "UWP"
  const Haiku: string := "Haiku"
  const Android: string := "Android"
  const Ios: string := "iOS"
  const Html5: string := "HTML5"

  /** `PlatformNameMap`: the platform name the engine reports to the id of its export platform. */
  const PlatformNameMap: map<string, string> := map[
    Windows := "windows", Osx := "osx", X11 := "x11", Server := "server", Uwp := "uwp",
    Haiku := "haiku", Android := "android", Ios := "iphone", Html5 := "javascript"]

  /** The ASCII upper case of a character. */
  function Upper(c: char): (u: char)
    ensures 'a' <= c <= 'z' ==> u as int == c as int - 32
    ensures !('a' <= c <= 'z') ==> u == c
  {
    if 'a' <= c <= 'z' then (c as int - 32) as char else c
  }

  /** `Equals(..., StringComparison.OrdinalIgnoreCase)`. */
  predicate SameIgnoringCase(a: string, b: string)
  {
    |a| == |b| && forall i :: 0 <= i < |a| ==> Upper(a[i]) == Upper(b[i])
  }

  /** Ignoring case is an equivalence. */
  lemma SameIgnoringCaseEquivalence(a: string, b: string, c: string)
    ensures SameIgnoringCase(a, a)
    ensures SameIgnoringCase(a, b) ==> SameIgnoringCase(b, a)
    ensures SameIgnoringCase(a, b) && SameIgnoringCase(b, c) ==> SameIgnoringCase(a, c)
  {
  }

  /** Two strings that differ at `i` in more than case are not the same ignoring case. */
  lemma DiffersAt(a: string, b: string, i: nat)
    requires i < |a| && i < |b| && Upper(a[i]) != Upper(b[i])
    ensures !SameIgnoringCase(a, b)
  {
  }

  /** `IsOS(name)`: the reported platform is `name`, ignoring case. */
  predicate IsOs(name: string, platform: string)
  {
    SameIgnoringCase(name, platform)
  }

  /** `IsWindows`: Windows, or UWP. */
  predicate IsWindows(platform: string)
  {
    IsOs(Windows, platform) || IsOs(Uwp, platform)
  }

  const UnixLikePlatforms: seq<string> := [Osx, X11, Server, Haiku, Android, Ios]

  /** `IsUnixLike`: one of the Unix-like platforms, ignoring case. */
  predicate IsUnixLike(platform: string)
  {
    exists i :: 0 <= i < |UnixLikePlatforms| && IsOs(UnixLikePlatforms[i], platform)
  }

  /** No platform is both Windows-like and Unix-like. */
  lemma WindowsIsNotUnixLike(platform: string)
    ensures !(IsWindows(platform) && IsUnixLike(platform))
  {
    if IsWindows(platform) && IsUnixLike(platform) {
      var i :| 0 <= i < |UnixLikePlatforms| && IsOs(UnixLikePlatforms[i], platform);
      var n := UnixLikePlatforms[i];
      DiffersAt(Windows, n, 0);
      DiffersAt(Uwp, n, 0);
      SameIgnoringCaseEquivalence(Windows, platform, n);
      SameIgnoringCaseEquivalence(n, platform, n);
      SameIgnoringCaseEquivalence(Uwp, platform, n);
      assert false;
    }
  }

  /** `PathSep`: ';' on Windows and UWP, ':' elsewhere. */
  function PathSep(platform: string): (c: char)
    ensures c == ';' <==> IsWindows(platform)
    ensures c == ':' <==> !IsWindows(platform)
  {
    if IsWindows(platform) then ';' else ':'
  }

  /** The platform ids are distinct, and each is its name in lower case except the iOS and HTML5 ids. */
  lemma PlatformIds()
    ensures forall a, b :: a in PlatformNameMap && b in PlatformNameMap && a != b ==> PlatformNameMap[a] != PlatformNameMap[b]
    ensures forall n :: n in PlatformNameMap && n != Ios && n != Html5 ==> SameIgnoringCase(PlatformNameMap[n], n)
    ensures PlatformNameMap[Ios] == "iphone" && PlatformNameMap[Html5] == "javascript"
  {
  }

  // ---- The argument string ----

  /** An argument holding a space goes in double quotes; nothing is escaped. */
  function Quoted(arg: string): string
  {
    if ' ' in arg then "\"" + arg + "\"" else arg
  }

  function QuoteEach(args: seq<string>): (r: seq<string>)
    ensures |r| == |args|
    ensures forall k :: 0 <= k < |args| ==> r[k] == Quoted(args[k])
  {
    if args == [] then [] else [Quoted(args[0])] + QuoteEach(args[1..])
  }

  /** `CmdLineArgsToString`: the arguments, each quoted when it holds a space, joined by single spaces. */
  function CmdLineArgsToString(args: seq<string>): string
  {
    Join(QuoteEach(args), " ")
  }

  /**
   * How the started process splits its command line back into arguments,
   * without backslash escapes: spaces outside double quotes separate
   * arguments, and double quotes group and are dropped. `cur` is the
   * argument being read, `seen` whether one was started, `quoted` whether a
   * quote is open, and `acc` the arguments read so far.
   */
  function Scan(s: string, cur: string, seen: bool, quoted: bool, acc: seq<string>): seq<string>
    decreases |s|
  {
    if s == [] then (if seen then acc + [cur] else acc)
    else if s[0] == '"' then Scan(s[1..], cur, true, !quoted, acc)
    else if s[0] == ' ' && !quoted then Scan(s[1..], "", false, false, if seen then acc + [cur] else acc)
    else Scan(s[1..], cur + [s[0]], true, quoted, acc)
  }

  function ParseArgs(s: string): seq<string>
  {
    Scan(s, "", false, false, [])
  }

  /** Characters that are neither quotes nor, outside quotes, spaces are copied into the argument. */
  lemma {:induction false} ScanPlain(w: string, t: string, cur: string, seen: bool, quoted: bool, acc: seq<string>)
    requires '"' !in w && (quoted || ' ' !in w)
    ensures Scan(w + t, cur, seen, quoted, acc) == Scan(t, cur + w, seen || w != "", quoted, acc)
    decreases |w|
  {
    if w != "" {
      assert (w + t)[0] == w[0] && (w + t)[1..] == w[1..] + t;
      ScanPlain(w[1..], t, cur + [w[0]], true, quoted, acc);
      assert cur + [w[0]] + w[1..] == cur + w;
    } else {
      assert w + t == t && cur + w == cur;
    }
  }

  /** A non-empty argument without quotes reads back whole from its quoted form. */
  lemma ScanQuoted(a: string, t: string, acc: seq<string>)
    requires a != "" && '"' !in a
    ensures Scan(Quoted(a) + t, "", false, false, acc) == Scan(t, a, true, false, acc)
  {
    if ' ' in a {
      var q := "\"" + a + "\"" + t;
      assert q[0] == '"' && q[1..] == a + ("\"" + t);
      ScanPlain(a, "\"" + t, "", true, true, acc);
      assert "" + a == a;
      assert ("\"" + t)[1..] == t;
    } else {
      ScanPlain(a, t, "", false, false, acc);
      assert "" + a == a;
    }
  }

  /** A list of two or more arguments: the first, quoted as needed, a space, and the rest. */
  lemma JoinQuoted(args: seq<string>)
    requires |args| > 1
    ensures CmdLineArgsToString(args) == Quoted(args[0]) + (" " + CmdLineArgsToString(args[1..]))
  {
    assert QuoteEach(args)[1..] == QuoteEach(args[1..]);
  }

  /** A space outside quotes ends the argument being read. */
  lemma ScanSpace(rest: string, cur: string, acc: seq<string>)
    ensures Scan(" " + rest, cur, true, false, acc) == Scan(rest, "", false, false, acc + [cur])
  {
    assert (" " + rest)[0] == ' ' && (" " + rest)[1..] == rest;
  }

  /** A non-empty argument without double quotes. */
  predicate Plain(arg: string)
  {
    arg != "" && '"' !in arg
  }

  lemma ScanOne(a: string, acc: seq<string>)
    requires Plain(a)
    ensures Scan(CmdLineArgsToString([a]), "", false, false, acc) == acc + [a]
  {
    assert CmdLineArgsToString([a]) == Quoted(a) + "";
    ScanQuoted(a, "", acc);
  }

  lemma ScanFirst(args: seq<string>, acc: seq<string>)
    requires |args| > 1 && Plain(args[0])
    ensures Scan(CmdLineArgsToString(args), "", false, false, acc) == Scan(CmdLineArgsToString(args[1..]), "", false, false, acc + [args[0]])
  {
    var rest := CmdLineArgsToString(args[1..]);
    JoinQuoted(args);
    ScanQuoted(args[0], " " + rest, acc);
    ScanSpace(rest, args[0], acc);
  }

  lemma {:induction false} ScanJoined(args: seq<string>, acc: seq<string>)
    requires forall k :: 0 <= k < |args| ==> Plain(args[k])
    ensures Scan(CmdLineArgsToString(args), "", false, false, acc) == acc + args
    decreases |args|
  {
    if |args| == 1 {
      ScanOne(args[0], acc);
    } else if |args| > 1 {
      var rest := CmdLineArgsToString(args[1..]);
      ScanFirst(args, acc);
      ScanJoined(args[1..], acc + [args[0]]);
      assert acc + [args[0]] + args[1..] == acc + args by { assert args == [args[0]] + args[1..]; }
    }
  }

  /** Arguments that are non-empty and hold no double quote come back unchanged, spaces and all. */
  lemma CmdLineRoundTrip(args: seq<string>)
    requires forall k :: 0 <= k < |args| ==> Plain(args[k])
    ensures ParseArgs(CmdLineArgsToString(args)) == args
  {
    ScanJoined(args, []);
  }

  /** An empty argument is not quoted, so it is lost. */
  lemma EmptyArgumentLost()
    ensures CmdLineArgsToString(["a", "", "b"]) == "a  b"
    ensures ParseArgs(CmdLineArgsToString(["a", "", "b"])) == ["a", "b"]
  {
    assert QuoteEach(["a", "", "b"]) == ["a", "", "b"];
    assert Join(["a", "", "b"], " ") == "a" + " " + ("" + " " + "b");
    assert "a  b" == "a" + "  b" && "  b" == " " + " b" && "" + "a" == "a" && [] + ["a"] == ["a"];
    ScanPlain("a", "  b", "", false, false, []);
    ScanSpace(" b", "a", []);
    assert (" b")[0] == ' ' && (" b")[1..] == "b";
    assert Scan(" b", "", false, false, ["a"]) == Scan("b", "", false, false, ["a"]);
    assert "b" + "" == "b" && "" + "b" == "b";
    ScanPlain("b", "", "", false, false, ["a"]);
  }

  // ---- The executable search ----

  /** What `PathWhich` asks of the runtime. */
  datatype Host = Host(
    platform: string,
    path: Option<string>,
    pathExt: Option<string>,
    invalidChars: set<char>,
    cwd: string,
    combine: (string, string) -> string,
    extension: string -> string,
    fileExists: string -> bool,
    executable: string -> bool)

  /** A directory without any invalid path character. */
  predicate Usable(dir: string, invalid: set<char>)
  {
    forall k :: 0 <= k < |dir| ==> dir[k] !in invalid
  }

  /** The usable directories, in order. */
  function KeepUsable(dirs: seq<string>, invalid: set<char>): (r: seq<string>)
    ensures forall k :: 0 <= k < |r| ==> Usable(r[k], invalid)
    ensures forall d :: d in r <==> d in dirs && Usable(d, invalid)
  {
    if dirs == [] then []
    else if Usable(dirs[0], invalid) then [dirs[0]] + KeepUsable(dirs[1..], invalid)
    else KeepUsable(dirs[1..], invalid)
  }

  /** Filtering keeps the order: the filtered halves of a list, one after the other. */
  lemma {:induction false} KeepUsableAppend(a: seq<string>, b: seq<string>, invalid: set<char>)
    ensures KeepUsable(a + b, invalid) == KeepUsable(a, invalid) + KeepUsable(b, invalid)
    decreases |a|
  {
    if a != [] {
      assert (a + b)[0] == a[0] && (a + b)[1..] == a[1..] + b;
      KeepUsableAppend(a[1..], b, invalid);
    } else {
      assert a + b == b;
    }
  }

  /** The entries of a variable split on the platform's separator; none when the variable is unset. */
  function Entries(v: Option<string>, platform: string): seq<string>
  {
    if v.None? then [] else Split(v.value, [PathSep(platform)])
  }

  /** The search directories: the usable `PATH` entries in order, then the current directory. */
  function SearchDirList(h: Host): (dirs: seq<string>)
    ensures |dirs| >= 1 && dirs[|dirs| - 1] == h.cwd
  {
    KeepUsable(Entries(h.path, h.platform), h.invalidChars) + [h.cwd]
  }

  /** The loop of `PathWhichWindows` and `PathWhichUnix` that fills `searchDirs`. */
  method SearchDirs(h: Host) returns (dirs: seq<string>)
    ensures dirs == SearchDirList(h)
  {
    dirs := [];
    var pathDirs := Entries(h.path, h.platform);
    var i := 0;
    while i < |pathDirs|
      invariant 0 <= i <= |pathDirs|
      invariant dirs == KeepUsable(pathDirs[..i], h.invalidChars)
    {
      assert pathDirs[..i + 1] == pathDirs[..i] + [pathDirs[i]];
      KeepUsableAppend(pathDirs[..i], [pathDirs[i]], h.invalidChars);
      if Usable(pathDirs[i], h.invalidChars) {
        dirs := dirs + [pathDirs[i]];
      }
      i := i + 1;
    }
    assert pathDirs[..i] == pathDirs;
    dirs := dirs + [h.cwd];
  }

  /** `FirstOrDefault(p)`: the first candidate `p` accepts, or null. */
  function FirstMatch(cands: seq<string>, p: string -> bool): (r: Option<string>)
    ensures r.None? <==> forall i :: 0 <= i < |cands| ==> !p(cands[i])
    ensures r.Some? ==> p(r.value) && exists i :: 0 <= i < |cands| && cands[i] == r.value && forall j :: 0 <= j < i ==> !p(cands[j])
  {
    if cands == [] then None
    else if p(cands[0]) then Some(cands[0])
    else
      var r := FirstMatch(cands[1..], p);
      assert forall i :: 1 <= i < |cands| ==> cands[i] == cands[1..][i - 1];
      r
  }

  /** A search through two lists is the search through the first, else through the second. */
  lemma {:induction false} FirstMatchAppend(a: seq<string>, b: seq<string>, p: string -> bool)
    ensures FirstMatch(a + b, p) == if FirstMatch(a, p).Some? then FirstMatch(a, p) else FirstMatch(b, p)
    decreases |a|
  {
    if a != [] {
      assert (a + b)[0] == a[0] && (a + b)[1..] == a[1..] + b;
      FirstMatchAppend(a[1..], b, p);
    } else {
      assert a + b == b;
    }
  }

  /** `dir/name` for each directory, in order. */
  function Combined(dirs: seq<string>, name: string, combine: (string, string) -> string): (r: seq<string>)
    ensures |r| == |dirs|
    ensures forall k :: 0 <= k < |dirs| ==> r[k] == combine(dirs[k], name)
  {
    if dirs == [] then [] else [combine(dirs[0], name)] + Combined(dirs[1..], name, combine)
  }

  /** The path followed by each extension, in order. */
  function WithExts(path: string, exts: seq<string>): (r: seq<string>)
    ensures |r| == |exts|
    ensures forall k :: 0 <= k < |exts| ==> r[k] == path + exts[k]
  {
    if exts == [] then [] else [path + exts[0]] + WithExts(path, exts[1..])
  }

  /** The query of `PathWhichWindows` without a known extension: every extension of the first directory, then of the next. */
  function Candidates(dirs: seq<string>, name: string, exts: seq<string>, combine: (string, string) -> string): seq<string>
  {
    if dirs == [] then [] else WithExts(combine(dirs[0], name), exts) + Candidates(dirs[1..], name, exts, combine)
  }

  /** Directory by directory: the first directory where some extension names an existing file, with the first such extension. */
  function DirByDir(dirs: seq<string>, name: string, exts: seq<string>, combine: (string, string) -> string, fileExists: string -> bool): Option<string>
  {
    if dirs == [] then None
    else if FirstMatch(WithExts(combine(dirs[0], name), exts), fileExists).Some? then FirstMatch(WithExts(combine(dirs[0], name), exts), fileExists)
    else DirByDir(dirs[1..], name, exts, combine, fileExists)
  }

  /** The flat query searches directories first and extensions second. */
  lemma {:induction false} CandidatesDirectoryFirst(dirs: seq<string>, name: string, exts: seq<string>, combine: (string, string) -> string, fileExists: string -> bool)
    ensures FirstMatch(Candidates(dirs, name, exts, combine), fileExists) == DirByDir(dirs, name, exts, combine, fileExists)
    decreases |dirs|
  {
    if dirs != [] {
      FirstMatchAppend(WithExts(combine(dirs[0], name), exts), Candidates(dirs[1..], name, exts, combine), fileExists);
      CandidatesDirectoryFirst(dirs[1..], name, exts, combine, fileExists);
    }
  }

  /** `Contains(ext, StringComparer.OrdinalIgnoreCase)`. */
  predicate ListedIgnoringCase(ext: string, exts: seq<string>)
  {
    exists k :: 0 <= k < |exts| && SameIgnoringCase(exts[k], ext)
  }

  /** `PathWhichWindows`. */
  function WhichWindows(h: Host, name: string): Option<string>
  {
    var exts := Entries(h.pathExt, h.platform);
    var dirs := SearchDirList(h);
    var ext := h.extension(name);
    if ext != "" && ListedIgnoringCase(ext, exts) then FirstMatch(Combined(dirs, name, h.combine), h.fileExists)
    else FirstMatch(Candidates(dirs, name, exts, h.combine), h.fileExists)
  }

  /** A file the Unix search accepts: it exists and may be executed. */
  function Runnable(h: Host): string -> bool
  {
    path => h.fileExists(path) && h.executable(path)
  }

  /** `PathWhichUnix`. */
  function WhichUnix(h: Host, name: string): Option<string>
  {
    FirstMatch(Combined(SearchDirList(h), name, h.combine), Runnable(h))
  }

  /** `PathWhich`: the Windows search on Windows and UWP, the Unix search elsewhere. */
  function Which(h: Host, name: string): (r: Option<string>)
    ensures IsWindows(h.platform) ==> r == WhichWindows(h, name)
    ensures !IsWindows(h.platform) ==> r == WhichUnix(h, name)
  {
    if IsWindows(h.platform) then WhichWindows(h, name) else WhichUnix(h, name)
  }

  /**
   * The Unix search finds the first search directory holding an existing
   * executable `name`, the current directory last, and nothing when none does.
   */
  lemma UnixSearchOrder(h: Host, name: string)
    ensures var dirs := SearchDirList(h);
      && (WhichUnix(h, name).None? <==> forall i :: 0 <= i < |dirs| ==> !(h.fileExists(h.combine(dirs[i], name)) && h.executable(h.combine(dirs[i], name))))
      && (WhichUnix(h, name).Some? ==>
            exists i :: (0 <= i < |dirs| && WhichUnix(h, name).value == h.combine(dirs[i], name)
              && h.fileExists(h.combine(dirs[i], name)) && h.executable(h.combine(dirs[i], name))
              && forall j :: 0 <= j < i ==> !(h.fileExists(h.combine(dirs[j], name)) && h.executable(h.combine(dirs[j], name)))))
  {
  }

  /**
   * Without a listed extension the Windows search takes the first directory
   * holding `name` with some extension, trying the extensions in order;
   * with one it takes the first directory holding `name` itself.
   */
  lemma WindowsSearchOrder(h: Host, name: string)
    ensures var exts := Entries(h.pathExt, h.platform);
      var ext := h.extension(name);
      && (!(ext != "" && ListedIgnoringCase(ext, exts)) ==> WhichWindows(h, name) == DirByDir(SearchDirList(h), name, exts, h.combine, h.fileExists))
      && (ext != "" && ListedIgnoringCase(ext, exts) ==> WhichWindows(h, name) == FirstMatch(Combined(SearchDirList(h), name, h.combine), h.fileExists))
  {
    CandidatesDirectoryFirst(SearchDirList(h), name, Entries(h.pathExt, h.platform), h.combine, h.fileExists);
  }

  /** Without `PATHEXT` there are no extensions to try, so the Windows search finds nothing. */
  lemma {:induction false} WindowsWithoutPathExt(h: Host, name: string)
    requires h.pathExt.None?
    ensures WhichWindows(h, name).None?
  {
    NoExtensionsNoCandidates(SearchDirList(h), name, h.combine);
  }

  lemma {:induction false} NoExtensionsNoCandidates(dirs: seq<string>, name: string, combine: (string, string) -> string)
    ensures Candidates(dirs, name, [], combine) == []
    decreases |dirs|
  {
    if dirs != [] {
      NoExtensionsNoCandidates(dirs[1..], name, combine);
    }
  }

  /** `PathWhichUnix`, with its directory loop. */
  method PathWhichUnix(h: Host, name: string) returns (r: Option<string>)
    ensures r == WhichUnix(h, name)
  {
    var dirs := SearchDirs(h);
    r := FirstMatch(Combined(dirs, name, h.combine), Runnable(h));
  }

  /** `PathWhichWindows`, with its directory loop. */
  method PathWhichWindows(h: Host, name: string) returns (r: Option<string>)
    ensures r == WhichWindows(h, name)
  {
    var exts := Entries(h.pathExt, h.platform);
    var dirs := SearchDirs(h);
    var ext := h.extension(name);
    var hasPathExt := ext != "" && ListedIgnoringCase(ext, exts);
    if hasPathExt {
      r := FirstMatch(Combined(dirs, name, h.combine), h.fileExists);
    } else {
      r := FirstMatch(Candidates(dirs, name, exts, h.combine), h.fileExists);
    }
  }

  /** `PathWhich`. */
  method PathWhich(h: Host, name: string) returns (r: Option<string>)
    ensures r == Which(h, name)
  {
    if IsWindows(h.platform) {
      r := PathWhichWindows(h, name);
    } else {
      r := PathWhichUnix(h, name);
    }
  }
}
