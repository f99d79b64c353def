/**
 * Loggers of core/io/logger.cpp: the print switches, the error report, the
 * pruning of a rotated log's old backups, and the composite logger that
 * forwards to its children.
 *
 * `_print_error_enabled` and `_print_line_enabled` are parameters. A
 * directory listing is a sequence of entries; `String::get_extension` is a
 * parameter. Strings compare as `String::operator<` does: character by
 * character, a proper prefix first.
 */
module Logger {
  import opened Wrappers
  import Text

  /** `Logger::should_log`: errors follow the error switch, other lines the line switch. */
  function ShouldLog(err: bool, printErrorEnabled: bool, printLineEnabled: bool): (r: bool)
    ensures err ==> (r <==> printErrorEnabled)
    ensures !err ==> (r <==> printLineEnabled)
  {
    (!err || printErrorEnabled) && (err || printLineEnabled)
  }

  // ---- Error reports ----

  datatype ErrorType = ErrError | ErrWarning | ErrScript | ErrShader

  function ErrorLabel(t: ErrorType): string
  {
    match t
    case ErrError => "**ERROR**"
    case ErrWarning => "**WARNING**"
    case ErrScript => "**SCRIPT ERROR**"
    case ErrShader => "**SHADER ERROR**"
  }

  /** What `log_error` reports: the rationale when there is one (a null rationale is ""), else the failed code. */
  function ErrorDetails(code: string, rationale: string): (details: string)
    ensures rationale != "" ==> details == rationale
    ensures rationale == "" ==> details == code
  {
    if |rationale| > 0 then rationale else code
  }

  /**
   * `Logger::log_error`: the lines handed to `logf_error`, none when errors
   * are switched off; the first names the type and the details, the second
   * the place and the code.
   */
  function LogErrorLines(function_: string, file: string, line: int, code: string, rationale: string,
                         t: ErrorType, printErrorEnabled: bool, printLineEnabled: bool): (lines: seq<string>)
    ensures !printErrorEnabled ==> lines == []
    ensures printErrorEnabled ==>
      |lines| == 2 && lines[0] == ErrorLabel(t) + ": " + ErrorDetails(code, rationale) + "\n"
  {
    if !ShouldLog(true, printErrorEnabled, printLineEnabled) then []
    else
      var details := if |rationale| > 0 then rationale else code;
      [ErrorLabel(t) + ": " + details + "\n",
       "   At: " + file + ":" + Text.IntToString(line) + ":" + function_ + "() - " + code + "\n"]
  }

  // ---- Backups of a rotated log ----

  datatype DirEntry = DirEntry(name: string, isDir: bool)

  /** `String::operator<`. */
  predicate Less(a: string, b: string)
    decreases |a|
  {
    if a == [] then b != []
    else if b == [] then false
    else if a[0] != b[0] then a[0] < b[0]
    else Less(a[1..], b[1..])
  }

  lemma {:induction false} LessIrreflexive(a: string)
    ensures !Less(a, a)
    decreases |a|
  {
    if a != [] {
      LessIrreflexive(a[1..]);
    }
  }

  lemma {:induction false} LessTransitive(a: string, b: string, c: string)
    requires Less(a, b) && Less(b, c)
    ensures Less(a, c)
    decreases |a|
  {
    if a != [] && b != [] && c != [] && a[0] == b[0] && b[0] == c[0] {
      LessTransitive(a[1..], b[1..], c[1..]);
    }
  }

  lemma {:induction false} LessTotal(a: string, b: string)
    requires a != b
    ensures Less(a, b) || Less(b, a)
    decreases |a|
  {
    if a != [] && b != [] && a[0] == b[0] {
      assert a[1..] != b[1..] by {
        assert a == [a[0]] + a[1..] && b == [b[0]] + b[1..];
      }
      LessTotal(a[1..], b[1..]);
    }
  }

  /** The first element of a `Set<String>`: the one below all others. */
  method Smallest(s: set<string>) returns (m: string)
    requires s != {}
    ensures m in s
    ensures forall x :: x in s && x != m ==> Less(m, x)
  {
    m :| m in s;
    var rest := s - {m};
    while rest != {}
      invariant m in s && rest <= s && m !in rest
      invariant forall x :: x in s && x !in rest && x != m ==> Less(m, x)
      decreases |rest|
    {
      var x :| x in rest;
      if x != m {
        LessTotal(x, m);
      }
      if Less(x, m) {
        forall y | y in s && y !in rest && y != x
          ensures Less(x, y)
        {
          if y != m {
            LessTransitive(x, m, y);
          }
        }
        m := x;
      }
      rest := rest - {x};
    }
  }

  /** The entries `clear_old_backups` takes for backups of the current log file. */
  predicate IsBackup(e: DirEntry, basename: string, extension: string, currentFile: string, extensionOf: string -> string)
  {
    !e.isDir && Text.StartsWith(e.name, basename) && extensionOf(e.name) == extension && e.name != currentFile
  }

  /** The names of the backup entries of a listing. */
  function Backups(listing: seq<DirEntry>, basename: string, extension: string, currentFile: string,
                   extensionOf: string -> string): set<string>
  {
    if listing == [] then {}
    else
      var e := listing[|listing| - 1];
      Backups(listing[..|listing| - 1], basename, extension, currentFile, extensionOf)
        + (if IsBackup(e, basename, extension, currentFile, extensionOf) then {e.name} else {})
  }

  /** A name is a backup exactly when some backup entry of the listing has it. */
  lemma {:induction false} BackupsMembers(listing: seq<DirEntry>, basename: string, extension: string,
                                          currentFile: string, extensionOf: string -> string, x: string)
    ensures x in Backups(listing, basename, extension, currentFile, extensionOf) <==>
      exists k :: 0 <= k < |listing| && listing[k].name == x && IsBackup(listing[k], basename, extension, currentFile, extensionOf)
  {
    if listing != [] {
      var init := listing[..|listing| - 1];
      BackupsMembers(init, basename, extension, currentFile, extensionOf, x);
      if exists k :: 0 <= k < |listing| && listing[k].name == x && IsBackup(listing[k], basename, extension, currentFile, extensionOf) {
        var k :| 0 <= k < |listing| && listing[k].name == x && IsBackup(listing[k], basename, extension, currentFile, extensionOf);
        if k < |init| {
          assert init[k] == listing[k];
        }
      }
      if x in Backups(init, basename, extension, currentFile, extensionOf) {
        var k :| 0 <= k < |init| && init[k].name == x && IsBackup(init[k], basename, extension, currentFile, extensionOf);
        assert listing[k] == init[k];
      }
    }
  }

  /** Strictly ascending in `String::operator<`. */
  predicate Ascending(names: seq<string>)
  {
    forall i, j :: 0 <= i < j < |names| ==> Less(names[i], names[j])
  }

  class RotatedFileLogger {
    const basePath: string
    const maxFiles: int

    /** The constructor keeps at least one file: a count of 0 or less becomes 1. */
    constructor (path: string, files: int)
      ensures basePath == path
      ensures maxFiles >= 1 && (files > 0 ==> maxFiles == files)
    {
      basePath := path;
      maxFiles := if files > 0 then files else 1;
    }

    /**
     * `clear_old_backups`: `listing` is `None` when the log's directory cannot
     * be opened, and otherwise the entries `get_next` gives before its empty
     * name; the result is the names removed, in order. With more
     * backups than `max_files - 1`, exactly the surplus is removed, smallest
     * names first (the timestamped names of the oldest backups); otherwise
     * nothing is.
     */
    method ClearOldBackups(listing: Option<seq<DirEntry>>, basename: string, extension: string,
                           currentFile: string, extensionOf: string -> string) returns (removed: seq<string>)
      requires maxFiles >= 1
      ensures listing.None? ==> removed == []
      ensures listing.Some? ==>
        var backups := Backups(listing.value, basename, extension, currentFile, extensionOf);
        && |removed| == (if |backups| > maxFiles - 1 then |backups| - (maxFiles - 1) else 0)
        && Ascending(removed)
        && (forall k :: 0 <= k < |removed| ==> removed[k] in backups)
        && (forall k, x :: 0 <= k < |removed| && x in backups && x !in removed ==> Less(removed[k], x))
    {
      removed := [];
      var maxBackups := maxFiles - 1;
      if listing.None? {
        return;
      }
      var entries := listing.value;
      var backups: set<string> := {};
      var i := 0;
      while i < |entries|
        invariant 0 <= i <= |entries|
        invariant backups == Backups(entries[..i], basename, extension, currentFile, extensionOf)
      {
        var f := entries[i];
        assert entries[..i + 1][..i] == entries[..i];
        if !f.isDir && Text.StartsWith(f.name, basename) && extensionOf(f.name) == extension && f.name != currentFile {
          backups := backups + {f.name};
        }
        i := i + 1;
      }
      assert entries[..i] == entries;
      if |backups| > maxBackups {
        var toDelete := |backups| - maxBackups;
        removed := DeleteSmallest(backups, toDelete);
      }
    }
  }

  /** The counted loop over the set in ascending order: the first `toDelete` names. */
  method DeleteSmallest(backups: set<string>, toDelete: nat) returns (removed: seq<string>)
    requires toDelete <= |backups|
    ensures |removed| == toDelete && Ascending(removed)
    ensures forall k :: 0 <= k < |removed| ==> removed[k] in backups
    ensures forall k, x :: 0 <= k < |removed| && x in backups && x !in removed ==> Less(removed[k], x)
  {
    removed := [];
    var remaining := backups;
    var left := toDelete;
    while left > 0
      invariant remaining <= backups
      invariant forall x :: x in backups ==> (x in remaining <==> x !in removed)
      invariant |remaining| + |removed| == |backups| && |removed| + left == toDelete
      invariant Ascending(removed)
      invariant forall k, x :: 0 <= k < |removed| && x in remaining ==> Less(removed[k], x)
      invariant forall k :: 0 <= k < |removed| ==> removed[k] in backups
    {
      var e := Smallest(remaining);
      forall k | 0 <= k < |removed| ensures removed[k] != e {
        LessIrreflexive(e);
      }
      removed := removed + [e];
      remaining := remaining - {e};
      left := left - 1;
    }
  }

  // ---- Composite logger ----

  /** A child logger, by identity. */
  type LoggerId = nat

  class CompositeLogger {
    var loggers: seq<LoggerId>

    constructor (children: seq<LoggerId>)
      ensures loggers == children
    {
      loggers := children;
    }

    /** `add_logger`: the new child goes last. */
    method AddLogger(child: LoggerId)
      modifies this
      ensures loggers == old(loggers) + [child]
    {
      loggers := loggers + [child];
    }

    /**
     * `logv` and `log_error`: the children the message is forwarded to, in
     * order; every child when the kind of message is switched on, none otherwise.
     */
    method Forward(err: bool, printErrorEnabled: bool, printLineEnabled: bool) returns (reached: seq<LoggerId>)
      ensures ShouldLog(err, printErrorEnabled, printLineEnabled) ==> reached == loggers
      ensures !ShouldLog(err, printErrorEnabled, printLineEnabled) ==> reached == []
    {
      reached := [];
      if !ShouldLog(err, printErrorEnabled, printLineEnabled) {
        return;
      }
      var i := 0;
      while i < |loggers|
        invariant 0 <= i <= |loggers|
        invariant reached == loggers[..i]
      {
        reached := reached + [loggers[i]];
        i := i + 1;
      }
    }
  }
}
