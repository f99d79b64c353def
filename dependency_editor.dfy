/**
 * The dependency fixer and the remove dialog of editor/dependency_editor.cpp:
 * reading a resource's dependency list, finding a replacement for every
 * missing dependency in the project's file system, and pruning favourites
 * after a removal.
 *
 * The editor's file system is a `Dir` tree; whether a path exists is a
 * parameter. Renaming the dependencies, the tree widgets and moving files to
 * the trash are not modelled: the methods return what they would hand on.
 */
module DependencyEditor {
  import opened Wrappers
  import Text

  // ---- Paths ----

  /** `String::get_file`: the part after the last '/' or '\'. */
  function GetFile(p: string): (f: string)
    ensures '/' !in f && '\\' !in f
    ensures Text.EndsWith(p, f)
    ensures '/' !in p && '\\' !in p ==> f == p
  {
    if p == [] then []
    else if p[|p| - 1] == '/' || p[|p| - 1] == '\\' then []
    else GetFile(p[..|p| - 1]) + [p[|p| - 1]]
  }

  function Reversed(v: seq<string>): (r: seq<string>)
    ensures |r| == |v|
    ensures forall k :: 0 <= k < |r| ==> r[k] == v[|v| - 1 - k]
  {
    seq(|v|, k requires 0 <= k < |v| => v[|v| - 1 - k])
  }

  /** The "/"-components of a path without its "res://", last component first. */
  function Components(p: string): seq<string>
  {
    Reversed(Text.Split(Text.ReplaceFirst(p, "res://", ""), "/"))
  }

  /** How many of the first `n` components of `lost` agree, position by position, with those of `v`. */
  function Agreements(lost: seq<string>, v: seq<string>, n: nat): (count: nat)
    requires n <= |lost|
    ensures count <= n
  {
    if n == 0 then 0
    else Agreements(lost, v, n - 1) + (if n - 1 < |v| && lost[n - 1] == v[n - 1] then 1 else 0)
  }

  /** The score of a candidate path for a lost one: the components, from the file name up, that agree. */
  function Score(lost: string, path: string): nat
  {
    Agreements(Components(lost), Components(path), |Components(lost)|)
  }

  lemma {:induction false} AgreementsSelf(lost: seq<string>, v: seq<string>, n: nat)
    requires n <= |lost|
    ensures Agreements(lost, v, n) <= Agreements(lost, lost, n) == n
  {
    if n > 0 {
      AgreementsSelf(lost, v, n - 1);
    }
  }

  /** No candidate scores more than the lost path itself, which agrees in every component. */
  lemma ScoreAtMostSelf(lost: string, path: string)
    ensures Score(lost, path) <= Score(lost, lost) == |Components(lost)|
  {
    AgreementsSelf(Components(lost), Components(path), |Components(lost)|);
  }

  // ---- Candidates ----

  /** A file of the editor's file system: its name and its full path. */
  datatype FileEntry = FileEntry(name: string, path: string)

  /** An `EditorFileSystemDirectory`: subdirectories, then files. */
  datatype Dir = Dir(subdirs: seq<Dir>, files: seq<FileEntry>)

  /** The files in the order `_fix_and_find` visits them: every subdirectory first, depth first, then the directory's own files. */
  function Files(d: Dir): seq<FileEntry>
    decreases d, 1
  {
    FilesIn(d.subdirs, d) + d.files
  }

  function FilesIn(ds: seq<Dir>, parent: Dir): seq<FileEntry>
    requires forall k :: 0 <= k < |ds| ==> ds[k] < parent
    decreases parent, 0, |ds|
  {
    if ds == [] then [] else FilesIn(ds[..|ds| - 1], parent) + Files(ds[|ds| - 1])
  }

  /** For each file name, the lost paths with that name and the replacement found so far ("" while none). */
  type Candidates = map<string, map<string, string>>

  /** The score of a candidate path for a lost one; the fixer's is `Score`. */
  type Scoring = (string, string) -> nat

  /** One entry of a candidate list offered a path: an unset entry takes it, a set one only for a strictly better score. */
  function Update(lost: string, existing: string, path: string, scoring: Scoring): (r: string)
    ensures existing == "" ==> r == path
    ensures existing != "" ==> r == existing || (r == path && scoring(lost, path) > scoring(lost, existing))
    ensures existing != "" ==> scoring(lost, r) >= scoring(lost, path) && scoring(lost, r) >= scoring(lost, existing)
  {
    if existing == "" then path
    else if scoring(lost, path) > scoring(lost, existing) then path
    else existing
  }

  function UpdateAll(entries: map<string, string>, path: string, scoring: Scoring): (r: map<string, string>)
    ensures r.Keys == entries.Keys
  {
    map lost | lost in entries :: Update(lost, entries[lost], path, scoring)
  }

  /** A file offered to the candidates: only the list for its own name changes. */
  function Offer(c: Candidates, f: FileEntry, scoring: Scoring): Candidates
  {
    if f.name in c then c[f.name := UpdateAll(c[f.name], f.path, scoring)] else c
  }

  /** The files offered in order. */
  function OfferAll(c: Candidates, files: seq<FileEntry>, scoring: Scoring): Candidates
  {
    if files == [] then c else Offer(OfferAll(c, files[..|files| - 1], scoring), files[|files| - 1], scoring)
  }

  lemma {:induction false} OfferAllAppend(c: Candidates, a: seq<FileEntry>, b: seq<FileEntry>, scoring: Scoring)
    ensures OfferAll(c, a + b, scoring) == OfferAll(OfferAll(c, a, scoring), b, scoring)
    decreases |b|
  {
    if b == [] {
      assert a + b == a;
    } else {
      assert (a + b)[..|a + b| - 1] == a + b[..|b| - 1];
      OfferAllAppend(c, a, b[..|b| - 1], scoring);
    }
  }

  lemma OfferAllSnoc(c: Candidates, files: seq<FileEntry>, f: FileEntry, scoring: Scoring)
    ensures OfferAll(c, files + [f], scoring) == Offer(OfferAll(c, files, scoring), f, scoring)
  {
    assert (files + [f])[..|files|] == files;
  }

  /** Offering files never adds or drops a name or a lost path. */
  lemma {:induction false} OfferAllKeys(c: Candidates, files: seq<FileEntry>, scoring: Scoring)
    ensures OfferAll(c, files, scoring).Keys == c.Keys
    ensures forall b :: b in c ==> OfferAll(c, files, scoring)[b].Keys == c[b].Keys
    decreases |files|
  {
    if files != [] {
      OfferAllKeys(c, files[..|files| - 1], scoring);
    }
  }

  predicate AllUnset(c: Candidates)
  {
    forall b, lost :: b in c && lost in c[b] ==> c[b][lost] == ""
  }

  /** A file with a name among the candidates and a non-empty path. */
  predicate Offers(f: FileEntry, b: string)
  {
    f.name == b && f.path != ""
  }

  /**
   * What the fixer promises for one lost path after the files have been
   * offered: it is resolved exactly when some file of its name was offered,
   * no file of its name scores higher, and it is resolved to the first file
   * with that score (a later file replaces an earlier one only when it
   * scores strictly higher).
   */
  ghost predicate BestFor(found: string, files: seq<FileEntry>, b: string, lost: string, scoring: Scoring)
  {
    && (found != "" <==> exists k :: 0 <= k < |files| && Offers(files[k], b))
    && (found != "" ==> exists k :: 0 <= k < |files| && Offers(files[k], b) && files[k].path == found && EarliestBest(files, k, b, lost, scoring))
    && (forall k :: 0 <= k < |files| && Offers(files[k], b) ==> scoring(lost, files[k].path) <= scoring(lost, found))
  }

  /** Every file of the name offered before `files[k]` scores strictly lower than it. */
  ghost predicate EarliestBest(files: seq<FileEntry>, k: nat, b: string, lost: string, scoring: Scoring)
    requires k < |files|
  {
    forall j :: 0 <= j < k && Offers(files[j], b) ==> scoring(lost, files[j].path) < scoring(lost, files[k].path)
  }

  lemma OfferStep(before: string, init: seq<FileEntry>, f: FileEntry, b: string, lost: string, scoring: Scoring)
    requires f.path != ""
    requires BestFor(before, init, b, lost, scoring)
    ensures BestFor(if f.name == b then Update(lost, before, f.path, scoring) else before, init + [f], b, lost, scoring)
  {
    var files := init + [f];
    var found := if f.name == b then Update(lost, before, f.path, scoring) else before;
    assert forall k :: 0 <= k < |init| ==> files[k] == init[k];
    assert files[|init|] == f;
    if f.name == b && (before == "" || found != before) {
      // the new file is the one kept: everything offered before it scores lower
      assert Offers(files[|init|], b);
      assert EarliestBest(files, |init|, b, lost, scoring);
      if before == "" {
        forall k | 0 <= k < |files| && Offers(files[k], b)
          ensures scoring(lost, files[k].path) <= scoring(lost, found)
        {
          assert k == |init|;
        }
      }
    } else {
      // the earlier choice stands
      forall k | 0 <= k < |files| && Offers(files[k], b) && f.name != b ensures k < |init| && Offers(init[k], b) {
      }
      if before != "" {
        var k0 :| 0 <= k0 < |init| && Offers(init[k0], b) && init[k0].path == before && EarliestBest(init, k0, b, lost, scoring);
        assert Offers(files[k0], b) && files[k0].path == before && EarliestBest(files, k0, b, lost, scoring);
      }
    }
  }

  lemma OfferEntry(c: Candidates, f: FileEntry, b: string, lost: string, scoring: Scoring)
    requires b in c && lost in c[b]
    ensures b in Offer(c, f, scoring) && lost in Offer(c, f, scoring)[b]
    ensures Offer(c, f, scoring)[b][lost] == if f.name == b then Update(lost, c[b][lost], f.path, scoring) else c[b][lost]
  {
  }

  /** Starting from unset candidates, every lost path ends as `BestFor` says. */
  lemma {:induction false} OfferAllBest(c: Candidates, files: seq<FileEntry>, b: string, lost: string, scoring: Scoring)
    requires AllUnset(c)
    requires b in c && lost in c[b]
    requires forall k :: 0 <= k < |files| ==> files[k].path != ""
    ensures b in OfferAll(c, files, scoring) && lost in OfferAll(c, files, scoring)[b]
    ensures BestFor(OfferAll(c, files, scoring)[b][lost], files, b, lost, scoring)
    decreases |files|
  {
    OfferAllKeys(c, files, scoring);
    if files != [] {
      var init := files[..|files| - 1];
      var f := files[|files| - 1];
      OfferAllBest(c, init, b, lost, scoring);
      OfferAllKeys(c, init, scoring);
      assert files == init + [f];
      var before := OfferAll(c, init, scoring);
      assert OfferAll(c, files, scoring) == Offer(before, f, scoring);
      OfferEntry(before, f, b, lost, scoring);
      OfferStep(before[b][lost], init, f, b, lost, scoring);
    }
  }

  // ---- The fixer's loops ----

  /** The two scores `_fix_and_find` counts in one loop over the lost path's components. */
  method Scores(lostv: seq<string>, existingv: seq<string>, currentv: seq<string>)
    returns (existingScore: nat, currentScore: nat)
    ensures existingScore == Agreements(lostv, existingv, |lostv|)
    ensures currentScore == Agreements(lostv, currentv, |lostv|)
  {
    existingScore, currentScore := 0, 0;
    var j := 0;
    while j < |lostv|
      invariant 0 <= j <= |lostv|
      invariant existingScore == Agreements(lostv, existingv, j)
      invariant currentScore == Agreements(lostv, currentv, j)
    {
      if j < |existingv| && lostv[j] == existingv[j] {
        existingScore := existingScore + 1;
      }
      if j < |currentv| && lostv[j] == currentv[j] {
        currentScore := currentScore + 1;
      }
      j := j + 1;
    }
  }

  /** One candidate entry offered a path. */
  method UpdateEntry(lost: string, existing: string, path: string) returns (r: string)
    ensures r == Update(lost, existing, path, Score)
  {
    if existing == "" {
      return path;
    }
    var existingScore, currentScore := Scores(Components(lost), Components(existing), Components(path));
    r := if currentScore > existingScore then path else existing;
  }

  /**
   * Every entry of one file name's list offered a path. The entries are
   * independent, so the order of the map's iteration does not matter.
   */
  method UpdateEntries(entries: map<string, string>, path: string) returns (r: map<string, string>)
    ensures r == UpdateAll(entries, path, Score)
  {
    ghost var target := UpdateAll(entries, path, Score);
    r := entries;
    var todo := entries.Keys;
    while todo != {}
      invariant PartlyUpdated(r, entries, target, todo)
      decreases |todo|
    {
      var lost :| lost in todo;
      var updated := UpdateEntry(lost, r[lost], path);
      assert updated == target[lost];
      PartlyUpdatedStep(r, entries, target, todo, lost, updated);
      r := r[lost := updated];
      todo := todo - {lost};
    }
    PartlyUpdatedDone(r, entries, target);
  }

  /** The entries still to do keep their value, the others have their target one. */
  ghost predicate PartlyUpdated(r: map<string, string>, entries: map<string, string>, target: map<string, string>, todo: set<string>)
  {
    && (forall lost :: lost in todo ==> lost in r)
    && (forall lost :: lost in r <==> lost in target)
    && (forall lost :: lost in r ==> lost in entries && r[lost] == if lost in todo then entries[lost] else target[lost])
  }

  lemma PartlyUpdatedStep(r: map<string, string>, entries: map<string, string>, target: map<string, string>,
                          todo: set<string>, lost: string, updated: string)
    requires PartlyUpdated(r, entries, target, todo) && lost in todo && updated == target[lost]
    ensures PartlyUpdated(r[lost := updated], entries, target, todo - {lost})
  {
  }

  lemma PartlyUpdatedDone(r: map<string, string>, entries: map<string, string>, target: map<string, string>)
    requires PartlyUpdated(r, entries, target, {})
    ensures r == target
  {
    assert r.Keys == target.Keys;
  }

  /** One file of a directory offered to the candidates for its name, if there are any. */
  method OfferFile(c: Candidates, f: FileEntry) returns (r: Candidates)
    ensures r == Offer(c, f, Score)
  {
    r := c;
    if f.name in c {
      var updated := UpdateEntries(c[f.name], f.path);
      r := c[f.name := updated];
    }
  }

  /** `_fix_and_find`: the directory's files offered to the candidates, subdirectories first. */
  method FixAndFind(d: Dir, c: Candidates) returns (r: Candidates)
    ensures r == OfferAll(c, Files(d), Score)
    decreases d
  {
    r := c;
    var i := 0;
    while i < |d.subdirs|
      invariant 0 <= i <= |d.subdirs|
      invariant r == OfferAll(c, FilesIn(d.subdirs[..i], d), Score)
    {
      var sub := d.subdirs[i];
      r := FixAndFind(sub, r);
      assert d.subdirs[..i + 1][..i] == d.subdirs[..i];
      OfferAllAppend(c, FilesIn(d.subdirs[..i], d), Files(sub), Score);
      i := i + 1;
    }
    assert d.subdirs[..i] == d.subdirs;
    ghost var visited := FilesIn(d.subdirs, d);
    var j := 0;
    assert visited + d.files[..0] == visited;
    while j < |d.files|
      invariant 0 <= j <= |d.files|
      invariant r == OfferAll(c, visited + d.files[..j], Score)
    {
      var f := d.files[j];
      ghost var prefix := visited + d.files[..j];
      assert visited + d.files[..j + 1] == prefix + [f];
      OfferAllSnoc(c, prefix, f, Score);
      r := OfferFile(r, f);
      j := j + 1;
    }
    assert d.files[..j] == d.files;
  }

  // ---- The dependency editor ----

  /** A row of the dependency list. */
  datatype Dependency = Dependency(name: string, path: string, resourceType: string)

  /** A "path::type" entry of the dependency list; an entry without "::" is a plain "Resource". */
  function ParseDependency(n: string): (d: Dependency)
    ensures !Text.Contains(n, "::") ==> d.path == n && d.resourceType == "Resource"
    ensures Text.Contains(n, "::") ==> Text.StartsWith(n, d.path + "::") && !Text.Contains(d.path, "::")
    ensures d.name == GetFile(d.path)
  {
    if Text.Find(n, "::") != -1 then
      var pieces := Text.Split(n, "::");
      var i := Text.Find(n, "::");
      assert pieces[0] == n[..i];
      assert !Text.Contains(n[..i], "::") by {
        forall j: nat | j <= i ensures !Text.OccursAt(n[..i], "::", j) {
          if Text.OccursAt(n[..i], "::", j) {
            assert n[j..j + 2] == n[..i][j..j + 2];
            assert Text.OccursAt(n, "::", j);
          }
        }
      }
      assert n[..i + 2] == n[..i] + "::";
      Dependency(GetFile(pieces[0]), pieces[0], pieces[1])
    else
      Dependency(GetFile(n), n, "Resource")
  }

  /** The paths of the dependencies that do not exist, in list order. */
  function MissingPaths(deps: seq<Dependency>, exists_: string -> bool): (missing: seq<string>)
    ensures |missing| <= |deps|
  {
    if deps == [] then []
    else
      var last := deps[|deps| - 1];
      MissingPaths(deps[..|deps| - 1], exists_) + (if exists_(last.path) then [] else [last.path])
  }

  /** A path is listed as missing exactly when some dependency has it and it does not exist. */
  lemma {:induction false} MissingPathsMembers(deps: seq<Dependency>, exists_: string -> bool, p: string)
    ensures p in MissingPaths(deps, exists_) <==> exists k :: 0 <= k < |deps| && deps[k].path == p && !exists_(p)
  {
    if deps != [] {
      var init := deps[..|deps| - 1];
      MissingPathsMembers(init, exists_, p);
      if exists k :: 0 <= k < |deps| && deps[k].path == p && !exists_(p) {
        var k :| 0 <= k < |deps| && deps[k].path == p && !exists_(p);
        if k < |init| {
          assert init[k] == deps[k];
        }
      }
      if p in MissingPaths(init, exists_) {
        var k :| 0 <= k < |init| && init[k].path == p && !exists_(p);
        assert deps[k] == init[k];
      }
    }
  }

  /** The names a missing dependency is looked up by: the list for its file name holds it, unset. */
  predicate CandidatesFor(c: Candidates, missing: seq<string>)
  {
    && (forall m :: m in missing ==> GetFile(m) in c && m in c[GetFile(m)])
    && (forall b, m :: b in c && m in c[b] ==> m in missing && GetFile(m) == b)
  }

  /** The loop of `_update_list`: the rows, the missing paths in order, and whether any is missing. */
  method DependencyRows(deps: seq<string>, exists_: string -> bool)
    returns (rows: seq<Dependency>, missing: seq<string>, broken: bool)
    ensures |rows| == |deps| && forall k :: 0 <= k < |rows| ==> rows[k] == ParseDependency(deps[k])
    ensures missing == MissingPaths(rows, exists_)
    ensures broken <==> missing != []
  {
    rows := [];
    missing := [];
    broken := false;
    var i := 0;
    while i < |deps|
      invariant i <= |deps| && RowsSoFar(deps, i, rows, missing, broken, exists_)
    {
      var row := ParseDependency(deps[i]);
      RowsStep(deps, i, rows, missing, broken, exists_);
      rows := rows + [row];
      if !exists_(row.path) {
        missing := missing + [row.path];
        broken := true;
      }
      i := i + 1;
    }
  }

  /** What the rows loop has built after reading the first `n` entries. */
  ghost predicate RowsSoFar(deps: seq<string>, n: nat, rows: seq<Dependency>, missing: seq<string>, broken: bool, exists_: string -> bool)
  {
    && |rows| == n <= |deps| && (forall k :: 0 <= k < n ==> rows[k] == ParseDependency(deps[k]))
    && missing == MissingPaths(rows, exists_)
    && (broken <==> missing != [])
  }

  lemma RowsStep(deps: seq<string>, n: nat, rows: seq<Dependency>, missing: seq<string>, broken: bool, exists_: string -> bool)
    requires n < |deps| && RowsSoFar(deps, n, rows, missing, broken, exists_)
    ensures var row := ParseDependency(deps[n]);
      RowsSoFar(deps, n + 1, rows + [row],
                if exists_(row.path) then missing else missing + [row.path],
                if exists_(row.path) then broken else true, exists_)
  {
    var row := ParseDependency(deps[n]);
    assert (rows + [row])[..|rows|] == rows;
  }

  class DependencyEditor {
    /** The dependencies of the resource being edited that do not exist. */
    var missing: seq<string>
    /** Whether "Fix Broken" is disabled. */
    var fixDisabled: bool

    constructor ()
      ensures missing == [] && fixDisabled
    {
      missing := [];
      fixDisabled := true;
    }

    /**
     * `_update_list`: one row per dependency, in order; the paths that do not
     * exist are the missing ones, and fixing is enabled exactly when there are some.
     */
    method UpdateList(deps: seq<string>, exists_: string -> bool) returns (rows: seq<Dependency>)
      modifies this
      ensures |rows| == |deps| && forall k :: 0 <= k < |rows| ==> rows[k] == ParseDependency(deps[k])
      ensures missing == MissingPaths(rows, exists_)
      ensures fixDisabled <==> missing == []
    {
      var broken;
      rows, missing, broken := DependencyRows(deps, exists_);
      fixDisabled := !broken;
    }

    /** The candidate lists `_fix_all` starts from: each missing path, unset, under its file name. */
    method MissingCandidates() returns (c: Candidates)
      ensures CandidatesFor(c, missing) && AllUnset(c)
    {
      c := map[];
      var i := 0;
      while i < |missing|
        invariant 0 <= i <= |missing|
        invariant CandidatesFor(c, missing[..i]) && AllUnset(c)
      {
        var m := missing[i];
        var base := GetFile(m);
        if base !in c {
          c := c[base := map[]];
        }
        c := c[base := c[base][m := ""]];
        assert missing[..i + 1] == missing[..i] + [m];
        i := i + 1;
      }
      assert missing[..i] == missing;
    }

    /**
     * `_fix_all`: nothing without a file system. Otherwise the remaps are the
     * missing paths that were resolved, each to a file of the same name with
     * no better-scoring file of that name in the project; the dependencies
     * are renamed only when there is at least one.
     */
    method FixAll(fs: Option<Dir>) returns (remaps: map<string, string>, renamed: bool)
      requires fs.Some? ==> PathsSet(fs.value)
      ensures fs.None? ==> remaps == map[] && !renamed
      ensures renamed <==> remaps != map[]
      ensures forall m :: m in remaps ==> m in missing
      ensures fs.Some? ==> forall m :: m in missing ==>
        BestFor(if m in remaps then remaps[m] else "", Files(fs.value), GetFile(m), m, Score)
    {
      remaps := map[];
      renamed := false;
      if fs.None? {
        return;
      }
      var c := MissingCandidates();
      var found := FixAndFind(fs.value, c);
      remaps := Resolved(c, found, fs.value, missing);
      renamed := |remaps| > 0;
      if !renamed {
        assert remaps == map[];
      }
    }
  }

  /** Every file of the editor's file system has a path ("res://..."). */
  predicate PathsSet(fs: Dir)
  {
    forall k :: 0 <= k < |Files(fs)| ==> Files(fs)[k].path != ""
  }

  /** The loop over the candidate lists collecting every resolved entry into the remaps. */
  method Resolved(c: Candidates, found: Candidates, fs: Dir, missing: seq<string>) returns (remaps: map<string, string>)
    requires CandidatesFor(c, missing) && AllUnset(c)
    requires found == OfferAll(c, Files(fs), Score)
    requires PathsSet(fs)
    ensures forall m :: m in remaps ==> m in missing
    ensures forall m :: m in missing ==> BestFor(if m in remaps then remaps[m] else "", Files(fs), GetFile(m), m, Score)
  {
    OfferAllKeys(c, Files(fs), Score);
    remaps := map[];
    var names := found.Keys;
    while names != {}
      invariant names <= found.Keys
      invariant forall m :: m in remaps ==>
        GetFile(m) in found && GetFile(m) !in names && m in found[GetFile(m)] && remaps[m] == found[GetFile(m)][m] != ""
      invariant forall b, m :: b in found && b !in names && m in found[b] && found[b][m] != "" ==> m in remaps
      decreases |names|
    {
      var b :| b in names;
      remaps := AddResolved(found[b], remaps);
      names := names - {b};
    }
    forall m | m in missing
      ensures BestFor(if m in remaps then remaps[m] else "", Files(fs), GetFile(m), m, Score)
    {
      OfferAllBest(c, Files(fs), GetFile(m), m, Score);
    }
  }

  /** One candidate list's resolved entries added to the remaps. */
  method AddResolved(entries: map<string, string>, remaps: map<string, string>) returns (r: map<string, string>)
    ensures forall m :: m in r <==> m in remaps || (m in entries && entries[m] != "")
    ensures forall m :: m in r ==> r[m] == if m in entries && entries[m] != "" then entries[m] else remaps[m]
  {
    r := remaps;
    var todo := entries.Keys;
    while todo != {}
      invariant todo <= entries.Keys
      invariant forall m :: m in r <==> m in remaps || (m in entries && m !in todo && entries[m] != "")
      invariant forall m :: m in r ==> r[m] == if m in entries && m !in todo && entries[m] != "" then entries[m] else remaps[m]
      decreases |todo|
    {
      var m :| m in todo;
      if entries[m] != "" {
        r := r[m := entries[m]];
      }
      todo := todo - {m};
    }
  }

  // ---- The remove dialog ----

  /** A folder as the dialog keeps it: ending in "/". */
  function FolderPath(folder: string): (r: string)
    ensures Text.EndsWith(r, "/")
    ensures Text.EndsWith(folder, "/") ==> r == folder
  {
    if Text.EndsWith(folder, "/") then folder else folder + "/"
  }

  /** A favourite survives the removal unless it is a deleted folder (ending in "/") or a deleted file. */
  predicate KeptFavorite(f: string, dirsToDelete: seq<string>, filesToDelete: seq<string>)
  {
    if Text.EndsWith(f, "/") then f !in dirsToDelete else f !in filesToDelete
  }

  function KeptFavorites(favorites: seq<string>, dirsToDelete: seq<string>, filesToDelete: seq<string>): (kept: seq<string>)
    ensures |kept| <= |favorites|
  {
    if favorites == [] then []
    else
      var init := KeptFavorites(favorites[..|favorites| - 1], dirsToDelete, filesToDelete);
      var f := favorites[|favorites| - 1];
      init + (if KeptFavorite(f, dirsToDelete, filesToDelete) then [f] else [])
  }

  /** The kept favourites are exactly the favourites that survive, in their order: removing the rest gives them. */
  lemma {:induction false} KeptFavoritesMembers(favorites: seq<string>, dirsToDelete: seq<string>, filesToDelete: seq<string>, f: string)
    ensures f in KeptFavorites(favorites, dirsToDelete, filesToDelete) <==> f in favorites && KeptFavorite(f, dirsToDelete, filesToDelete)
    ensures |KeptFavorites(favorites, dirsToDelete, filesToDelete)| == |favorites| <==>
      forall k :: 0 <= k < |favorites| ==> KeptFavorite(favorites[k], dirsToDelete, filesToDelete)
    decreases |favorites|
  {
    if favorites != [] {
      var init := favorites[..|favorites| - 1];
      KeptFavoritesMembers(init, dirsToDelete, filesToDelete, f);
      assert favorites == init + [favorites[|favorites| - 1]];
      assert forall k :: 0 <= k < |init| ==> init[k] == favorites[k];
    }
  }

  // The file system as the remove dialog walks it: `tree(folder)` lists the
  // directories `_find_files_in_removed_folder` visits under a folder, in its
  // order (every subdirectory, depth first, before its parent; empty when the
  // folder is not in the editor's file system), and `filesIn(d)` the files
  // directly inside directory `d`.

  /** A file lies in one directory only, and there only once. */
  ghost predicate FileSystem(filesIn: string -> seq<string>)
  {
    forall d1, d2, p, q :: 0 <= p < |filesIn(d1)| && 0 <= q < |filesIn(d2)| && filesIn(d1)[p] == filesIn(d2)[q] ==> d1 == d2 && p == q
  }

  /** `f` lies directly in one of the directories `ds`. */
  ghost predicate InDirs(ds: seq<string>, filesIn: string -> seq<string>, f: string)
  {
    exists j :: 0 <= j < |ds| && f in filesIn(ds[j])
  }

  /** The index of the first folder of `dirs` that holds `f`, or -1 when none does. */
  ghost function Holder(dirs: seq<string>, tree: string -> seq<string>, filesIn: string -> seq<string>, f: string): (h: int)
    ensures -1 <= h < |dirs|
    ensures h >= 0 ==> InDirs(tree(dirs[h]), filesIn, f)
    ensures forall k :: 0 <= k < |dirs| && (h < 0 || k < h) ==> !InDirs(tree(dirs[k]), filesIn, f)
  {
    if dirs == [] then -1
    else
      var h := Holder(dirs[..|dirs| - 1], tree, filesIn, f);
      if h >= 0 then h
      else if InDirs(tree(dirs[|dirs| - 1]), filesIn, f) then |dirs| - 1
      else -1
  }

  /**
   * The file loop of `_find_files_in_removed_folder` for one directory: each
   * file maps to the folder being deleted, until a file that is already
   * mapped stops the loop (`ERR_FAIL_COND`) and leaves it, and the files
   * after it, as they were.
   */
  function AddLevel(all: map<string, string>, folder: string, files: seq<string>): map<string, string>
    decreases |files|
  {
    if files == [] || files[0] in all then all
    else AddLevel(all[files[0] := folder], folder, files[1..])
  }

  /**
   * `AddLevel` keeps every existing entry and maps only files of the
   * directory, to the folder; a directory whose first file is mapped adds
   * nothing. With the files distinct: when none was mapped, all are added,
   * and nothing after a mapped file is added.
   */
  lemma {:induction false} AddLevelStops(all: map<string, string>, folder: string, files: seq<string>)
    ensures var r := AddLevel(all, folder, files);
      && (forall f :: f in all ==> f in r && r[f] == all[f])
      && (forall f :: f in r && f !in all ==> f in files && r[f] == folder)
      && (files != [] && files[0] in all ==> r == all)
      && ((forall p, q :: 0 <= p < q < |files| ==> files[p] != files[q]) ==>
        && ((forall k :: 0 <= k < |files| ==> files[k] !in all) ==> forall k :: 0 <= k < |files| ==> files[k] in r)
        && (forall k, j :: 0 <= k < j < |files| && files[k] in all ==> (files[j] in r <==> files[j] in all)))
    decreases |files|
  {
    if files != [] && files[0] !in all {
      AddLevelStops(all[files[0] := folder], folder, files[1..]);
      assert forall j :: 0 < j < |files| ==> files[j] == files[1..][j - 1];
    }
  }

  /** The directories under one folder visited in order, each adding its files as `AddLevel` says. */
  function AddTree(all: map<string, string>, folder: string, ds: seq<string>, filesIn: string -> seq<string>): map<string, string>
  {
    if ds == [] then all
    else AddLevel(AddTree(all, folder, ds[..|ds| - 1], filesIn), folder, filesIn(ds[|ds| - 1]))
  }

  /** The removal map the folder loop of `show` builds, one folder after another. */
  function RemovedAll(dirs: seq<string>, tree: string -> seq<string>, filesIn: string -> seq<string>): map<string, string>
  {
    if dirs == [] then map[]
    else
      var d := dirs[|dirs| - 1];
      AddTree(RemovedAll(dirs[..|dirs| - 1], tree, filesIn), d, tree(d), filesIn)
  }

  /**
   * Within the folder `d` after the directories `visited`: a file is mapped
   * exactly when an earlier folder holds it or a visited directory does, and
   * it maps to the first folder that holds it.
   */
  ghost predicate MappedSoFar(all: map<string, string>, dirs: seq<string>, d: string, visited: seq<string>,
                              tree: string -> seq<string>, filesIn: string -> seq<string>)
  {
    forall f ::
      && (f in all <==> Holder(dirs, tree, filesIn, f) >= 0 || InDirs(visited, filesIn, f))
      && (f in all ==> all[f] == if Holder(dirs, tree, filesIn, f) >= 0 then dirs[Holder(dirs, tree, filesIn, f)] else d)
  }

  /** A directory is mapped all or nothing: one mapped file means it was visited before, in full. */
  lemma DirectoryAllOrNothing(all: map<string, string>, dirs: seq<string>, d: string, visited: seq<string>,
                              tree: string -> seq<string>, filesIn: string -> seq<string>, e: string, p: nat)
    requires FileSystem(filesIn) && MappedSoFar(all, dirs, d, visited, tree, filesIn)
    requires p < |filesIn(e)| && filesIn(e)[p] in all
    ensures forall q :: 0 <= q < |filesIn(e)| ==> filesIn(e)[q] in all
  {
    var f := filesIn(e)[p];
    var h := Holder(dirs, tree, filesIn, f);
    var ds := if h >= 0 then tree(dirs[h]) else visited;
    assert InDirs(ds, filesIn, f);
    var j :| 0 <= j < |ds| && f in filesIn(ds[j]);
    var i :| 0 <= i < |filesIn(ds[j])| && filesIn(ds[j])[i] == f;
    assert ds[j] == e;
    forall q | 0 <= q < |filesIn(e)| ensures filesIn(e)[q] in all {
      var g := filesIn(e)[q];
      assert InDirs(ds, filesIn, g);
      if h >= 0 {
        assert Holder(dirs, tree, filesIn, g) >= 0;
      }
    }
  }

  /** One more directory of the folder `d` keeps `MappedSoFar`. */
  lemma AddTreeStep(all: map<string, string>, dirs: seq<string>, d: string, ds: seq<string>, m: nat,
                    tree: string -> seq<string>, filesIn: string -> seq<string>)
    requires FileSystem(filesIn) && m < |ds|
    requires MappedSoFar(all, dirs, d, ds[..m], tree, filesIn)
    ensures MappedSoFar(AddLevel(all, d, filesIn(ds[m])), dirs, d, ds[..m + 1], tree, filesIn)
  {
    var files := filesIn(ds[m]);
    forall f ensures InDirs(ds[..m + 1], filesIn, f) <==> InDirs(ds[..m], filesIn, f) || f in files {
      InDirsSnoc(ds, m, filesIn, f);
    }
    AddLevelStops(all, d, files);
    if exists p :: 0 <= p < |files| && files[p] in all {
      var p :| 0 <= p < |files| && files[p] in all;
      DirectoryAllOrNothing(all, dirs, d, ds[..m], tree, filesIn, ds[m], p);
      AddTreeStepVisited(all, dirs, d, ds[..m], ds[..m + 1], files, tree, filesIn);
    } else {
      AddTreeStepFresh(all, dirs, d, ds[..m], ds[..m + 1], files, tree, filesIn);
    }
  }

  /** A directory visited before, in full: nothing changes. */
  lemma AddTreeStepVisited(all: map<string, string>, dirs: seq<string>, d: string, visited: seq<string>, visited': seq<string>,
                           files: seq<string>, tree: string -> seq<string>, filesIn: string -> seq<string>)
    requires MappedSoFar(all, dirs, d, visited, tree, filesIn)
    requires forall f :: InDirs(visited', filesIn, f) <==> InDirs(visited, filesIn, f) || f in files
    requires files != [] && forall q :: 0 <= q < |files| ==> files[q] in all
    requires files[0] in all ==> AddLevel(all, d, files) == all
    ensures MappedSoFar(AddLevel(all, d, files), dirs, d, visited', tree, filesIn)
  {
    assert files[0] in all;
  }

  /** A directory none of whose files is mapped: all of them map to the folder. */
  lemma AddTreeStepFresh(all: map<string, string>, dirs: seq<string>, d: string, visited: seq<string>, visited': seq<string>,
                         files: seq<string>, tree: string -> seq<string>, filesIn: string -> seq<string>)
    requires FileSystem(filesIn) && MappedSoFar(all, dirs, d, visited, tree, filesIn)
    requires forall f :: InDirs(visited', filesIn, f) <==> InDirs(visited, filesIn, f) || f in files
    requires exists e :: files == filesIn(e)
    requires forall q :: 0 <= q < |files| ==> files[q] !in all
    requires var r := AddLevel(all, d, files);
      && (forall f :: f in all ==> f in r && r[f] == all[f])
      && (forall f :: f in r && f !in all ==> f in files && r[f] == d)
      && ((forall p, q :: 0 <= p < q < |files| ==> files[p] != files[q]) ==>
          (forall k :: 0 <= k < |files| ==> files[k] !in all) ==> forall k :: 0 <= k < |files| ==> files[k] in r)
    ensures MappedSoFar(AddLevel(all, d, files), dirs, d, visited', tree, filesIn)
  {
    var r := AddLevel(all, d, files);
    var e :| files == filesIn(e);
    assert forall p, q :: 0 <= p < q < |files| ==> files[p] != files[q];
    forall f ensures (f in r <==> f in all || f in files) && (f in r ==> r[f] == if f in all then all[f] else d) {
    }
  }

  lemma InDirsSnoc(ds: seq<string>, m: nat, filesIn: string -> seq<string>, f: string)
    requires m < |ds|
    ensures InDirs(ds[..m + 1], filesIn, f) <==> InDirs(ds[..m], filesIn, f) || f in filesIn(ds[m])
  {
    if f in filesIn(ds[m]) {
      assert ds[..m + 1][m] == ds[m];
    }
    if InDirs(ds[..m], filesIn, f) {
      var j :| 0 <= j < m && f in filesIn(ds[..m][j]);
      assert ds[..m + 1][j] == ds[..m][j];
    }
    if InDirs(ds[..m + 1], filesIn, f) && f !in filesIn(ds[m]) {
      var j :| 0 <= j < m + 1 && f in filesIn(ds[..m + 1][j]);
      assert ds[..m][j] == ds[..m + 1][j];
    }
  }

  lemma {:induction false} AddTreeMapped(all: map<string, string>, dirs: seq<string>, d: string, m: nat,
                                         tree: string -> seq<string>, filesIn: string -> seq<string>)
    requires FileSystem(filesIn) && m <= |tree(d)|
    requires MappedSoFar(all, dirs, d, [], tree, filesIn)
    ensures MappedSoFar(AddTree(all, d, tree(d)[..m], filesIn), dirs, d, tree(d)[..m], tree, filesIn)
  {
    if m > 0 {
      AddTreeMapped(all, dirs, d, m - 1, tree, filesIn);
      assert tree(d)[..m][..m - 1] == tree(d)[..m - 1];
      AddTreeStep(AddTree(all, d, tree(d)[..m - 1], filesIn), dirs, d, tree(d), m - 1, tree, filesIn);
    }
  }

  /**
   * What the folder loop of `show` builds: a file is mapped exactly when a
   * listed folder holds it, and it maps to the first such folder. A folder
   * inside one listed before it adds nothing (`ERR_FAIL_COND` stops it at its
   * first file), so its files stay with the outer folder.
   */
  lemma {:induction false} RemovedAllHolder(dirs: seq<string>, tree: string -> seq<string>, filesIn: string -> seq<string>, f: string)
    requires FileSystem(filesIn)
    ensures f in RemovedAll(dirs, tree, filesIn) <==> Holder(dirs, tree, filesIn, f) >= 0
    ensures f in RemovedAll(dirs, tree, filesIn) ==> RemovedAll(dirs, tree, filesIn)[f] == dirs[Holder(dirs, tree, filesIn, f)]
  {
    if dirs != [] {
      var init := dirs[..|dirs| - 1];
      var d := dirs[|dirs| - 1];
      var all := RemovedAll(init, tree, filesIn);
      forall g ensures g in all <==> Holder(init, tree, filesIn, g) >= 0
        ensures g in all ==> all[g] == init[Holder(init, tree, filesIn, g)]
      {
        RemovedAllHolder(init, tree, filesIn, g);
      }
      assert MappedSoFar(all, init, d, [], tree, filesIn);
      AddTreeMapped(all, init, d, |tree(d)|, tree, filesIn);
      assert tree(d)[..|tree(d)|] == tree(d);
      var h := Holder(init, tree, filesIn, f);
      if h >= 0 {
        assert dirs[h] == init[h];
      }
    }
  }

  /** A folder listed after one that contains it: the outer folder keeps the shared file. */
  lemma NestedFolderKeepsOuter()
    ensures var tree := (d: string) => if d == "res://a/" then ["res://a/b/", "res://a/"] else if d == "res://a/b/" then ["res://a/b/"] else [];
      var filesIn := (d: string) => if d == "res://a/b/" then ["res://a/b/x.tres"] else [];
      && FileSystem(filesIn)
      && "res://a/b/x.tres" in RemovedAll(["res://a/", "res://a/b/"], tree, filesIn)
      && RemovedAll(["res://a/", "res://a/b/"], tree, filesIn)["res://a/b/x.tres"] == "res://a/"
  {
    var tree := (d: string) => if d == "res://a/" then ["res://a/b/", "res://a/"] else if d == "res://a/b/" then ["res://a/b/"] else [];
    var filesIn := (d: string) => if d == "res://a/b/" then ["res://a/b/x.tres"] else [];
    var dirs := ["res://a/", "res://a/b/"];
    var f := "res://a/b/x.tres";
    assert InDirs(tree(dirs[0]), filesIn, f) by {
      assert f in filesIn(tree(dirs[0])[0]);
    }
    assert Holder(dirs, tree, filesIn, f) == 0 by {
      assert dirs[..1][..0] == [];
      assert dirs[..1] == ["res://a/"];
    }
    RemovedAllHolder(dirs, tree, filesIn, f);
  }

  /** The folder loop of `show`: the folders as kept, and the files under them mapped as `RemovedAll` says. */
  method RemovedFolders(folders: seq<string>, tree: string -> seq<string>, filesIn: string -> seq<string>)
    returns (dirs: seq<string>, all: map<string, string>)
    ensures FoldersKept(folders, |folders|, dirs)
    ensures all == RemovedAll(dirs, tree, filesIn)
  {
    dirs := [];
    all := map[];
    var i := 0;
    while i < |folders|
      invariant i <= |folders| && FoldersKept(folders, i, dirs)
      invariant all == RemovedAll(dirs, tree, filesIn)
    {
      var folder := FolderPath(folders[i]);
      all := AddFolderFiles(all, folder, tree(folder), filesIn);
      RemovedAllSnoc(dirs, folder, tree, filesIn);
      FoldersKeptStep(folders, i, dirs);
      dirs := dirs + [folder];
      i := i + 1;
    }
  }

  /** The first `n` folders, each ending in "/". */
  predicate FoldersKept(folders: seq<string>, n: nat, dirs: seq<string>)
  {
    |dirs| == n <= |folders| && forall k :: 0 <= k < n ==> dirs[k] == FolderPath(folders[k])
  }

  lemma FoldersKeptStep(folders: seq<string>, n: nat, dirs: seq<string>)
    requires n < |folders| && FoldersKept(folders, n, dirs)
    ensures FoldersKept(folders, n + 1, dirs + [FolderPath(folders[n])])
  {
    assert forall k :: 0 <= k < n ==> (dirs + [FolderPath(folders[n])])[k] == dirs[k];
  }

  lemma RemovedAllSnoc(dirs: seq<string>, d: string, tree: string -> seq<string>, filesIn: string -> seq<string>)
    ensures RemovedAll(dirs + [d], tree, filesIn) == AddTree(RemovedAll(dirs, tree, filesIn), d, tree(d), filesIn)
  {
    assert (dirs + [d])[..|dirs|] == dirs;
  }

  /** `_find_files_in_removed_folder`: the directories under the folder, in the recursion's order. */
  method AddFolderFiles(all: map<string, string>, folder: string, ds: seq<string>, filesIn: string -> seq<string>)
    returns (r: map<string, string>)
    ensures r == AddTree(all, folder, ds, filesIn)
  {
    r := all;
    var i := 0;
    while i < |ds|
      invariant 0 <= i <= |ds| && r == AddTree(all, folder, ds[..i], filesIn)
    {
      assert ds[..i + 1][..i] == ds[..i];
      r := AddLevelFiles(r, folder, filesIn(ds[i]));
      i := i + 1;
    }
    assert ds[..i] == ds;
  }

  /** The file loop of one directory, stopping at the first file already mapped. */
  method AddLevelFiles(all: map<string, string>, folder: string, files: seq<string>) returns (r: map<string, string>)
    ensures r == AddLevel(all, folder, files)
  {
    r := all;
    var i := 0;
    while i < |files|
      invariant 0 <= i <= |files| && AddLevel(r, folder, files[i..]) == AddLevel(all, folder, files)
    {
      assert files[i..][0] == files[i] && files[i..][1..] == files[i + 1..];
      if files[i] in r {
        // ERR_FAIL_COND: the rest of this directory is left out
        return;
      }
      r := r[files[i] := folder];
      i := i + 1;
    }
  }

  /** The file loop of `show`: every listed file maps to "". */
  method RemovedFiles(all: map<string, string>, files: seq<string>) returns (r: map<string, string>)
    ensures forall f :: f in r <==> f in all || f in files
    ensures forall f :: f in r ==> r[f] == if f in files then "" else all[f]
  {
    r := all;
    var j := 0;
    while j < |files|
      invariant 0 <= j <= |files|
      invariant forall f :: f in r <==> f in all || f in files[..j]
      invariant forall f :: f in r ==> r[f] == if f in files[..j] then "" else all[f]
    {
      assert files[..j + 1] == files[..j] + [files[j]];
      r := r[files[j] := ""];
      j := j + 1;
    }
    assert files[..j] == files;
  }

  class DependencyRemoveDialog {
    var dirsToDelete: seq<string>
    var filesToDelete: seq<string>
    /** Every path to be removed: a listed file maps to "", a file inside a listed folder to that folder. */
    var allRemoveFiles: map<string, string>

    constructor ()
      ensures dirsToDelete == [] && filesToDelete == [] && allRemoveFiles == map[]
    {
      dirsToDelete := [];
      filesToDelete := [];
      allRemoveFiles := map[];
    }

    /**
     * `show`: the folders, each ending in "/", and the files to delete. Every
     * listed file maps to ""; any other file is there exactly when a listed
     * folder holds it, and maps to the first folder that does.
     */
    method Show(folders: seq<string>, files: seq<string>, tree: string -> seq<string>, filesIn: string -> seq<string>)
      requires FileSystem(filesIn)
      modifies this
      ensures FoldersKept(folders, |folders|, dirsToDelete)
      ensures filesToDelete == files
      ensures forall f :: f in files ==> f in allRemoveFiles && allRemoveFiles[f] == ""
      ensures forall f :: f !in files ==> (f in allRemoveFiles <==> Holder(dirsToDelete, tree, filesIn, f) >= 0)
      ensures forall f :: f in allRemoveFiles && f !in files ==> allRemoveFiles[f] == dirsToDelete[Holder(dirsToDelete, tree, filesIn, f)]
    {
      var dirs, inFolders := RemovedFolders(folders, tree, filesIn);
      forall f ensures f in inFolders <==> Holder(dirs, tree, filesIn, f) >= 0
        ensures f in inFolders ==> inFolders[f] == dirs[Holder(dirs, tree, filesIn, f)]
      {
        RemovedAllHolder(dirs, tree, filesIn, f);
      }
      var all := RemovedFiles(inFolders, files);
      allRemoveFiles := all;
      dirsToDelete := dirs;
      filesToDelete := files;
    }

    /**
     * The favourites after the removal: those that survive, in order, and
     * whether the settings are written, which happens only when some were dropped.
     */
    method PruneFavorites(previous: seq<string>) returns (favorites: seq<string>, write: bool)
      ensures favorites == KeptFavorites(previous, dirsToDelete, filesToDelete)
      ensures write <==> |favorites| < |previous|
    {
      favorites := [];
      var i := 0;
      while i < |previous|
        invariant 0 <= i <= |previous|
        invariant favorites == KeptFavorites(previous[..i], dirsToDelete, filesToDelete)
      {
        assert previous[..i + 1][..i] == previous[..i];
        var f := previous[i];
        if Text.EndsWith(f, "/") {
          if f !in dirsToDelete {
            favorites := favorites + [f];
          }
        } else {
          if f !in filesToDelete {
            favorites := favorites + [f];
          }
        }
        i := i + 1;
      }
      assert previous[..i] == previous;
      write := |favorites| < |previous|;
    }
  }
}
