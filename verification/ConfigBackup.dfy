/**
 Writing agent configuration files with a one-time backup, and restoring them. The file system
 is a map from resolved paths to contents. A call can fail between any two of its steps: making the
 directory and the backup, reading and writing the file, and restoring one path.
 */
module ConfigBackup {
  type Files = map<string, string>

  datatype ConfigFile = ConfigFile(path: string, content: string, append: bool)

  datatype Outcome = Restored | Removed | Skipped

  datatype RestoreResult = RestoreResult(path: string, outcome: Outcome)

  const SUFFIX := ".centag-bak"

  function BackupPath(path: string): string {
    path + SUFFIX
  }

  lemma BackupPathIsInjective(p: string, q: string)
    requires BackupPath(p) == BackupPath(q)
    ensures p == q
  {
    assert BackupPath(p)[..|p|] == p && BackupPath(q)[..|q|] == q;
  }

  // ---- one file ----

  /** The path could not be resolved: it still holds a ~ or is relative. */
  predicate Unresolved(path: string) {
    '~' in path || path == "" || path[0] != '/'
  }

  function BackedUp(fs: Files, path: string): Files {
    if path !in fs || BackupPath(path) in fs then fs else fs[BackupPath(path) := fs[path]]
  }

  function NewContent(fs: Files, f: ConfigFile): string {
    if f.append && f.path in fs then fs[f.path] + "\n" + f.content else f.content
  }

  function WriteOne(fs: Files, f: ConfigFile): Files {
    var backed := BackedUp(fs, f.path);
    backed[f.path := NewContent(backed, f)]
  }

  function RestoreOne(fs: Files, path: string): Files {
    if BackupPath(path) in fs then fs[path := fs[BackupPath(path)]] - {BackupPath(path)}
    else fs - {path}
  }

  function OutcomeOf(fs: Files, path: string): Outcome {
    if BackupPath(path) in fs then Restored else if path in fs then Removed else Skipped
  }

  // ---- lists of files ----

  /** What one file of a writeFiles call amounts to: both of its steps, or the backup alone. */
  datatype Write = Write(file: ConfigFile, done: bool)

  function Apply(fs: Files, w: Write): Files {
    if w.done then WriteOne(fs, w.file) else BackedUp(fs, w.file.path)
  }

  /** writeFiles, of whose steps the first `budget` succeed: it stops at the first unresolved path or
      failing step, with what it did before left in place. */
  function WriteAll(fs: Files, files: seq<ConfigFile>, budget: nat): (Files, bool)
    decreases |files|
  {
    if files == [] then (fs, true)
    else if Unresolved(files[0].path) || budget == 0 then (fs, false)
    else if budget == 1 then (BackedUp(fs, files[0].path), false)
    else WriteAll(WriteOne(fs, files[0]), files[1..], budget - 2)
  }

  /** RestoreConfigFiles when every step succeeds: each path once. */
  function RestoreAll(fs: Files, files: seq<ConfigFile>, seen: set<string>): (Files, seq<RestoreResult>)
    decreases |files|
  {
    if files == [] then (fs, [])
    else
      var p := files[0].path;
      if p in seen then RestoreAll(fs, files[1..], seen)
      else
        var (fs', results) := RestoreAll(RestoreOne(fs, p), files[1..], seen + {p});
        (fs', [RestoreResult(p, OutcomeOf(fs, p))] + results)
  }

  /** How many files it gets past when only the first `budget` restores succeed. */
  function Reached(files: seq<ConfigFile>, seen: set<string>, budget: nat): (n: nat)
    ensures n <= |files|
    decreases |files|
  {
    if files == [] then 0
    else if files[0].path in seen then 1 + Reached(files[1..], seen, budget)
    else if budget == 0 then 0
    else 1 + Reached(files[1..], seen + {files[0].path}, budget - 1)
  }

  /** Files written or only backed up, one after the other: any number of writeFiles calls, complete
      or cut short anywhere. */
  function AfterWrites(fs: Files, writes: seq<Write>): Files {
    if writes == [] then fs else Apply(AfterWrites(fs, writes[..|writes| - 1]), writes[|writes| - 1])
  }

  /** The files one call gets to. */
  function Performed(files: seq<ConfigFile>, budget: nat): seq<Write> {
    if files == [] || Unresolved(files[0].path) || budget == 0 then []
    else if budget == 1 then [Write(files[0], false)]
    else [Write(files[0], true)] + Performed(files[1..], budget - 2)
  }

  lemma {:induction false} AfterWritesHead(fs: Files, w: Write, writes: seq<Write>)
    ensures AfterWrites(fs, [w] + writes) == AfterWrites(Apply(fs, w), writes)
  {
    var all := [w] + writes;
    if writes == [] {
      assert all[..0] == [] && all == [w];
    } else {
      AfterWritesHead(fs, w, writes[..|writes| - 1]);
      assert all[..|all| - 1] == [w] + writes[..|writes| - 1];
    }
  }

  /** Every path is absolute and without a ~. */
  predicate AllResolved(files: seq<ConfigFile>) {
    forall i :: 0 <= i < |files| ==> files[i].path != "" && files[i].path[0] == '/' && '~' !in files[i].path
  }

  lemma AllResolvedTail(files: seq<ConfigFile>)
    requires files != []
    ensures AllResolved(files) <==> !Unresolved(files[0].path) && AllResolved(files[1..])
  {
    if !Unresolved(files[0].path) && AllResolved(files[1..]) {
      forall i | 0 <= i < |files| ensures files[i].path != "" && files[i].path[0] == '/' && '~' !in files[i].path {
        if i > 0 { assert files[i] == files[1..][i - 1]; }
      }
    }
    if AllResolved(files) {
      assert forall i :: 0 <= i < |files[1..]| ==> files[1..][i] == files[i + 1];
    }
  }

  lemma {:induction false} WriteAllSucceedsIff(fs: Files, files: seq<ConfigFile>, budget: nat)
    ensures WriteAll(fs, files, budget).1 <==> AllResolved(files) && budget >= 2 * |files|
    decreases |files|
  {
    if files != [] {
      AllResolvedTail(files);
      if !Unresolved(files[0].path) && budget >= 2 {
        WriteAllSucceedsIff(WriteOne(fs, files[0]), files[1..], budget - 2);
      }
    }
  }

  /** One call does exactly the steps before the first unresolved path or failing step, and succeeds
      exactly when there is neither. */
  lemma {:induction false} WriteAllIsAfterWrites(fs: Files, files: seq<ConfigFile>, budget: nat)
    ensures WriteAll(fs, files, budget).0 == AfterWrites(fs, Performed(files, budget))
    ensures WriteAll(fs, files, budget).1 <==> AllResolved(files) && budget >= 2 * |files|
    decreases |files|
  {
    WriteAllSucceedsIff(fs, files, budget);
    if files != [] && !Unresolved(files[0].path) {
      if budget >= 2 {
        WriteAllIsAfterWrites(WriteOne(fs, files[0]), files[1..], budget - 2);
        AfterWritesHead(fs, Write(files[0], true), Performed(files[1..], budget - 2));
      } else if budget == 1 {
        AfterWritesHead(fs, Write(files[0], false), []);
        assert [Write(files[0], false)] + [] == [Write(files[0], false)];
      }
    }
  }

  // ---- what the writes leave behind ----

  /** No path is another one's backup, and there are no backups yet. */
  ghost predicate Clean(fs: Files, paths: set<string>) {
    forall p :: p in paths ==> BackupPath(p) !in fs && BackupPath(p) !in paths
  }

  predicate Among(files: seq<ConfigFile>, paths: set<string>) {
    forall i :: 0 <= i < |files| ==> files[i].path in paths
  }

  predicate WritesAmong(writes: seq<Write>, paths: set<string>) {
    forall i :: 0 <= i < |writes| ==> writes[i].file.path in paths
  }

  /** How often a file was written or backed up while it existed, its creation included. */
  function Touches(fs0: Files, writes: seq<Write>, path: string): nat {
    if writes == [] then 0
    else
      var n, w := Touches(fs0, writes[..|writes| - 1], path), writes[|writes| - 1];
      n + if w.file.path == path && (w.done || n > 0 || path in fs0) then 1 else 0
  }

  /** The first content written to `path`, when the file did not exist before. */
  function FirstContent(fs0: Files, writes: seq<Write>, path: string): string {
    if writes == [] then ""
    else
      var init, w := writes[..|writes| - 1], writes[|writes| - 1];
      if Touches(fs0, init, path) == 0 && w.done && w.file.path == path then w.file.content else FirstContent(fs0, init, path)
  }

  /** A file and its backup after the writes. */
  ghost predicate Tracks(fs0: Files, writes: seq<Write>, fs: Files, p: string) {
    var n, bak := Touches(fs0, writes, p), BackupPath(p);
    && (n == 0 ==> (p in fs <==> p in fs0) && (p in fs ==> fs[p] == fs0[p]) && bak !in fs)
    && (n > 0 ==> p in fs)
    && (n > 0 && p in fs0 ==> bak in fs && fs[bak] == fs0[p])
    && (n == 1 && p !in fs0 ==> bak !in fs && fs[p] == FirstContent(fs0, writes, p))
    && (n > 1 && p !in fs0 ==> bak in fs && fs[bak] == FirstContent(fs0, writes, p))
  }

  lemma WriteTracks(fs0: Files, init: seq<Write>, fs: Files, w: Write, paths: set<string>, p: string)
    requires Clean(fs0, paths) && w.file.path in paths && p in paths && Tracks(fs0, init, fs, p)
    ensures Tracks(fs0, init + [w], Apply(fs, w), p)
  {
    assert (init + [w])[..|init|] == init;
    if BackupPath(w.file.path) == BackupPath(p) {
      BackupPathIsInjective(w.file.path, p);
    }
  }

  lemma {:induction false} WritesTrack(fs0: Files, writes: seq<Write>, paths: set<string>, p: string)
    requires Clean(fs0, paths) && WritesAmong(writes, paths) && p in paths
    ensures Tracks(fs0, writes, AfterWrites(fs0, writes), p)
  {
    if writes != [] {
      var init, w := writes[..|writes| - 1], writes[|writes| - 1];
      WritesTrack(fs0, init, paths, p);
      WriteTracks(fs0, init, AfterWrites(fs0, init), w, paths, p);
      assert writes == init + [w];
    }
  }

  /** The pieces of a file after the writes: an overwriting write starts again with its content, an
      appending one adds its content. */
  function Pieces(fs0: Files, writes: seq<Write>, p: string): seq<string> {
    if writes == [] then (if p in fs0 then [fs0[p]] else [])
    else
      var before, w := Pieces(fs0, writes[..|writes| - 1], p), writes[|writes| - 1];
      if w.file.path != p || !w.done then before
      else if w.file.append then before + [w.file.content]
      else [w.file.content]
  }

  function JoinLines(pieces: seq<string>): string
    requires pieces != []
  {
    if |pieces| == 1 then pieces[0] else JoinLines(pieces[..|pieces| - 1]) + "\n" + pieces[|pieces| - 1]
  }

  /** A file holds its pieces, joined by line ends; without pieces there is no file. */
  ghost predicate Holds(fs: Files, p: string, pieces: seq<string>) {
    (p in fs <==> pieces != []) && (p in fs ==> fs[p] == JoinLines(pieces))
  }

  lemma PieceAdded(pieces: seq<string>, x: string)
    requires pieces != []
    ensures JoinLines(pieces + [x]) == JoinLines(pieces) + "\n" + x
  {
    assert (pieces + [x])[..|pieces|] == pieces;
  }

  lemma WriteHolds(fs: Files, w: Write, paths: set<string>, p: string, pieces: seq<string>)
    requires Clean(map[], paths) && w.file.path in paths && p in paths && Holds(fs, p, pieces)
    ensures Holds(Apply(fs, w), p,
      if w.file.path != p || !w.done then pieces else if w.file.append then pieces + [w.file.content] else [w.file.content])
  {
    if w.file.path == p && w.done && w.file.append {
      if pieces != [] {
        PieceAdded(pieces, w.file.content);
      } else {
        assert pieces + [w.file.content] == [w.file.content];
      }
    }
  }

  /** After any writes, cut short anywhere, a file holds exactly its pieces. */
  lemma {:induction false} WritesLeavePieces(fs0: Files, writes: seq<Write>, paths: set<string>, p: string)
    requires Clean(fs0, paths) && WritesAmong(writes, paths) && p in paths
    ensures Holds(AfterWrites(fs0, writes), p, Pieces(fs0, writes, p))
  {
    if writes != [] {
      var init, w := writes[..|writes| - 1], writes[|writes| - 1];
      WritesLeavePieces(fs0, init, paths, p);
      WriteHolds(AfterWrites(fs0, init), w, paths, p, Pieces(fs0, init, p));
    }
  }

  lemma {:induction false} JoinKeepsFirst(pieces: seq<string>)
    requires pieces != []
    ensures pieces[0] <= JoinLines(pieces)
  {
    if |pieces| > 1 { JoinKeepsFirst(pieces[..|pieces| - 1]); }
  }

  lemma {:induction false} AppendsKeepFirst(fs0: Files, writes: seq<Write>, p: string)
    requires p in fs0 && forall i :: 0 <= i < |writes| && writes[i].file.path == p ==> writes[i].file.append
    ensures Pieces(fs0, writes, p) != [] && Pieces(fs0, writes, p)[0] == fs0[p]
  {
    if writes != [] { AppendsKeepFirst(fs0, writes[..|writes| - 1], p); }
  }

  /** Appending never loses what was there. */
  lemma AppendsKeepOriginal(fs0: Files, writes: seq<Write>, paths: set<string>, p: string)
    requires Clean(fs0, paths) && WritesAmong(writes, paths) && p in paths && p in fs0
    requires forall i :: 0 <= i < |writes| && writes[i].file.path == p ==> writes[i].file.append
    ensures p in AfterWrites(fs0, writes) && fs0[p] <= AfterWrites(fs0, writes)[p]
  {
    WritesLeavePieces(fs0, writes, paths, p);
    AppendsKeepFirst(fs0, writes, p);
    JoinKeepsFirst(Pieces(fs0, writes, p));
  }

  /** Files that are neither written nor backups are untouched by any writes. */
  lemma {:induction false} WritesFrame(fs0: Files, writes: seq<Write>, q: string)
    requires forall i :: 0 <= i < |writes| ==> q != writes[i].file.path && q != BackupPath(writes[i].file.path)
    ensures q in AfterWrites(fs0, writes) <==> q in fs0
    ensures q in fs0 ==> AfterWrites(fs0, writes)[q] == fs0[q]
  {
    if writes != [] {
      WritesFrame(fs0, writes[..|writes| - 1], q);
    }
  }

  // ---- restoring ----

  predicate SameAt(a: Files, b: Files, q: string) {
    (q in a <==> q in b) && (q in a ==> a[q] == b[q])
  }

  predicate Listed(files: seq<ConfigFile>, p: string) {
    exists i :: 0 <= i < |files| && files[i].path == p
  }

  lemma ListedTail(files: seq<ConfigFile>, p: string)
    requires files != []
    ensures Listed(files, p) <==> files[0].path == p || Listed(files[1..], p)
  {
    if i :| 0 <= i < |files| && files[i].path == p && i > 0 {
      assert files[1..][i - 1].path == p;
    }
    if i :| 0 <= i < |files[1..]| && files[1..][i].path == p {
      assert files[i + 1].path == p;
    }
  }

  /** Restoring a list treats each path in it like one restore of that path alone. */
  lemma {:induction false} RestoreIsLocal(fs: Files, files: seq<ConfigFile>, seen: set<string>, paths: set<string>, p: string)
    requires Clean(map[], paths) && Among(files, paths) && p in paths
    ensures var r := RestoreAll(fs, files, seen).0;
      var e := if Listed(files, p) && p !in seen then RestoreOne(fs, p) else fs;
      SameAt(r, e, p) && SameAt(r, e, BackupPath(p))
    decreases |files|
  {
    if files != [] {
      var q := files[0].path;
      ListedTail(files, p);
      if q in seen {
        RestoreIsLocal(fs, files[1..], seen, paths, p);
      } else {
        RestoreIsLocal(RestoreOne(fs, q), files[1..], seen + {q}, paths, p);
        if BackupPath(q) == BackupPath(p) {
          BackupPathIsInjective(q, p);
        }
      }
    }
  }

  /** Files that are neither listed nor backups are untouched by a restore. */
  lemma {:induction false} RestoreFrame(fs: Files, files: seq<ConfigFile>, seen: set<string>, q: string)
    requires forall i :: 0 <= i < |files| ==> q != files[i].path && q != BackupPath(files[i].path)
    ensures SameAt(RestoreAll(fs, files, seen).0, fs, q)
    decreases |files|
  {
    if files != [] {
      var p := files[0].path;
      assert forall i :: 0 <= i < |files[1..]| ==> files[1..][i] == files[i + 1];
      RestoreFrame(if p in seen then fs else RestoreOne(fs, p), files[1..], if p in seen then seen else seen + {p}, q);
    }
  }

  /** After any writes, cut short anywhere, one restore brings a listed file and its backup back to
      their original state exactly when the file existed and was written or backed up, or did not
      exist and was touched at most once. A file that was never written is deleted instead. */
  lemma RestoreUndoesIff(fs0: Files, writes: seq<Write>, files: seq<ConfigFile>, paths: set<string>, p: string)
    requires Clean(fs0, paths) && WritesAmong(writes, paths) && Among(files, paths) && Listed(files, p)
    ensures var fs := RestoreAll(AfterWrites(fs0, writes), files, {}).0;
      (SameAt(fs, fs0, p) && SameAt(fs, fs0, BackupPath(p)))
      <==> (if p in fs0 then Touches(fs0, writes, p) >= 1 else Touches(fs0, writes, p) <= 1)
  {
    assert p in paths;
    WritesTrack(fs0, writes, paths, p);
    RestoreIsLocal(AfterWrites(fs0, writes), files, {}, paths, p);
  }

  /** A file that did not exist and was touched twice or more comes back with the first content written. */
  lemma FirstContentComesBack(fs0: Files, writes: seq<Write>, files: seq<ConfigFile>, paths: set<string>, p: string)
    requires Clean(fs0, paths) && WritesAmong(writes, paths) && Among(files, paths) && Listed(files, p)
    requires p !in fs0 && Touches(fs0, writes, p) >= 2
    ensures var fs := RestoreAll(AfterWrites(fs0, writes), files, {}).0;
      p in fs && fs[p] == FirstContent(fs0, writes, p) && BackupPath(p) !in fs
  {
    assert p in paths;
    WritesTrack(fs0, writes, paths, p);
    RestoreIsLocal(AfterWrites(fs0, writes), files, {}, paths, p);
  }

  /** A second restore removes every listed file, the originals that the first one brought back included. */
  lemma SecondRestoreRemoves(fs: Files, files: seq<ConfigFile>, paths: set<string>, p: string)
    requires Clean(map[], paths) && Among(files, paths) && Listed(files, p)
    ensures var fs2 := RestoreAll(RestoreAll(fs, files, {}).0, files, {}).0;
      p !in fs2 && BackupPath(p) !in fs2
  {
    assert p in paths;
    RestoreIsLocal(fs, files, {}, paths, p);
    RestoreIsLocal(RestoreAll(fs, files, {}).0, files, {}, paths, p);
  }

  /** The results report each listed path with what happened to it. */
  lemma {:induction false} ResultsReport(fs: Files, files: seq<ConfigFile>, seen: set<string>, paths: set<string>, p: string, o: Outcome)
    requires Clean(map[], paths) && Among(files, paths) && p in paths
    ensures RestoreResult(p, o) in RestoreAll(fs, files, seen).1 <==> Listed(files, p) && p !in seen && o == OutcomeOf(fs, p)
    decreases |files|
  {
    if files != [] {
      var q := files[0].path;
      ListedTail(files, p);
      if q in seen {
        ResultsReport(fs, files[1..], seen, paths, p, o);
      } else {
        ResultsReport(RestoreOne(fs, q), files[1..], seen + {q}, paths, p, o);
        if BackupPath(q) == BackupPath(p) {
          BackupPathIsInjective(q, p);
        }
      }
    }
  }

  /** The outcome reported for a path says what became of the file: restored means that it is there,
      with its backup's content; removed that it was there and is not; skipped that it never was. */
  lemma OutcomesAreTrue(fs: Files, files: seq<ConfigFile>, paths: set<string>, p: string)
    requires Clean(map[], paths) && Among(files, paths) && Listed(files, p)
    ensures var (after, results) := RestoreAll(fs, files, {});
      && (RestoreResult(p, Restored) in results <==> p in after)
      && (p in after ==> BackupPath(p) in fs && after[p] == fs[BackupPath(p)])
      && (RestoreResult(p, Removed) in results <==> p in fs && p !in after)
      && (RestoreResult(p, Skipped) in results <==> p !in fs && p !in after)
  {
    assert p in paths;
    RestoreIsLocal(fs, files, {}, paths, p);
    ResultsReport(fs, files, {}, paths, p, Restored);
    ResultsReport(fs, files, {}, paths, p, Removed);
    ResultsReport(fs, files, {}, paths, p, Skipped);
  }

  predicate NoPathTwice(results: seq<RestoreResult>) {
    results == [] || (NoPathTwice(results[1..]) && forall r :: r in results[1..] ==> r.path != results[0].path)
  }

  /** And no path twice, however often it is listed. */
  lemma {:induction false} NoResultTwice(fs: Files, files: seq<ConfigFile>, seen: set<string>)
    ensures NoPathTwice(RestoreAll(fs, files, seen).1)
    ensures forall r :: r in RestoreAll(fs, files, seen).1 ==> r.path !in seen
    decreases |files|
  {
    if files != [] {
      var q := files[0].path;
      if q in seen {
        NoResultTwice(fs, files[1..], seen);
      } else {
        NoResultTwice(RestoreOne(fs, q), files[1..], seen + {q});
        var tail := RestoreAll(RestoreOne(fs, q), files[1..], seen + {q}).1;
        assert ([RestoreResult(q, OutcomeOf(fs, q))] + tail)[1..] == tail;
      }
    }
  }

  // ---- the code ----

  class ConfigStore {
    var fs: Files

    constructor (fs: Files)
      ensures this.fs == fs
    {
      this.fs := fs;
    }

    method EnsureBackup(path: string)
      modifies this
      ensures fs == BackedUp(old(fs), path)
    {
      if path !in fs || BackupPath(path) in fs {
        return;
      }
      var data := fs[path];
      fs := fs[BackupPath(path) := data];
    }

    method WriteFiles(files: seq<ConfigFile>, budget: nat) returns (ok: bool)
      modifies this
      ensures (fs, ok) == WriteAll(old(fs), files, budget)
    {
      var left := budget;
      for i := 0 to |files|
        invariant WriteAll(fs, files[i..], left) == WriteAll(old(fs), files, budget)
      {
        var f := files[i];
        assert files[i..][0] == f && files[i..][1..] == files[i + 1..];
        if Unresolved(f.path) || left == 0 {
          return false;
        }
        EnsureBackup(f.path);
        if left == 1 {
          return false;
        }
        left := left - 2;
        var data := f.content;
        if f.append && f.path in fs {
          var existing := fs[f.path];
          data := existing + "\n" + f.content;
        }
        fs := fs[f.path := data];
      }
      return true;
    }

    method RestoreConfigFiles(files: seq<ConfigFile>, budget: nat) returns (results: seq<RestoreResult>, ok: bool)
      modifies this
      ensures var n := Reached(files, {}, budget);
        (fs, results) == RestoreAll(old(fs), files[..n], {}) && (ok <==> n == |files|)
    {
      var left := budget;
      ghost var n := Reached(files, {}, budget);
      results := [];
      var seen: set<string> := {};
      for i := 0 to |files|
        invariant n == i + Reached(files[i..], seen, left)
        invariant RestoreAll(old(fs), files[..n], {}).0 == RestoreAll(fs, files[i..n], seen).0
        invariant RestoreAll(old(fs), files[..n], {}).1 == results + RestoreAll(fs, files[i..n], seen).1
      {
        var path := files[i].path;
        assert files[i..][0] == files[i] && files[i..][1..] == files[i + 1..];
        if path !in seen && left == 0 {
          assert n == i && files[i..n] == [];
          assert results + [] == results;
          return results, false;
        }
        assert files[i..n][0] == files[i] && files[i..n][1..] == files[i + 1..n];
        if path in seen {
          continue;
        }
        left := left - 1;
        ghost var before, rest := fs, RestoreAll(RestoreOne(fs, path), files[i + 1..n], seen + {path});
        assert RestoreAll(fs, files[i..n], seen) == (rest.0, [RestoreResult(path, OutcomeOf(fs, path))] + rest.1);
        seen := seen + {path};
        var result := RestorePath(path);
        assert results + ([result] + rest.1) == (results + [result]) + rest.1;
        results := results + [result];
      }
      assert files[|files|..] == [] && files[|files|..n] == [];
      assert results + [] == results;
      ok := true;
    }

    /** The switch of the restore loop. */
    method RestorePath(path: string) returns (result: RestoreResult)
      modifies this
      ensures fs == RestoreOne(old(fs), path) && result == RestoreResult(path, OutcomeOf(old(fs), path))
    {
      var bak := BackupPath(path);
      result := RestoreResult(path, Skipped);
      if bak in fs {
        var data := fs[bak];
        fs := fs[path := data];
        fs := fs - {bak};
        result := RestoreResult(path, Restored);
      } else if path in fs {
        fs := fs - {path};
        result := RestoreResult(path, Removed);
      } else {
        assert fs - {path} == fs;
      }
    }
  }
}
