/**
 The migration runner. `exec` is what the database makes of one SQL command on a
 schema, None for an error. A run can be cut short at any file.
 */
module Migrations {
  import opened Wrappers
  import opened MigrationFiles

  datatype Row = Row(timestamp: int, name: string)

  /** `rows` is the migrations table, in insertion order; None when it does not exist. */
  datatype Tables<S> = Tables(schema: S, rows: Option<seq<Row>>)

  type Sql<!S> = (S, string) -> Option<S>

  function ExecAll<S>(exec: Sql<S>, schema: S, commands: seq<string>): Option<S> {
    if commands == [] then Some(schema)
    else
      match ExecAll(exec, schema, commands[..|commands| - 1])
      case None => None
      case Some(s) => exec(s, commands[|commands| - 1])
  }

  /** The schemas the commands go through one after the other, none of them failing. */
  ghost predicate Traces<S>(exec: Sql<S>, commands: seq<string>, trace: seq<S>) {
    && |trace| == |commands| + 1
    && forall i :: 0 <= i < |commands| ==> exec(trace[i], commands[i]) == Some(trace[i + 1])
  }

  ghost predicate LeadsTo<S(!new)>(exec: Sql<S>, commands: seq<string>, from: S, to: S) {
    exists trace :: Traces(exec, commands, trace) && trace[0] == from && trace[|commands|] == to
  }

  /** Commands have a result exactly when every one of them succeeds, on what the one before it left. */
  lemma {:induction false} ExecAllIff<S(!new)>(exec: Sql<S>, from: S, commands: seq<string>, to: S)
    ensures ExecAll(exec, from, commands) == Some(to) <==> LeadsTo(exec, commands, from, to)
    decreases |commands|
  {
    if commands == [] {
      if from == to {
        assert Traces(exec, commands, [from]);
      }
    } else {
      var n := |commands| - 1;
      var before := commands[..n];
      if trace :| Traces(exec, commands, trace) && trace[0] == from && trace[n + 1] == to {
        assert Traces(exec, before, trace[..n + 1]);
        ExecAllIff(exec, from, before, trace[n]);
      }
      var mid := ExecAll(exec, from, before);
      if mid.Some? && exec(mid.value, commands[n]) == Some(to) {
        ExecAllIff(exec, from, before, mid.value);
        var trace :| Traces(exec, before, trace) && trace[0] == from && trace[n] == mid.value;
        assert Traces(exec, commands, trace + [to]);
      }
    }
  }

  /** One file's effect on the schema: all its commands, or none. */
  function ExecFile<S>(exec: Sql<S>, schema: S, f: MigrationFile): Option<S> {
    ExecAll(exec, schema, SplitAndTrim(f.content))
  }

  function ExecFiles<S>(exec: Sql<S>, schema: S, files: seq<MigrationFile>): Option<S> {
    if files == [] then Some(schema)
    else
      match ExecFiles(exec, schema, files[..|files| - 1])
      case None => None
      case Some(s) => ExecFile(exec, s, files[|files| - 1])
  }

  /** The rows, where main.sql has created the table if nobody had. */
  function RowsOf<S>(t: Tables<S>): seq<Row> {
    t.rows.GetOr([])
  }

  function Timestamps(rows: seq<Row>): set<int> {
    set r <- rows :: r.timestamp
  }

  function LastTimestamp(rows: seq<Row>): (ts: int)
    ensures rows == [] ==> ts == 0
    ensures rows != [] ==> ts in Timestamps(rows) && forall r <- rows :: r.timestamp <= ts
  {
    if rows == [] then 0
    else
      var last := rows[|rows| - 1];
      if |rows| == 1 then last.timestamp
      else
        var before := LastTimestamp(rows[..|rows| - 1]);
        assert rows == rows[..|rows| - 1] + [last];
        if before < last.timestamp then last.timestamp else before
  }

  /** Success of one file: its commands ran, and its timestamp was new. */
  function Applied<S>(exec: Sql<S>, t: Tables<S>, f: MigrationFile): Option<Tables<S>> {
    match ExecFile(exec, t.schema, f)
    case None => None
    case Some(s) =>
      if f.timestamp in Timestamps(RowsOf(t)) then None
      else Some(Tables(s, Some(RowsOf(t) + [Row(f.timestamp, f.name)])))
  }

  datatype Result<S> = Result(tables: Tables<S>, ok: bool)

  /** A file whose name is in `broken` cannot be opened, or its transaction is not committed. */
  function AfterFile<S>(exec: Sql<S>, t: Tables<S>, f: MigrationFile, broken: set<string>): Result<S> {
    match Applied(exec, t, f)
    case Some(t') => if f.filename in broken then Result(t, false) else Result(t', true)
    case None => Result(t, false)
  }

  /** When a file is applied: all its commands run, its timestamp is new, and it can be opened and committed. */
  ghost predicate Applies<S(!new)>(exec: Sql<S>, t: Tables<S>, f: MigrationFile, broken: set<string>, schema: S) {
    && LeadsTo(exec, SplitAndTrim(f.content), t.schema, schema)
    && f.timestamp !in Timestamps(RowsOf(t)) && f.filename !in broken
  }

  lemma FileSucceedsIff<S(!new)>(exec: Sql<S>, t: Tables<S>, f: MigrationFile, broken: set<string>)
    ensures var after := AfterFile(exec, t, f, broken);
            && (after.ok <==> exists schema :: Applies(exec, t, f, broken, schema))
            && (after.ok ==> Applies(exec, t, f, broken, after.tables.schema)
                             && after.tables.rows == Some(RowsOf(t) + [Row(f.timestamp, f.name)]))
            && (!after.ok ==> after.tables == t)
  {
    hide LeadsTo, ExecAll, Timestamps, SplitAndTrim;
    var commands, result := SplitAndTrim(f.content), ExecFile(exec, t.schema, f);
    if result.Some? {
      ExecAllIff(exec, t.schema, commands, result.value);
      assert f.timestamp !in Timestamps(RowsOf(t)) && f.filename !in broken ==>
               Applies(exec, t, f, broken, result.value);
    }
    if schema :| Applies(exec, t, f, broken, schema) {
      ExecAllIff(exec, t.schema, commands, schema);
    }
  }

  /** The files in order, skipping those not later than `lastTs`, up to the first failure. */
  function AfterFiles<S>(exec: Sql<S>, t: Tables<S>, files: seq<MigrationFile>, lastTs: int, broken: set<string>)
    : Result<S>
  {
    if files == [] then Result(t, true)
    else
      var before := AfterFiles(exec, t, files[..|files| - 1], lastTs, broken);
      var f := files[|files| - 1];
      if !before.ok || f.timestamp <= lastTs then before
      else AfterFile(exec, before.tables, f, broken)
  }

  /** What one start of the server finds: the directory, and what goes wrong this time. */
  datatype Run = Run(entries: seq<Entry>, missing: bool, probeFails: bool, broken: set<string>)
  {
    function Files(): Option<seq<MigrationFile>> { if missing then None else Scanned(entries) }
  }

  function AfterMigrationFiles<S>(exec: Sql<S>, t: Tables<S>, run: Run): Result<S> {
    match run.Files()
    case None => Result(t, false)
    case Some(files) => AfterFiles(exec, t, files, LastTimestamp(RowsOf(t)), run.broken)
  }

  function MainFile(content: string): MigrationFile {
    MigrationFile(0, "main", "main.sql", content)
  }

  function AfterRun<S>(exec: Sql<S>, t: Tables<S>, main: string, run: Run): Result<S> {
    if t.rows.None? || run.probeFails then
      var started := AfterFile(exec, t, MainFile(main), run.broken);
      if started.ok then AfterMigrationFiles(exec, started.tables, run) else started
    else AfterMigrationFiles(exec, t, run)
  }

  class Migrator<!S(==, !new)> {
    const exec: Sql<S>
    var schema: S
    var rows: Option<seq<Row>>

    ghost function View(): Tables<S>
      reads this
    {
      Tables(schema, rows)
    }

    constructor (exec: Sql<S>, schema: S)
      ensures View() == Tables(schema, None) && this.exec == exec
    {
      this.exec, this.schema, this.rows := exec, schema, None;
    }

    /** The commands run on a draft; only a whole file, with its row, is committed. */
    method ApplyMigration(f: MigrationFile, broken: set<string>) returns (ok: bool)
      modifies this
      ensures Result(View(), ok) == AfterFile(exec, old(View()), f, broken)
      ensures ok <==> exists s :: Applies(exec, old(View()), f, broken, s)
      ensures ok ==> Applies(exec, old(View()), f, broken, schema)
      ensures ok ==> rows == Some(RowsOf(old(View())) + [Row(f.timestamp, f.name)])
      ensures !ok ==> View() == old(View())
    {
      FileSucceedsIff(exec, View(), f, broken);
      hide Applies;
      var commands := SplitAndTrim(f.content);
      var draft := Some(schema);
      for i := 0 to |commands|
        invariant draft == ExecAll(exec, schema, commands[..i])
        invariant draft.Some?
      {
        draft := exec(draft.value, commands[i]);
        assert commands[..i + 1][..i] == commands[..i];
        if draft.None? {
          ExecAllFails(exec, schema, commands, i + 1);
          return false;
        }
      }
      assert commands[..|commands|] == commands;
      var table := rows.GetOr([]);
      if f.timestamp in Timestamps(table) {
        return false;
      }
      if f.filename in broken {
        return false;
      }
      schema, rows := draft.value, Some(table + [Row(f.timestamp, f.name)]);
      return true;
    }

    method ApplyMigrationFiles(run: Run) returns (ok: bool)
      modifies this
      ensures Result(View(), ok) == AfterMigrationFiles(exec, old(View()), run)
    {
      hide AfterFile;
      var lastTs := LastTimestamp(rows.GetOr([]));
      var files := ScanMigrationFiles(run.entries, run.missing);
      if files.None? {
        return false;
      }
      for i := 0 to |files.value|
        invariant AfterFiles(exec, old(View()), files.value[..i], lastTs, run.broken) == Result(View(), true)
      {
        var f := files.value[i];
        assert files.value[..i + 1][..i] == files.value[..i];
        if f.timestamp <= lastTs {
          continue;
        }
        ok := ApplyMigration(f, run.broken);
        if !ok {
          StopsAtFailure(exec, old(View()), files.value, i + 1, lastTs, run.broken);
          return false;
        }
      }
      assert files.value[..|files.value|] == files.value;
      return true;
    }

    method MigrateDatabase(main: string, run: Run) returns (ok: bool)
      modifies this
      ensures Result(View(), ok) == AfterRun(exec, old(View()), main, run)
    {
      if rows.None? || run.probeFails {
        ok := ApplyMigration(MainFile(main), run.broken);
        if !ok {
          return false;
        }
      }
      ok := ApplyMigrationFiles(run);
    }
  }

  lemma {:induction false} ExecAllFails<S>(exec: Sql<S>, schema: S, commands: seq<string>, i: nat)
    requires i <= |commands| && ExecAll(exec, schema, commands[..i]).None?
    ensures ExecAll(exec, schema, commands).None?
    decreases |commands|
  {
    if i == |commands| {
      assert commands[..i] == commands;
    } else {
      assert commands[..|commands| - 1][..i] == commands[..i];
      ExecAllFails(exec, schema, commands[..|commands| - 1], i);
    }
  }

  lemma {:induction false} StopsAtFailure<S>(exec: Sql<S>, t: Tables<S>, files: seq<MigrationFile>, i: nat, lastTs: int,
                                             broken: set<string>)
    requires i <= |files| && !AfterFiles(exec, t, files[..i], lastTs, broken).ok
    ensures AfterFiles(exec, t, files, lastTs, broken) == AfterFiles(exec, t, files[..i], lastTs, broken)
    decreases |files|
  {
    if i == |files| {
      assert files[..i] == files;
    } else {
      assert files[..|files| - 1][..i] == files[..i];
      StopsAtFailure(exec, t, files[..|files| - 1], i, lastTs, broken);
    }
  }

  // Progress through the sorted list of files.

  function RowOf(f: MigrationFile): Row { Row(f.timestamp, f.name) }

  function RowsFor(files: seq<MigrationFile>): (rows: seq<Row>)
    ensures |rows| == |files|
  {
    seq(|files|, i requires 0 <= i < |files| => RowOf(files[i]))
  }

  /** Exactly the first `k` files have been applied, once each, after main.sql. */
  ghost predicate Reached<S>(exec: Sql<S>, schema: S, main: string, t: Tables<S>, files: seq<MigrationFile>, k: nat) {
    && k <= |files|
    && t.rows == Some([RowOf(MainFile(main))] + RowsFor(files[..k]))
    && ExecFiles(exec, schema, [MainFile(main)] + files[..k]) == Some(t.schema)
  }

  /** Distinct positive timestamps, in order. */
  ghost predicate Ascending(files: seq<MigrationFile>) {
    && (forall i :: 0 <= i < |files| ==> files[i].timestamp > 0)
    && (forall i, j :: 0 <= i < j < |files| ==> files[i].timestamp < files[j].timestamp)
  }

  /** The rows after `k` files, and their timestamps in ascending order. */
  lemma RowsAscend(main: string, files: seq<MigrationFile>, k: nat)
    requires Ascending(files) && k <= |files|
    ensures var rows := [RowOf(MainFile(main))] + RowsFor(files[..k]);
            && |rows| == k + 1
            && (forall i :: 0 <= i <= k ==> rows[i].timestamp == if i == 0 then 0 else files[i - 1].timestamp)
            && forall i, j :: 0 <= i < j <= k ==> rows[i].timestamp < rows[j].timestamp
  {
    var rows := [RowOf(MainFile(main))] + RowsFor(files[..k]);
    assert forall i :: 0 < i <= k ==> rows[i] == RowOf(files[i - 1]);
  }

  lemma LastOfAscending(rows: seq<Row>)
    requires rows != [] && forall i, j :: 0 <= i < j < |rows| ==> rows[i].timestamp < rows[j].timestamp
    ensures LastTimestamp(rows) == rows[|rows| - 1].timestamp
    ensures forall ts :: ts in Timestamps(rows) <==> exists i :: 0 <= i < |rows| && rows[i].timestamp == ts
  {
    hide LastTimestamp;
    var last := LastTimestamp(rows);
    assert last in Timestamps(rows);
    var r :| r in rows && r.timestamp == last;
    assert rows[|rows| - 1] in rows;
    forall i | 0 <= i < |rows| ensures rows[i].timestamp in Timestamps(rows) {
      assert rows[i] in rows;
    }
  }

  lemma ReachedTimestamps<S>(exec: Sql<S>, schema: S, main: string, t: Tables<S>, files: seq<MigrationFile>, k: nat)
    requires Reached(exec, schema, main, t, files, k) && Ascending(files)
    ensures LastTimestamp(RowsOf(t)) == if k == 0 then 0 else files[k - 1].timestamp
    ensures forall i :: k <= i < |files| ==> files[i].timestamp !in Timestamps(RowsOf(t))
  {
    hide LastTimestamp, Timestamps, RowsFor, ExecFiles;
    RowsAscend(main, files, k);
    LastOfAscending(RowsOf(t));
  }

  lemma RowsForNext(files: seq<MigrationFile>, k: nat)
    requires k < |files|
    ensures RowsFor(files[..k + 1]) == RowsFor(files[..k]) + [RowOf(files[k])]
  {
  }

  lemma ExecNext<S>(exec: Sql<S>, schema: S, main: string, s: S, files: seq<MigrationFile>, k: nat)
    requires k < |files| && ExecFiles(exec, schema, [MainFile(main)] + files[..k]) == Some(s)
    ensures ExecFiles(exec, schema, [MainFile(main)] + files[..k + 1]) == ExecFile(exec, s, files[k])
  {
    hide ExecFile;
    var all := [MainFile(main)] + files[..k + 1];
    assert all[..|all| - 1] == [MainFile(main)] + files[..k];
  }

  /** One more file, from a state that has reached exactly the files before it. */
  lemma ReachedNext<S>(exec: Sql<S>, schema: S, main: string, t: Tables<S>, files: seq<MigrationFile>, k: nat,
                       broken: set<string>)
    requires Reached(exec, schema, main, t, files, k) && Ascending(files) && k < |files|
    ensures var after := AfterFile(exec, t, files[k], broken);
            if after.ok then Reached(exec, schema, main, after.tables, files, k + 1) else after.tables == t
  {
    hide Ascending, ExecFile, ExecFiles, Timestamps, RowsFor;
    ReachedTimestamps(exec, schema, main, t, files, k);
    RowsForNext(files, k);
    ExecNext(exec, schema, main, t.schema, files, k);
    var row := [RowOf(MainFile(main))];
    assert row + RowsFor(files[..k + 1]) == (row + RowsFor(files[..k])) + [RowOf(files[k])];
  }

  /** A run of the first `n` files leads to the prefix it got to. */
  lemma {:induction false} FilesReach<S>(exec: Sql<S>, schema: S, main: string, t: Tables<S>, files: seq<MigrationFile>,
                                         k: nat, n: nat, broken: set<string>) returns (m: nat)
    requires Reached(exec, schema, main, t, files, k) && Ascending(files) && n <= |files|
    ensures var after := AfterFiles(exec, t, files[..n], LastTimestamp(RowsOf(t)), broken);
            && k <= m && Reached(exec, schema, main, after.tables, files, m)
            && (after.ok ==> m == if n > k then n else k)
            && (n <= k ==> after.ok)
            && (after.tables != t ==> m > k)
            && (m == k ==> after.tables == t)
    decreases n
  {
    hide Reached, AfterFile;
    m := k;
    if n > 0 {
      ReachedTimestamps(exec, schema, main, t, files, k);
      m := FilesReach(exec, schema, main, t, files, k, n - 1, broken);
      assert files[..n][..n - 1] == files[..n - 1];
      ReachedBound(exec, schema, main, t, files, k);
      var before := AfterFiles(exec, t, files[..n - 1], LastTimestamp(RowsOf(t)), broken);
      if before.ok && n > k {
        ReachedNext(exec, schema, main, before.tables, files, n - 1, broken);
        if AfterFile(exec, before.tables, files[n - 1], broken).ok {
          m := n;
        }
      }
    }
  }

  lemma ReachedBound<S>(exec: Sql<S>, schema: S, main: string, t: Tables<S>, files: seq<MigrationFile>, k: nat)
    requires Reached(exec, schema, main, t, files, k)
    ensures k <= |files|
  {
  }

  /** Before the first successful main.sql, or after some number of files. */
  ghost predicate Progress<S>(exec: Sql<S>, schema: S, main: string, t: Tables<S>, files: seq<MigrationFile>) {
    t == Tables(schema, None) || exists k :: Reached(exec, schema, main, t, files, k)
  }

  lemma MainReaches<S>(exec: Sql<S>, schema: S, main: string, files: seq<MigrationFile>, broken: set<string>)
    ensures var after := AfterFile(exec, Tables(schema, None), MainFile(main), broken);
            if after.ok then Reached(exec, schema, main, after.tables, files, 0)
            else after.tables == Tables(schema, None)
  {
    assert [MainFile(main)] + files[..0] == [MainFile(main)];
    var one := [MainFile(main)];
    assert one[..0] == [];
    assert ExecFiles(exec, schema, one) == ExecFile(exec, schema, one[0]);
    var row := RowOf(MainFile(main));
    assert [row] + RowsFor(files[..0]) == [row] == RowsOf(Tables(schema, None)) + [row];
  }

  /** main.sql is never applied a second time: its row is already there. */
  lemma MainIsNotRepeated<S>(exec: Sql<S>, schema: S, main: string, t: Tables<S>, files: seq<MigrationFile>, k: nat,
                             broken: set<string>)
    requires Reached(exec, schema, main, t, files, k)
    ensures AfterFile(exec, t, MainFile(main), broken) == Result(t, false)
  {
    assert RowsOf(t)[0] == RowOf(MainFile(main));
    assert 0 in Timestamps(RowsOf(t));
  }

  /** One whole run, whatever goes wrong in it, moves from one prefix to another, and to the end when it succeeds. */
  lemma RunReaches<S>(exec: Sql<S>, schema: S, main: string, t: Tables<S>, files: seq<MigrationFile>, run: Run)
    requires Progress(exec, schema, main, t, files)
    requires run.Files() == Some(files) && Ascending(files)
    ensures var after := AfterRun(exec, t, main, run);
            && Progress(exec, schema, main, after.tables, files)
            && (after.ok ==> Reached(exec, schema, main, after.tables, files, |files|))
            && (Reached(exec, schema, main, t, files, |files|) ==> after.tables == t && (after.ok <==> !run.probeFails))
  {
    hide Reached, AfterFile, AfterFiles, LastTimestamp;
    assert files[..|files|] == files;
    if k: nat :| Reached(exec, schema, main, t, files, k) {
      ReachedTable(exec, schema, main, t, files, k);
      MainIsNotRepeated(exec, schema, main, t, files, k, run.broken);
      var m := FilesReach(exec, schema, main, t, files, k, |files|, run.broken);
      if Reached(exec, schema, main, t, files, |files|) {
        var m' := FilesReach(exec, schema, main, t, files, |files|, |files|, run.broken);
        var t' := AfterFiles(exec, t, files, LastTimestamp(RowsOf(t)), run.broken).tables;
        ReachedBound(exec, schema, main, t', files, m');
      }
    } else {
      MainReaches(exec, schema, main, files, run.broken);
      var started := AfterFile(exec, t, MainFile(main), run.broken);
      if started.ok {
        var m := FilesReach(exec, schema, main, started.tables, files, 0, |files|, run.broken);
      }
    }
  }

  lemma ReachedTable<S>(exec: Sql<S>, schema: S, main: string, t: Tables<S>, files: seq<MigrationFile>, k: nat)
    requires Reached(exec, schema, main, t, files, k)
    ensures t.rows.Some? && k <= |files|
  {
  }

  /** A longer list with the same beginning does not undo progress. */
  lemma ProgressInLongerList<S>(exec: Sql<S>, schema: S, main: string, t: Tables<S>, files: seq<MigrationFile>,
                                longer: seq<MigrationFile>)
    requires Progress(exec, schema, main, t, files) && files <= longer
    ensures Progress(exec, schema, main, t, longer)
  {
    if k: nat :| Reached(exec, schema, main, t, files, k) {
      assert longer[..k] == files[..k];
      assert Reached(exec, schema, main, t, longer, k);
    }
  }

  function AfterRuns<S>(exec: Sql<S>, t: Tables<S>, main: string, runs: seq<Run>): Tables<S> {
    if runs == [] then t
    else AfterRun(exec, AfterRuns(exec, t, main, runs[..|runs| - 1]), main, runs[|runs| - 1]).tables
  }

  /** The files of the last run whose directory could be read. */
  function LastFiles(runs: seq<Run>): seq<MigrationFile> {
    if runs == [] then []
    else
      var last := runs[|runs| - 1];
      if last.Files().Some? then last.Files().value else LastFiles(runs[..|runs| - 1])
  }

  /**
   Every readable directory is ascending and begins with the one read before it;
   others may be missing or unreadable.
   */
  ghost predicate Growing(runs: seq<Run>) {
    forall i :: 0 <= i < |runs| && runs[i].Files().Some? ==>
      Ascending(runs[i].Files().value) && LastFiles(runs[..i]) <= runs[i].Files().value
  }

  lemma GrowingBefore(runs: seq<Run>)
    requires runs != [] && Growing(runs)
    ensures Growing(runs[..|runs| - 1])
    ensures runs[|runs| - 1].Files().Some? ==>
              && Ascending(runs[|runs| - 1].Files().value)
              && LastFiles(runs[..|runs| - 1]) <= runs[|runs| - 1].Files().value
  {
    var before := runs[..|runs| - 1];
    forall i | 0 <= i < |before| && before[i].Files().Some?
      ensures Ascending(before[i].Files().value) && LastFiles(before[..i]) <= before[i].Files().value
    {
      assert before[i] == runs[i] && before[..i] == runs[..i];
    }
  }

  /** A start whose directory cannot be read applies main.sql at most. */
  lemma UnreadableRun<S>(exec: Sql<S>, schema: S, main: string, t: Tables<S>, files: seq<MigrationFile>, run: Run)
    requires Progress(exec, schema, main, t, files) && run.Files().None?
    ensures var after := AfterRun(exec, t, main, run);
            !after.ok && Progress(exec, schema, main, after.tables, files) && (t.rows.Some? ==> after.tables == t)
  {
    hide Reached, AfterFile, Run.Files;
    if k: nat :| Reached(exec, schema, main, t, files, k) {
      ReachedTable(exec, schema, main, t, files, k);
      MainIsNotRepeated(exec, schema, main, t, files, k, run.broken);
    } else {
      MainReaches(exec, schema, main, files, run.broken);
    }
  }

  /** A directory grows in this sense when later files are added, however it is listed. */
  lemma LaterFilesGrow(run: Run, next: Run, more: seq<MigrationFile>)
    requires !run.missing && !next.missing
    requires ReadAll(run.entries).Some? && ReadAll(next.entries).Some?
    requires multiset(ReadAll(next.entries).value) == multiset(ReadAll(run.entries).value) + multiset(more)
    requires Ascending(run.Files().value) && Distinct(Sort(more))
    requires forall x <- ReadAll(run.entries).value, y <- more :: x.timestamp < y.timestamp
    ensures run.Files().value <= next.Files().value
  {
    hide Sort;
    LaterFilesExtend(ReadAll(run.entries).value, more, ReadAll(next.entries).value);
  }

  /**
   Interrupted runs compose: whatever failed in whichever run, the applied rows are
   main.sql and a prefix of the sorted files, and the schema is the fold of that prefix.
   */
  lemma {:induction false} InterruptedRunsCompose<S>(exec: Sql<S>, schema: S, main: string, runs: seq<Run>)
    requires Growing(runs)
    ensures Progress(exec, schema, main, AfterRuns(exec, Tables(schema, None), main, runs), LastFiles(runs))
    decreases |runs|
  {
    hide Progress, AfterRun, Ascending, Run.Files, Growing;
    if runs == [] {
      NothingApplied(exec, schema, main, []);
    } else {
      var before, last := runs[..|runs| - 1], runs[|runs| - 1];
      var t := AfterRuns(exec, Tables(schema, None), main, before);
      GrowingBefore(runs);
      InterruptedRunsCompose(exec, schema, main, before);
      if last.Files().Some? {
        ProgressInLongerList(exec, schema, main, t, LastFiles(before), last.Files().value);
        RunReaches(exec, schema, main, t, last.Files().value, last);
      } else {
        UnreadableRun(exec, schema, main, t, LastFiles(before), last);
      }
    }
  }

  lemma NothingApplied<S>(exec: Sql<S>, schema: S, main: string, files: seq<MigrationFile>)
    ensures Progress(exec, schema, main, Tables(schema, None), files)
  {
  }

  /** After a successful run everything is applied, and running again changes nothing. */
  lemma NothingLeftToDo<S>(exec: Sql<S>, schema: S, main: string, runs: seq<Run>, again: Run)
    requires runs != [] && Growing(runs) && again.Files() == runs[|runs| - 1].Files()
    ensures var before := AfterRuns(exec, Tables(schema, None), main, runs[..|runs| - 1]);
            var last := AfterRun(exec, before, main, runs[|runs| - 1]);
            last.ok ==>
              && again.Files().Some?
              && Reached(exec, schema, main, last.tables, again.Files().value, |again.Files().value|)
              && AfterRun(exec, last.tables, main, again).tables == last.tables
              && (AfterRun(exec, last.tables, main, again).ok <==> !again.probeFails)
  {
    hide AfterRun, Ascending, Run.Files, Reached, Growing;
    var before, last := runs[..|runs| - 1], runs[|runs| - 1];
    var t := AfterRuns(exec, Tables(schema, None), main, before);
    GrowingBefore(runs);
    InterruptedRunsCompose(exec, schema, main, before);
    if last.Files().None? {
      UnreadableRun(exec, schema, main, t, LastFiles(before), last);
    } else {
      var files := last.Files().value;
      ProgressInLongerList(exec, schema, main, t, LastFiles(before), files);
      RunReaches(exec, schema, main, t, files, last);
      var after := AfterRun(exec, t, main, last);
      if after.ok {
        assert Progress(exec, schema, main, after.tables, files);
        RunReaches(exec, schema, main, after.tables, files, again);
      }
    }
  }

  /** No file is applied twice, in any state that interrupted runs can lead to. */
  lemma NoFileTwice<S>(exec: Sql<S>, schema: S, main: string, t: Tables<S>, files: seq<MigrationFile>)
    requires Progress(exec, schema, main, t, files) && Ascending(files)
    ensures var rows := RowsOf(t);
            forall i, j :: 0 <= i < j < |rows| ==> rows[i].timestamp < rows[j].timestamp
  {
    hide ExecFiles, RowsFor;
    if k: nat :| Reached(exec, schema, main, t, files, k) {
      RowsAscend(main, files, k);
    }
  }

  // Without the conditions on the directory.

  /**
   Whatever the directory, a successful pass applies a file exactly when it is later
   than everything applied before: a file added late with an early timestamp is skipped.
   */
  lemma {:induction false} SuccessAppliesLaterFiles<S>(exec: Sql<S>, t: Tables<S>, files: seq<MigrationFile>,
                                                       lastTs: int, broken: set<string>)
    requires AfterFiles(exec, t, files, lastTs, broken).ok
    ensures RowsOf(AfterFiles(exec, t, files, lastTs, broken).tables) ==
            RowsOf(t) + RowsFor(LaterThan(files, lastTs))
    decreases |files|
  {
    if files == [] {
      assert RowsOf(t) + RowsFor([]) == RowsOf(t);
    } else {
      var before, f := files[..|files| - 1], files[|files| - 1];
      SuccessAppliesLaterFiles(exec, t, before, lastTs, broken);
      if f.timestamp > lastTs {
        assert RowsFor(LaterThan(before, lastTs) + [f]) == RowsFor(LaterThan(before, lastTs)) + [RowOf(f)];
      }
    }
  }

  function LaterThan(files: seq<MigrationFile>, ts: int): seq<MigrationFile> {
    if files == [] then []
    else
      var before, f := LaterThan(files[..|files| - 1], ts), files[|files| - 1];
      if f.timestamp > ts then before + [f] else before
  }

  /** Exactly when a pass over sorted files succeeds, and what it has then done. */
  ghost predicate PassRuns<S>(exec: Sql<S>, t: Tables<S>, later: seq<MigrationFile>, broken: set<string>) {
    && ExecFiles(exec, t.schema, later).Some?
    && (forall f <- later :: f.filename !in broken)
    && Distinct(later)
  }

  /** One more later file, after a pass that succeeded. */
  lemma NextFileIff<S>(exec: Sql<S>, t: Tables<S>, later: seq<MigrationFile>, f: MigrationFile, broken: set<string>)
    requires PassRuns(exec, t, later, broken) && f.timestamp !in Timestamps(RowsOf(t))
    ensures var t' := Tables(ExecFiles(exec, t.schema, later).value, Some(RowsOf(t) + RowsFor(later)));
            AfterFile(exec, t', f, broken).ok <==> PassRuns(exec, t, later + [f], broken)
  {
    hide ExecFile;
    var more := later + [f];
    var t' := Tables(ExecFiles(exec, t.schema, later).value, Some(RowsOf(t) + RowsFor(later)));
    assert more[..|more| - 1] == later;
    DistinctNextIff(later, f);
    TakenIff(RowsOf(t), later, f.timestamp);
  }

  lemma DistinctNextIff(later: seq<MigrationFile>, f: MigrationFile)
    requires Distinct(later)
    ensures Distinct(later + [f]) <==> forall g <- later :: g.timestamp != f.timestamp
  {
    var more := later + [f];
    assert more[|later|] == f && forall i :: 0 <= i < |later| ==> more[i] == later[i];
    if Distinct(more) {
      forall g | g in later ensures g.timestamp != f.timestamp {
        var i :| 0 <= i < |later| && later[i] == g;
        assert more[i].timestamp != more[|later|].timestamp;
      }
    }
  }

  lemma TakenIff(rows: seq<Row>, later: seq<MigrationFile>, ts: int)
    ensures ts in Timestamps(rows + RowsFor(later)) <==>
              ts in Timestamps(rows) || exists g <- later :: g.timestamp == ts
  {
    var all := rows + RowsFor(later);
    forall i | 0 <= i < |later| ensures RowOf(later[i]) in all {
      assert all[|rows| + i] == RowOf(later[i]);
    }
    if r :| r in RowsFor(later) && r.timestamp == ts {
      var i :| 0 <= i < |later| && RowsFor(later)[i] == r;
      assert later[i] in later;
    }
    if g :| g in later && g.timestamp == ts {
      var i :| 0 <= i < |later| && later[i] == g;
      assert RowOf(later[i]).timestamp == ts;
    }
  }

  lemma LaterThanLast(rows: seq<Row>, ts: int)
    requires ts > LastTimestamp(rows)
    ensures ts !in Timestamps(rows)
  {
  }

  /**
   Whatever the directory, a pass succeeds if and only if every later file's commands
   run, none of them is broken and no two have one timestamp.
   */
  lemma {:induction false} PassSucceedsIff<S>(exec: Sql<S>, t: Tables<S>, files: seq<MigrationFile>,
                                              broken: set<string>)
    ensures var lastTs := LastTimestamp(RowsOf(t));
            var after, later := AfterFiles(exec, t, files, lastTs, broken), LaterThan(files, lastTs);
            && (after.ok <==> PassRuns(exec, t, later, broken))
            && (after.ok && later == [] ==> after.tables == t)
            && (after.ok && later != [] ==>
                  after.tables == Tables(ExecFiles(exec, t.schema, later).value, Some(RowsOf(t) + RowsFor(later))))
    decreases |files|
  {
    hide PassRuns, AfterFile, LastTimestamp;
    var lastTs := LastTimestamp(RowsOf(t));
    if files == [] {
      NothingLater(exec, t, broken);
    } else {
      var before, f := files[..|files| - 1], files[|files| - 1];
      var later := LaterThan(before, lastTs);
      PassSucceedsIff(exec, t, before, broken);
      if f.timestamp > lastTs {
        LaterThanLast(RowsOf(t), f.timestamp);
        if PassRuns(exec, t, later, broken) {
          NothingLater(exec, t, broken);
          NextFileIff(exec, t, later, f, broken);
          NextFileOutcome(exec, t, later, f, broken);
        } else {
          FewerLaterFiles(exec, t, later, f, broken);
        }
      }
    }
  }

  lemma NothingLater<S>(exec: Sql<S>, t: Tables<S>, broken: set<string>)
    ensures PassRuns(exec, t, [], broken) && ExecFiles(exec, t.schema, []) == Some(t.schema)
    ensures RowsOf(t) + RowsFor([]) == RowsOf(t)
  {
  }

  lemma FewerLaterFiles<S>(exec: Sql<S>, t: Tables<S>, later: seq<MigrationFile>, f: MigrationFile, broken: set<string>)
    ensures PassRuns(exec, t, later + [f], broken) ==> PassRuns(exec, t, later, broken)
  {
    hide ExecFile;
    var more := later + [f];
    assert more[..|more| - 1] == later;
    assert forall i :: 0 <= i < |later| ==> more[i] == later[i];
    assert forall g <- later :: g in more;
  }

  /** Whether the table was there before or not, the next file sees the same rows. */
  lemma NextFileOutcome<S>(exec: Sql<S>, t: Tables<S>, later: seq<MigrationFile>, f: MigrationFile, broken: set<string>)
    requires PassRuns(exec, t, later, broken)
    ensures var t' := Tables(ExecFiles(exec, t.schema, later).value, Some(RowsOf(t) + RowsFor(later)));
            var after := AfterFile(exec, t', f, broken);
            && (after.ok ==> after.tables == Tables(ExecFiles(exec, t.schema, later + [f]).value,
                                                    Some(RowsOf(t) + RowsFor(later + [f]))))
            && (after.ok ==> ExecFiles(exec, t.schema, later + [f]).Some?)
            && (later == [] ==> AfterFile(exec, t, f, broken).ok == after.ok
                                && (after.ok ==> AfterFile(exec, t, f, broken).tables == after.tables))
  {
    hide ExecFile;
    var more := later + [f];
    assert more[..|more| - 1] == later;
    assert RowsFor(more) == RowsFor(later) + [RowOf(f)];
    assert RowsOf(t) + RowsFor(more) == RowsOf(t) + RowsFor(later) + [RowOf(f)];
    NothingLater(exec, t, broken);
  }

  lemma {:induction false} LaterThanReached(files: seq<MigrationFile>, k: nat, n: nat)
    requires Ascending(files) && k <= n <= |files|
    ensures LaterThan(files[..n], if k == 0 then 0 else files[k - 1].timestamp) == files[k..n]
    decreases n
  {
    if n > 0 {
      assert files[..n][..n - 1] == files[..n - 1];
      if n == k {
        AllEarlier(files, k, n);
      } else {
        LaterThanReached(files, k, n - 1);
      }
    }
  }

  lemma {:induction false} AllEarlier(files: seq<MigrationFile>, k: nat, n: nat)
    requires Ascending(files) && n <= k <= |files| && k > 0
    ensures LaterThan(files[..n], files[k - 1].timestamp) == []
    decreases n
  {
    if n > 0 {
      assert files[..n][..n - 1] == files[..n - 1];
      AllEarlier(files, k, n - 1);
    }
  }

  /**
   After the first `k` files, a run gets to the end if and only if the commands of all
   remaining files run one after the other and none of these files is broken.
   */
  lemma RunFinishesIff<S>(exec: Sql<S>, schema: S, main: string, t: Tables<S>, files: seq<MigrationFile>, k: nat,
                          run: Run)
    requires Reached(exec, schema, main, t, files, k) && Ascending(files)
    requires run.Files() == Some(files) && !run.probeFails
    ensures AfterRun(exec, t, main, run).ok <==>
              && ExecFiles(exec, t.schema, files[k..]).Some?
              && forall f <- files[k..] :: f.filename !in run.broken
  {
    hide Reached, AfterFile, AfterFiles, LastTimestamp, ExecFiles, LaterThan;
    ReachedTable(exec, schema, main, t, files, k);
    ReachedTimestamps(exec, schema, main, t, files, k);
    LaterThanReached(files, k, |files|);
    assert files[..|files|] == files && files[k..|files|] == files[k..];
    PassSucceedsIff(exec, t, files, run.broken);
    assert Distinct(files[k..]);
  }

  /** The first run of all: main.sql has to run, and then every file. */
  lemma FirstRunFinishesIff<S>(exec: Sql<S>, schema: S, main: string, files: seq<MigrationFile>, run: Run)
    requires run.Files() == Some(files) && Ascending(files)
    ensures AfterRun(exec, Tables(schema, None), main, run).ok <==>
              && ExecFiles(exec, schema, [MainFile(main)] + files).Some?
              && forall f <- [MainFile(main)] + files :: f.filename !in run.broken
  {
    hide Reached, AfterFiles, ExecFile, LastTimestamp, Timestamps;
    var t, one := Tables(schema, None), [MainFile(main)];
    var started := AfterFile(exec, t, MainFile(main), run.broken);
    ExecSplit(exec, schema, one, files);
    assert one[..0] == [] && ExecFiles(exec, schema, one) == ExecFile(exec, schema, one[0]);
    assert MainFile(main) in one + files && forall f <- files :: f in one + files;
    NoTimestamps<S>(t);
    if started.ok {
      MainReaches(exec, schema, main, files, run.broken);
      var next := run.(probeFails := false);
      RunFinishesIff(exec, schema, main, started.tables, files, 0, next);
      ReachedTable(exec, schema, main, started.tables, files, 0);
      assert files[0..] == files;
      assert next.Files() == run.Files();
    }
  }

  lemma NoTimestamps<S>(t: Tables<S>)
    requires t.rows.None?
    ensures Timestamps(RowsOf(t)) == {}
  {
  }

  lemma {:induction false} ExecSplit<S>(exec: Sql<S>, schema: S, a: seq<MigrationFile>, b: seq<MigrationFile>)
    ensures ExecFiles(exec, schema, a + b) ==
            (match ExecFiles(exec, schema, a) case None => None case Some(s) => ExecFiles(exec, s, b))
    decreases |b|
  {
    hide ExecFile;
    if b == [] {
      assert a + b == a;
    } else {
      var all := a + b;
      assert all[..|all| - 1] == a + b[..|b| - 1] && all[|all| - 1] == b[|b| - 1];
      ExecSplit(exec, schema, a, b[..|b| - 1]);
    }
  }

  // Rows are for good, and so is one row per timestamp.

  ghost predicate OneRowEach(rows: seq<Row>) {
    forall i, j :: 0 <= i < j < |rows| ==> rows[i].timestamp != rows[j].timestamp
  }

  /** Rows are only added, and never a second one for a timestamp. */
  ghost predicate RowsGrow<S>(t: Tables<S>, t': Tables<S>) {
    RowsOf(t) <= RowsOf(t') && (OneRowEach(RowsOf(t)) ==> OneRowEach(RowsOf(t')))
  }

  lemma FileRowsGrow<S>(exec: Sql<S>, t: Tables<S>, f: MigrationFile, broken: set<string>)
    ensures RowsGrow(t, AfterFile(exec, t, f, broken).tables)
  {
    hide ExecFile;
    var rows := RowsOf(t);
    forall i | 0 <= i < |rows| ensures rows[i].timestamp in Timestamps(rows) {
      assert rows[i] in rows;
    }
  }

  lemma {:induction false} FilesRowsGrow<S>(exec: Sql<S>, t: Tables<S>, files: seq<MigrationFile>, lastTs: int,
                                            broken: set<string>)
    ensures RowsGrow(t, AfterFiles(exec, t, files, lastTs, broken).tables)
    decreases |files|
  {
    hide AfterFile, OneRowEach;
    if files != [] {
      FilesRowsGrow(exec, t, files[..|files| - 1], lastTs, broken);
      FileRowsGrow(exec, AfterFiles(exec, t, files[..|files| - 1], lastTs, broken).tables, files[|files| - 1], broken);
    }
  }

  lemma RunRowsGrow<S>(exec: Sql<S>, t: Tables<S>, main: string, run: Run)
    ensures RowsGrow(t, AfterRun(exec, t, main, run).tables)
  {
    hide AfterFile, AfterFiles, OneRowEach, LastTimestamp, Run.Files;
    FileRowsGrow(exec, t, MainFile(main), run.broken);
    var started := AfterFile(exec, t, MainFile(main), run.broken).tables;
    if run.Files().Some? {
      FilesRowsGrow(exec, t, run.Files().value, LastTimestamp(RowsOf(t)), run.broken);
      FilesRowsGrow(exec, started, run.Files().value, LastTimestamp(RowsOf(started)), run.broken);
    }
  }

  lemma {:induction false} RunsRowsGrow<S>(exec: Sql<S>, t: Tables<S>, main: string, runs: seq<Run>)
    ensures RowsGrow(t, AfterRuns(exec, t, main, runs))
    decreases |runs|
  {
    hide AfterRun, OneRowEach;
    if runs != [] {
      RunsRowsGrow(exec, t, main, runs[..|runs| - 1]);
      RunRowsGrow(exec, AfterRuns(exec, t, main, runs[..|runs| - 1]), main, runs[|runs| - 1]);
    }
  }

  /**
   Of two files with one timestamp only one is ever applied: from any state with one row
   per timestamp in which one of them has its row, no runs over any directories add the other's.
   */
  lemma DuplicateIsNeverApplied<S>(exec: Sql<S>, t: Tables<S>, main: string, runs: seq<Run>, f: MigrationFile,
                                   g: MigrationFile)
    requires OneRowEach(RowsOf(t)) && RowOf(f) in RowsOf(t)
    requires f.timestamp == g.timestamp && RowOf(f) != RowOf(g)
    ensures RowOf(f) in RowsOf(AfterRuns(exec, t, main, runs))
    ensures RowOf(g) !in RowsOf(AfterRuns(exec, t, main, runs))
  {
    hide AfterRuns;
    RunsRowsGrow(exec, t, main, runs);
    var rows, rows' := RowsOf(t), RowsOf(AfterRuns(exec, t, main, runs));
    var i :| 0 <= i < |rows| && rows[i] == RowOf(f);
    assert rows'[i] == rows[i];
  }

  /** Every row added after main.sql is later than all rows before it. */
  ghost predicate OnlyLater<S>(t: Tables<S>, t': Tables<S>) {
    && RowsOf(t) <= RowsOf(t')
    && forall i :: |RowsOf(t)| <= i < |RowsOf(t')| ==> RowsOf(t')[i].timestamp > LastTimestamp(RowsOf(t))
  }

  lemma {:induction false} FilesOnlyLater<S>(exec: Sql<S>, t: Tables<S>, files: seq<MigrationFile>, broken: set<string>)
    ensures OnlyLater(t, AfterFiles(exec, t, files, LastTimestamp(RowsOf(t)), broken).tables)
    decreases |files|
  {
    hide ExecFile, LastTimestamp;
    if files != [] {
      FilesOnlyLater(exec, t, files[..|files| - 1], broken);
    }
  }

  /** main.sql cannot be applied where its timestamp is taken. */
  lemma RunOnlyLater<S>(exec: Sql<S>, t: Tables<S>, main: string, run: Run)
    requires t.rows.Some? && 0 in Timestamps(RowsOf(t))
    ensures OnlyLater(t, AfterRun(exec, t, main, run).tables) && AfterRun(exec, t, main, run).tables.rows.Some?
    ensures 0 in Timestamps(RowsOf(AfterRun(exec, t, main, run).tables))
  {
    hide AfterFiles, LastTimestamp, ExecFile, Run.Files;
    if run.Files().Some? {
      FilesOnlyLater(exec, t, run.Files().value, run.broken);
      FilesKeepTable(exec, t, run.Files().value, LastTimestamp(RowsOf(t)), run.broken);
      var after := AfterFiles(exec, t, run.Files().value, LastTimestamp(RowsOf(t)), run.broken).tables;
      LongerRows(RowsOf(t), RowsOf(after));
    }
  }

  lemma LongerRows(rows: seq<Row>, rows': seq<Row>)
    requires rows <= rows'
    ensures Timestamps(rows) <= Timestamps(rows')
    ensures rows != [] ==> LastTimestamp(rows) <= LastTimestamp(rows')
  {
    assert forall i :: 0 <= i < |rows| ==> rows[i] == rows'[i] && rows'[i] in rows';
    if rows != [] {
      var ts := LastTimestamp(rows);
      assert ts in Timestamps(rows);
      var r :| r in rows && r.timestamp == ts;
    }
  }

  lemma FilesKeepTable<S>(exec: Sql<S>, t: Tables<S>, files: seq<MigrationFile>, lastTs: int, broken: set<string>)
    requires t.rows.Some?
    ensures AfterFiles(exec, t, files, lastTs, broken).tables.rows.Some?
  {
  }

  /**
   A file skipped once is skipped for good: once main.sql has its row, a file not later
   than the last applied one that has no row never gets one, whatever the runs after it.
   */
  lemma {:induction false} SkippedForGood<S>(exec: Sql<S>, t: Tables<S>, main: string, runs: seq<Run>, row: Row)
    requires t.rows.Some? && 0 in Timestamps(RowsOf(t))
    requires row.timestamp <= LastTimestamp(RowsOf(t)) && row !in RowsOf(t)
    ensures var t' := AfterRuns(exec, t, main, runs);
            && row !in RowsOf(t') && t'.rows.Some? && 0 in Timestamps(RowsOf(t'))
            && row.timestamp <= LastTimestamp(RowsOf(t'))
    decreases |runs|
  {
    hide AfterRun, LastTimestamp, Timestamps;
    if runs != [] {
      var before := AfterRuns(exec, t, main, runs[..|runs| - 1]);
      SkippedForGood(exec, t, main, runs[..|runs| - 1], row);
      RunOnlyLater(exec, before, main, runs[|runs| - 1]);
      var after := AfterRun(exec, before, main, runs[|runs| - 1]).tables;
      NoRowTwice(before, after, row);
    }
  }

  lemma NoRowTwice<S>(t: Tables<S>, t': Tables<S>, row: Row)
    requires OnlyLater(t, t') && row !in RowsOf(t)
    requires row.timestamp <= LastTimestamp(RowsOf(t)) && 0 in Timestamps(RowsOf(t))
    ensures row !in RowsOf(t') && row.timestamp <= LastTimestamp(RowsOf(t'))
  {
    var rows, rows' := RowsOf(t), RowsOf(t');
    LongerRows(rows, rows');
    forall i | 0 <= i < |rows'| ensures rows'[i] != row {
      if i < |rows| {
        assert rows'[i] == rows[i] && rows[i] in rows;
      }
    }
  }
}
