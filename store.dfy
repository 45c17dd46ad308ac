/** The run store of python/pytest_affected/store.py: table `instances` with primary key
    (node_id, files), insert-if-absent in chunks, and the most-recent-run query. */
module Store {
  import opened Common

  /** The phase a pytest report describes (`report.when`). */
  datatype When = Setup | Call | Teardown

  /** What pytest concluded in one phase. */
  datatype Outcome = Passed | Failed | Skipped

  /** A pytest `TestReport`, reduced to what the cache looks at; the store keeps it as an opaque
      pickled blob and hands it back unchanged. */
  datatype Report = Report(when: When, duration: real, outcome: Outcome)

  /** A pytest node id such as `tests/test_a.py::test_x`. */
  type NodeId = string

  /** The `files` list of a run: each traced file with its hash, in recording order. */
  type FileHashes = seq<(Path, U64)>

  /** The `RunInstance` dataclass with the three fields it declares. */
  datatype RunInstance = RunInstance(nodeid: NodeId, files: FileHashes, reports: seq<Report>)

  /** A row of table `instances`. `run_at` defaults to SQLite's `current_timestamp`; the model
      takes the timestamp as a number supplied by the caller. */
  datatype Row = Row(nodeId: NodeId, runAt: int, files: FileHashes, reports: seq<Report>)

  /** The row that inserting `run` at time `now` creates. */
  function ToRow(run: RunInstance, now: int): Row
  {
    Row(run.nodeid, now, run.files, run.reports)
  }

  /** The table holds a row under primary key (nodeId, files). The key column `files` holds
      `json.dumps(run.files)`, which is injective on lists of (str, int) pairs, so two keys are
      equal exactly when the two sequences are: the same pairs in another order are another key. */
  predicate HasKey(table: seq<Row>, nodeId: NodeId, files: FileHashes)
  {
    exists i :: 0 <= i < |table| && table[i].nodeId == nodeId && table[i].files == files
  }

  /** The primary-key constraint: no two rows share (node_id, files). */
  predicate KeysUnique(table: seq<Row>)
  {
    forall i, j :: 0 <= i < j < |table| ==> table[i].nodeId != table[j].nodeId || table[i].files != table[j].files
  }

  /** One `insert ... on conflict do nothing`. */
  function InsertRow(table: seq<Row>, run: RunInstance, now: int): (t: seq<Row>)
    // rows already there are kept as they are, never overwritten
    ensures table <= t
    // afterwards the key is present
    ensures HasKey(t, run.nodeid, run.files)
    // a new row appears exactly when the key was absent, and it is this run's row
    ensures |t| == if HasKey(table, run.nodeid, run.files) then |table| else |table| + 1
    ensures |t| > |table| ==> t[|table|] == ToRow(run, now)
    // the primary-key constraint is kept
    ensures KeysUnique(table) ==> KeysUnique(t)
  {
    if HasKey(table, run.nodeid, run.files) then table
    else
      var t := table + [ToRow(run, now)];
      assert t[|table|].nodeId == run.nodeid && t[|table|].files == run.files;
      t
  }

  /** The runs inserted one at a time, in order. */
  function InsertAll(table: seq<Row>, runs: seq<RunInstance>, now: int): (t: seq<Row>)
    ensures table <= t
    ensures forall k :: 0 <= k < |runs| ==> HasKey(t, runs[k].nodeid, runs[k].files)
  {
    if runs == [] then table
    else
      var init := InsertAll(table, runs[..|runs| - 1], now);
      var t := InsertRow(init, runs[|runs| - 1], now);
      assert forall k :: 0 <= k < |runs| - 1 ==> runs[..|runs| - 1][k] == runs[k];
      HasKeyGrows(init, t);
      t
  }

  /** `save_runs` never breaks the primary key `(nodeid, files)`. */
  lemma {:induction false} InsertAllKeepsKeysUnique(table: seq<Row>, runs: seq<RunInstance>, now: int)
    requires KeysUnique(table)
    ensures KeysUnique(InsertAll(table, runs, now))
  {
    if runs != [] {
      InsertAllKeepsKeysUnique(table, runs[..|runs| - 1], now);
    }
  }

  lemma HasKeyGrows(table: seq<Row>, t: seq<Row>)
    requires table <= t
    ensures forall n, f :: HasKey(table, n, f) ==> HasKey(t, n, f)
  {
    forall n, f | HasKey(table, n, f) ensures HasKey(t, n, f) {
      var i :| 0 <= i < |table| && table[i].nodeId == n && table[i].files == f;
      assert t[i] == table[i];
    }
  }

  /** Every row `save_runs` adds is the row of one of the runs it was given. */
  lemma {:induction false} NewRowsComeFromRuns(table: seq<Row>, runs: seq<RunInstance>, now: int, i: nat)
    requires |table| <= i < |InsertAll(table, runs, now)|
    ensures exists k :: 0 <= k < |runs| && InsertAll(table, runs, now)[i] == ToRow(runs[k], now)
  {
    var n := |runs| - 1;
    var before := InsertAll(table, runs[..n], now);
    if i < |before| {
      NewRowsComeFromRuns(table, runs[..n], now, i);
      var k :| 0 <= k < n && before[i] == ToRow(runs[..n][k], now);
      assert InsertAll(table, runs, now)[i] == ToRow(runs[k], now);
    } else {
      assert InsertAll(table, runs, now)[i] == ToRow(runs[n], now);
    }
  }

  /** Runs whose keys are all present already insert nothing. */
  lemma {:induction false} InsertAllPresent(table: seq<Row>, runs: seq<RunInstance>, now: int)
    requires forall k :: 0 <= k < |runs| ==> HasKey(table, runs[k].nodeid, runs[k].files)
    ensures InsertAll(table, runs, now) == table
  {
    if runs != [] {
      var init := runs[..|runs| - 1];
      assert forall k :: 0 <= k < |init| ==> init[k] == runs[k];
      InsertAllPresent(table, init, now);
    }
  }

  /** Saving the same runs twice leaves the table as saving them once, whatever the second
      timestamp. */
  lemma SaveTwice(table: seq<Row>, runs: seq<RunInstance>, first: int, second: int)
    ensures InsertAll(InsertAll(table, runs, first), runs, second) == InsertAll(table, runs, first)
  {
    InsertAllPresent(InsertAll(table, runs, first), runs, second);
  }

  lemma InsertAllLast(table: seq<Row>, runs: seq<RunInstance>, now: int)
    requires runs != []
    ensures InsertAll(table, runs, now) == InsertRow(InsertAll(table, runs[..|runs| - 1], now), runs[|runs| - 1], now)
  {
  }

  /** A key that is absent, and that no run carries, stays absent. */
  lemma {:induction false} AbsentKeyStaysAbsent(table: seq<Row>, runs: seq<RunInstance>, now: int, nodeId: NodeId, files: FileHashes)
    requires !HasKey(table, nodeId, files)
    requires forall k :: 0 <= k < |runs| ==> runs[k].nodeid != nodeId || runs[k].files != files
    ensures !HasKey(InsertAll(table, runs, now), nodeId, files)
  {
    if runs != [] {
      var init := runs[..|runs| - 1];
      assert forall k :: 0 <= k < |init| ==> init[k] == runs[k];
      AbsentKeyStaysAbsent(table, init, now, nodeId, files);
    }
  }

  /** Among runs sharing a key that the table lacks, the first one is the one stored. */
  lemma {:induction false} FirstOccurrenceWins(table: seq<Row>, runs: seq<RunInstance>, now: int, j: nat)
    requires j < |runs|
    requires !HasKey(table, runs[j].nodeid, runs[j].files)
    requires forall k :: 0 <= k < j ==> runs[k].nodeid != runs[j].nodeid || runs[k].files != runs[j].files
    ensures ToRow(runs[j], now) in InsertAll(table, runs, now)
  {
    var init := runs[..|runs| - 1];
    var before := InsertAll(table, init, now);
    var after := InsertRow(before, runs[|runs| - 1], now);
    InsertAllLast(table, runs, now);
    if j < |runs| - 1 {
      assert forall k :: 0 <= k <= j ==> init[k] == runs[k];
      FirstOccurrenceWins(table, init, now, j);
      var i :| 0 <= i < |before| && before[i] == ToRow(runs[j], now);
      assert after[i] == before[i];
    } else {
      assert forall k :: 0 <= k < |init| ==> init[k] == runs[k];
      AbsentKeyStaysAbsent(table, init, now, runs[j].nodeid, runs[j].files);
      assert after[|before|] == ToRow(runs[j], now);
    }
  }

  /** Inserting `a` and then `b` is inserting `a + b`: how the runs are cut into chunks does
      not matter. */
  lemma {:induction false} InsertAllAppend(table: seq<Row>, a: seq<RunInstance>, b: seq<RunInstance>, now: int)
    ensures InsertAll(table, a + b, now) == InsertAll(InsertAll(table, a, now), b, now)
  {
    if b == [] {
      assert a + b == a;
    } else {
      var init, last := b[..|b| - 1], b[|b| - 1];
      SplitLast(a, b);
      calc {
        InsertAll(table, a + b, now);
        { InsertAllLast(table, a + b, now); }
        InsertRow(InsertAll(table, a + init, now), last, now);
        { InsertAllAppend(table, a, init, now); }
        InsertRow(InsertAll(InsertAll(table, a, now), init, now), last, now);
        { InsertAllLast(InsertAll(table, a, now), b, now); }
        InsertAll(InsertAll(table, a, now), b, now);
      }
    }
  }

  lemma SplitLast<T>(a: seq<T>, b: seq<T>)
    requires b != []
    ensures (a + b)[..|a + b| - 1] == a + b[..|b| - 1] && (a + b)[|a + b| - 1] == b[|b| - 1]
  {
    assert (a + b)[..|a + b| - 1] == a + b[..|b| - 1];
  }

  /** Two runs of one test whose files hold the same pairs in different orders are two keys,
      so both are stored when the table has neither. */
  lemma ReorderedFilesAreTwoRows(table: seq<Row>, nodeId: NodeId, f1: FileHashes, f2: FileHashes,
                                 r1: seq<Report>, r2: seq<Report>, now: int)
    requires f1 != f2 && multiset(f1) == multiset(f2)
    requires !HasKey(table, nodeId, f1) && !HasKey(table, nodeId, f2)
    ensures |InsertAll(table, [RunInstance(nodeId, f1, r1), RunInstance(nodeId, f2, r2)], now)| == |table| + 2
  {
    var runs := [RunInstance(nodeId, f1, r1), RunInstance(nodeId, f2, r2)];
    assert runs[..1] == [runs[0]] && runs[..1][..0] == [];
    var one := InsertAll(table, runs[..1], now);
    InsertAllLast(table, runs[..1], now);
    assert one == table + [ToRow(runs[0], now)];
    assert !HasKey(one, nodeId, f2) by {
      forall i | 0 <= i < |one| ensures one[i].nodeId != nodeId || one[i].files != f2 {
        if i < |table| {
          assert one[i] == table[i];
        }
      }
    }
  }

  /** The most recent row for `nodeId`: the index of a row with the greatest `run_at`
      (the earliest such row in table order when several tie). */
  function Latest(table: seq<Row>, nodeId: NodeId): (r: Option<nat>)
    ensures r.None? <==> forall i :: 0 <= i < |table| ==> table[i].nodeId != nodeId
    ensures r.Some? ==>
      r.value < |table| && table[r.value].nodeId == nodeId &&
      forall i :: 0 <= i < |table| && table[i].nodeId == nodeId ==> table[i].runAt <= table[r.value].runAt
  {
    if table == [] then None
    else
      var n := |table| - 1;
      var init := Latest(table[..n], nodeId);
      assert forall i :: 0 <= i < n ==> table[..n][i] == table[i];
      if table[n].nodeId != nodeId then init
      else match init
        case None => Some(n)
        case Some(i) => if table[n].runAt > table[i].runAt then Some(n) else init
  }

  /** The SQLite store: the rows of table `instances`, in insertion order. Opening the
      database file is not modelled; the constructor receives the rows it already holds. */
  class SQLiteStore {
    var table: seq<Row>

    ghost predicate Valid()
      reads this
    {
      KeysUnique(table)
    }

    constructor (existing: seq<Row>)
      requires KeysUnique(existing)
      ensures Valid() && table == existing
    {
      table := existing;
    }

    /** `list_recent_runs`: the query ends in `limit 1`, so at most one run comes back, the one
        with the latest `run_at` for this node id, whatever `limit` the caller passes. */
    function ListRecentRuns(nodeId: NodeId, limit: int): (runs: seq<RunInstance>)
      reads this
      ensures |runs| <= 1
      ensures forall r :: r in runs ==> r.nodeid == nodeId
      ensures |runs| == 0 <==> forall i :: 0 <= i < |table| ==> table[i].nodeId != nodeId
      ensures |runs| == 1 ==>
        exists i :: 0 <= i < |table| && table[i].nodeId == nodeId &&
          runs[0] == RunInstance(nodeId, table[i].files, table[i].reports) &&
          forall j :: 0 <= j < |table| && table[j].nodeId == nodeId ==> table[j].runAt <= table[i].runAt
    {
      match Latest(table, nodeId)
      case None => []
      case Some(i) => [RunInstance(nodeId, table[i].files, table[i].reports)]
    }

    /** `save_runs`: one transaction per slice `runs[i : i + chunkSize]`, each an `executemany`
        of insert-if-absent. Every index is visited once, in order, so the table ends as if the
        runs were inserted one by one. `range` refuses a zero step, hence `chunkSize > 0`. */
    method SaveRuns(runs: seq<RunInstance>, chunkSize: nat, now: int)
      requires chunkSize > 0
      requires Valid()
      modifies this
      ensures Valid()
      ensures table == InsertAll(old(table), runs, now)
    {
      ghost var initial := table;
      var i := 0;
      ghost var done := 0;
      while i < |runs|
        invariant done == Min(i, |runs|)
        invariant table == InsertAll(initial, runs[..done], now)
      {
        var end := Min(i + chunkSize, |runs|);
        ChunkStep(initial, runs, i, end, now);
        ExecuteMany(runs[i..end], now);
        i := i + chunkSize;
        done := end;
      }
      assert runs[..done] == runs;
      InsertAllKeepsKeysUnique(initial, runs, now);
    }

    /** One `executemany` of `insert ... on conflict do nothing`, row after row. */
    method ExecuteMany(chunk: seq<RunInstance>, now: int)
      modifies this
      ensures table == InsertAll(old(table), chunk, now)
    {
      for j := 0 to |chunk|
        invariant table == InsertAll(old(table), chunk[..j], now)
      {
        var run := chunk[j];
        assert chunk[..j + 1][..j] == chunk[..j];
        if !HasKey(table, run.nodeid, run.files) {
          table := table + [ToRow(run, now)];
        }
      }
      assert chunk[..|chunk|] == chunk;
    }
  }

  /** Inserting the chunk `runs[i..end]` after `runs[..i]` is inserting `runs[..end]`. */
  lemma ChunkStep(table: seq<Row>, runs: seq<RunInstance>, i: nat, end: nat, now: int)
    requires i <= end <= |runs|
    ensures InsertAll(InsertAll(table, runs[..i], now), runs[i..end], now) == InsertAll(table, runs[..end], now)
  {
    SliceJoin(runs, i, end);
    InsertAllAppend(table, runs[..i], runs[i..end], now);
  }

  lemma SliceJoin<T>(s: seq<T>, i: nat, end: nat)
    requires i <= end <= |s|
    ensures s[..i] + s[i..end] == s[..end]
  {
  }

  function Min(a: int, b: int): int
  {
    if a < b then a else b
  }

  /** `save_runs([])` changes nothing. */
  lemma SaveNothing(table: seq<Row>, now: int)
    ensures InsertAll(table, [], now) == table
  {
  }
}
