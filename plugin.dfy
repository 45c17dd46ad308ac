/** The cache logic of python/pytest_affected/plugin.py: matching stored runs against the
    files as they are now, the hit/miss flow around one test, and what is kept at the end. */
module Plugin {
  import opened Common
  import opened Murmur3
  import opened Store
  import opened Tracing

  // ---------------------------------------------------------------------------------------
  // Matching a stored run (search_cached_result_in_recent_runs)
  // ---------------------------------------------------------------------------------------

  /** The recorded paths of a run, in order: the `filepath` of each `(filepath, _)` pair. */
  function Paths(files: FileHashes): (ps: seq<Path>)
    ensures |ps| == |files| && forall k :: 0 <= k < |files| ==> ps[k] == files[k].0
  {
    seq(|files|, k requires 0 <= k < |files| => files[k].0)
  }

  /** `expected_files == found_files`: the recorded pairs against the pairs of each recorded
      path with its hash now, both taken as sets. */
  predicate SameFiles(files: FileHashes, hashes: seq<U64>)
    requires |hashes| == |files|
  {
    (set k | 0 <= k < |files| :: files[k]) == (set k | 0 <= k < |files| :: (files[k].0, hashes[k]))
  }

  /** When the fresh hashes depend on the path alone (the hasher memoises), comparing the two
      sets is the same as comparing each recorded hash with the fresh hash of its path. */
  lemma SameFilesIff(files: FileHashes, hashes: seq<U64>)
    requires |hashes| == |files|
    requires forall i, j :: 0 <= i < |files| && 0 <= j < |files| && files[i].0 == files[j].0 ==> hashes[i] == hashes[j]
    ensures SameFiles(files, hashes) <==> forall k :: 0 <= k < |files| ==> hashes[k] == files[k].1
  {
    var expected := set k | 0 <= k < |files| :: files[k];
    var found := set k | 0 <= k < |files| :: (files[k].0, hashes[k]);
    if expected == found {
      forall k | 0 <= k < |files| ensures hashes[k] == files[k].1 {
        assert files[k] in expected;
        var j :| 0 <= j < |files| && (files[j].0, hashes[j]) == files[k];
      }
    }
    if forall k :: 0 <= k < |files| ==> hashes[k] == files[k].1 {
      assert forall k :: 0 <= k < |files| ==> (files[k].0, hashes[k]) == files[k];
      assert expected == found;
    }
  }

  /** A stored run still holds: every recorded file hashes, as `hash_file` would answer now,
      to its recorded hash. A run that recorded no file always holds. */
  predicate Matches(run: RunInstance, cache: Cache, digest: Digest, fs: FileSystem)
  {
    forall k :: 0 <= k < |run.files| ==> Current(cache, digest, fs, run.files[k].0) == Some(run.files[k].1)
  }

  /** Every recorded file of the run can be hashed now. */
  predicate Readable(run: RunInstance, cache: Cache, digest: Digest, fs: FileSystem)
  {
    forall k :: 0 <= k < |run.files| ==> Current(cache, digest, fs, run.files[k].0).Some?
  }

  /** The runs before position `i` were all hashed without error and none of them holds. */
  predicate NoneBefore(runs: seq<RunInstance>, i: nat, cache: Cache, digest: Digest, fs: FileSystem)
    requires i <= |runs|
  {
    forall j :: 0 <= j < i ==> Readable(runs[j], cache, digest, fs) && !Matches(runs[j], cache, digest, fs)
  }

  /** The matcher on the runs in order: the first run whose expected and found sets agree is
      the hit; a failing `hash_file` is not caught and ends the search with its error. */
  function Search(cache: Cache, digest: Digest, fs: FileSystem, runs: seq<RunInstance>): (out: (Result<Option<RunInstance>>, Cache))
    ensures forall q :: Current(out.1, digest, fs, q) == Current(cache, digest, fs, q)
    ensures forall q :: q in cache ==> q in out.1 && out.1[q] == cache[q]
  {
    if runs == [] then (Ok(None), cache)
    else
      var init := Search(cache, digest, fs, runs[..|runs| - 1]);
      if init.0 != Ok(None) then init
      else
        var run := runs[|runs| - 1];
        var hashed := HashPaths(init.1, digest, fs, Paths(run.files));
        match hashed.0
        case Err(e) => (Err(e), hashed.1)
        case Ok(hs) => if SameFiles(run.files, hs) then (Ok(Some(run)), hashed.1) else (Ok(None), hashed.1)
  }

  /** What hashing the recorded paths of one run means, in terms of the current answers. */
  lemma OneRun(cache: Cache, digest: Digest, fs: FileSystem, run: RunInstance)
    ensures var hashed := HashPaths(cache, digest, fs, Paths(run.files));
      && (hashed.0.Err? <==> !Readable(run, cache, digest, fs))
      && (hashed.0.Ok? ==> (SameFiles(run.files, hashed.0.value) <==> Matches(run, cache, digest, fs)))
  {
    var hashed := HashPaths(cache, digest, fs, Paths(run.files));
    if hashed.0.Ok? {
      SameFilesIff(run.files, hashed.0.value);
    }
  }

  /** Two caches that give every path the same current answer agree on every run. */
  lemma SameCurrentSameVerdict(c1: Cache, c2: Cache, digest: Digest, fs: FileSystem, run: RunInstance)
    requires forall q :: Current(c1, digest, fs, q) == Current(c2, digest, fs, q)
    ensures Matches(run, c1, digest, fs) == Matches(run, c2, digest, fs)
    ensures Readable(run, c1, digest, fs) == Readable(run, c2, digest, fs)
  {
  }

  lemma NoneBeforeStep(runs: seq<RunInstance>, i: nat, cache: Cache, digest: Digest, fs: FileSystem)
    requires i < |runs|
    ensures NoneBefore(runs, i + 1, cache, digest, fs) <==>
      NoneBefore(runs, i, cache, digest, fs) && Readable(runs[i], cache, digest, fs) && !Matches(runs[i], cache, digest, fs)
  {
  }

  lemma NoneBeforeOfPrefix(runs: seq<RunInstance>, n: nat, cache: Cache, digest: Digest, fs: FileSystem)
    requires n <= |runs|
    ensures forall i :: 0 <= i <= n ==> NoneBefore(runs[..n], i, cache, digest, fs) == NoneBefore(runs, i, cache, digest, fs)
  {
    assert forall j :: 0 <= j < n ==> runs[..n][j] == runs[j];
  }

  /** The matcher's answer: no hit exactly when every run was hashed and none holds; a hit is
      the first run that holds; an error comes from the first run with an unreadable file. */
  lemma {:induction false} SearchOutcome(cache: Cache, digest: Digest, fs: FileSystem, runs: seq<RunInstance>)
    ensures Search(cache, digest, fs, runs).0 == Ok(None) <==> NoneBefore(runs, |runs|, cache, digest, fs)
    ensures Search(cache, digest, fs, runs).0.Ok? && Search(cache, digest, fs, runs).0.value.Some? ==>
      exists i :: 0 <= i < |runs| && Search(cache, digest, fs, runs).0.value.value == runs[i] &&
        Matches(runs[i], cache, digest, fs) && NoneBefore(runs, i, cache, digest, fs)
    ensures Search(cache, digest, fs, runs).0.Err? ==>
      exists i :: 0 <= i < |runs| && !Readable(runs[i], cache, digest, fs) && NoneBefore(runs, i, cache, digest, fs) &&
        (exists k :: 0 <= k < |runs[i].files| && Current(cache, digest, fs, runs[i].files[k].0) == None &&
          Search(cache, digest, fs, runs).0.error == NotFound(runs[i].files[k].0))
  {
    if runs != [] {
      var n := |runs| - 1;
      var init := runs[..n];
      SearchOutcome(cache, digest, fs, init);
      var before := Search(cache, digest, fs, init);
      var after := Search(cache, digest, fs, runs);
      NoneBeforeOfPrefix(runs, n, cache, digest, fs);
      NoneBeforeStep(runs, n, cache, digest, fs);
      if before.0 == Ok(None) {
        var run := runs[n];
        OneRun(before.1, digest, fs, run);
        SameCurrentSameVerdict(before.1, cache, digest, fs, run);
        var hashed := HashPaths(before.1, digest, fs, Paths(run.files));
        if hashed.0.Err? {
          assert after.0 == Err(hashed.0.error);
          assert !Readable(run, cache, digest, fs);
        } else if SameFiles(run.files, hashed.0.value) {
          assert after.0 == Ok(Some(run));
          assert Matches(run, cache, digest, fs);
        } else {
          assert after.0 == Ok(None);
          assert Readable(run, cache, digest, fs) && !Matches(run, cache, digest, fs);
        }
      } else {
        assert after == before;
        assert !NoneBefore(runs, |runs|, cache, digest, fs) by {
          assert !NoneBefore(runs, n, cache, digest, fs);
        }
      }
    }
  }

  /** Once the runs up to `i` have decided the search, the later runs are not looked at. */
  lemma {:induction false} SearchSettles(cache: Cache, digest: Digest, fs: FileSystem, runs: seq<RunInstance>, i: nat)
    requires i <= |runs|
    requires Search(cache, digest, fs, runs[..i]).0 != Ok(None)
    ensures Search(cache, digest, fs, runs) == Search(cache, digest, fs, runs[..i])
  {
    if i < |runs| {
      var init := runs[..|runs| - 1];
      assert init[..i] == runs[..i];
      SearchSettles(cache, digest, fs, init, i);
    } else {
      assert runs[..i] == runs;
    }
  }

  /** Once a path has failed, the paths after it are not hashed. */
  lemma {:induction false} HashPathsSettles(cache: Cache, digest: Digest, fs: FileSystem, paths: seq<Path>, i: nat)
    requires i <= |paths|
    requires HashPaths(cache, digest, fs, paths[..i]).0.Err?
    ensures HashPaths(cache, digest, fs, paths) == HashPaths(cache, digest, fs, paths[..i])
  {
    if i < |paths| {
      var init := paths[..|paths| - 1];
      assert init[..i] == paths[..i];
      HashPathsSettles(cache, digest, fs, init, i);
    } else {
      assert paths[..i] == paths;
    }
  }

  /** One more path hashed after a prefix that hashed without error. */
  lemma HashPathsStep(cache: Cache, digest: Digest, fs: FileSystem, paths: seq<Path>, k: nat, hashes: seq<U64>, mid: Cache)
    requires k < |paths|
    requires HashPaths(cache, digest, fs, paths[..k]) == (Ok(hashes), mid)
    ensures var last := Lookup(mid, digest, fs, paths[k]);
      HashPaths(cache, digest, fs, paths[..k + 1]) ==
        (if last.0.Ok? then Ok(hashes + [last.0.value]) else Err(last.0.error), last.1)
  {
    assert paths[..k + 1][..k] == paths[..k];
  }

  /** Each path beside its hash. */
  function Zip(paths: seq<Path>, hashes: seq<U64>): (z: FileHashes)
    requires |paths| == |hashes|
    ensures |z| == |paths| && forall k :: 0 <= k < |z| ==> z[k] == (paths[k], hashes[k])
  {
    seq(|paths|, k requires 0 <= k < |paths| => (paths[k], hashes[k]))
  }

  /** The pairs `hash_files` returns for the outcome of hashing `paths`. */
  function Paired(paths: seq<Path>, hashed: Result<seq<U64>>): Result<FileHashes>
    requires hashed.Ok? ==> |hashed.value| == |paths|
  {
    match hashed
    case Ok(hashes) => Ok(Zip(paths, hashes))
    case Err(e) => Err(e)
  }

  lemma ZipStep(paths: seq<Path>, k: nat, hashes: seq<U64>, h: U64)
    requires k < |paths| && |hashes| == k
    ensures Zip(paths[..k + 1], hashes + [h]) == Zip(paths[..k], hashes) + [(paths[k], h)]
  {
  }

  /** One iteration of `hash_files`: the next path's answer either ends the whole call with
      its error or extends the pairs by one. */
  lemma HashFilesStep(start: Cache, digest: Digest, fs: FileSystem, paths: seq<Path>, k: nat, hashes: seq<U64>,
                      files: FileHashes, mid: Cache, h: Result<U64>, after: Cache)
    requires k < |paths| && |hashes| == k && files == Zip(paths[..k], hashes)
    requires HashPaths(start, digest, fs, paths[..k]) == (Ok(hashes), mid)
    requires (h, after) == Lookup(mid, digest, fs, paths[k])
    ensures h.Err? ==> var out := HashPaths(start, digest, fs, paths);
      out.1 == after && Paired(paths, out.0) == Err(h.error)
    ensures h.Ok? ==> files + [(paths[k], h.value)] == Zip(paths[..k + 1], hashes + [h.value])
    ensures h.Ok? ==> HashPaths(start, digest, fs, paths[..k + 1]) == (Ok(hashes + [h.value]), after)
  {
    HashPathsStep(start, digest, fs, paths, k, hashes, mid);
    if h.Err? {
      HashPathsSettles(start, digest, fs, paths, k + 1);
    } else {
      ZipStep(paths, k, hashes, h.value);
    }
  }

  /** `hash_file` over `paths` in order, collecting `(path, hash)` pairs; the first failing
      read propagates. */
  method HashFiles(hasher: Murmur3Hasher, fs: FileSystem, paths: seq<Path>) returns (r: Result<FileHashes>)
    modifies hasher
    ensures var out := HashPaths(old(hasher.cache), hasher.digest, fs, paths);
      hasher.cache == out.1 && r == Paired(paths, out.0)
  {
    var files: FileHashes := [];
    ghost var hashes: seq<U64> := [];
    for k := 0 to |paths|
      invariant |hashes| == k
      invariant files == Zip(paths[..k], hashes)
      invariant HashPaths(old(hasher.cache), hasher.digest, fs, paths[..k]) == (Ok(hashes), hasher.cache)
    {
      ghost var mid := hasher.cache;
      var h := hasher.HashFile(fs, paths[k]);
      HashFilesStep(old(hasher.cache), hasher.digest, fs, paths, k, hashes, files, mid, h, hasher.cache);
      if h.Err? {
        return Err(h.error);
      }
      files := files + [(paths[k], h.value)];
      hashes := hashes + [h.value];
    }
    assert paths[..|paths|] == paths;
    r := Ok(files);
  }

  /** `search_cached_result_in_recent_runs`: for each run in order, hash every recorded path
      and return the run if the expected and found sets agree; `None` if none does. */
  method SearchCachedResultInRecentRuns(hasher: Murmur3Hasher, fs: FileSystem, runs: seq<RunInstance>)
    returns (found: Result<Option<RunInstance>>)
    modifies hasher
    ensures (found, hasher.cache) == Search(old(hasher.cache), hasher.digest, fs, runs)
  {
    for i := 0 to |runs|
      invariant Search(old(hasher.cache), hasher.digest, fs, runs[..i]) == (Ok(None), hasher.cache)
    {
      var run := runs[i];
      SearchStep(old(hasher.cache), hasher.digest, fs, runs, i, hasher.cache);
      ghost var hashed := HashPaths(hasher.cache, hasher.digest, fs, Paths(run.files));
      var pairs := HashFiles(hasher, fs, Paths(run.files));
      if pairs.Err? {
        SearchSettles(old(hasher.cache), hasher.digest, fs, runs, i + 1);
        return Err(pairs.error);
      }
      var hashes := seq(|pairs.value|, k requires 0 <= k < |pairs.value| => pairs.value[k].1);
      assert hashes == hashed.0.value;
      if SameFiles(run.files, hashes) {
        SearchSettles(old(hasher.cache), hasher.digest, fs, runs, i + 1);
        return Ok(Some(run));
      }
    }
    assert runs[..|runs|] == runs;
    found := Ok(None);
  }

  /** One more run looked at by the matcher, when the earlier ones gave no hit and no error. */
  lemma SearchStep(cache: Cache, digest: Digest, fs: FileSystem, runs: seq<RunInstance>, i: nat, c: Cache)
    requires i < |runs|
    requires Search(cache, digest, fs, runs[..i]) == (Ok(None), c)
    ensures var hashed := HashPaths(c, digest, fs, Paths(runs[i].files));
      Search(cache, digest, fs, runs[..i + 1]) ==
        match hashed.0
        case Err(e) => (Err(e), hashed.1)
        case Ok(hs) => if SameFiles(runs[i].files, hs) then (Ok(Some(runs[i])), hashed.1) else (Ok(None), hashed.1)
  {
    assert runs[..i + 1][..i] == runs[..i];
  }

  // ---------------------------------------------------------------------------------------
  // Which runs are kept at the end of the session (pytest_sessionfinish)
  // ---------------------------------------------------------------------------------------

  /** A run as the plugin builds it: the dataclass fields plus the attributes the plugin
      sets and reads on it (the phase durations, -1 when a phase reported nothing, and
      whether the test failed, supplied by the test harness). */
  datatype TimedRun = TimedRun(instance: RunInstance, setupDuration: real, callDuration: real,
                               teardownDuration: real, failed: bool)

  /** The test in `pytest_sessionfinish`: slower than `--affected-min-time` (strictly), and
      not failed unless `--affected-cache-failures` is given. */
  predicate Cacheable(run: TimedRun, minTime: int, cacheFailures: bool)
  {
    run.callDuration > minTime as real && (!run.failed || cacheFailures)
  }

  /** The runs that pass the test, in their original order. */
  function Select(runs: seq<TimedRun>, minTime: int, cacheFailures: bool): (kept: seq<TimedRun>)
    ensures |kept| <= |runs|
  {
    if runs == [] then []
    else
      var n := |runs| - 1;
      var init := Select(runs[..n], minTime, cacheFailures);
      if Cacheable(runs[n], minTime, cacheFailures) then init + [runs[n]] else init
  }

  /** The kept runs are a subsequence of the runs: they sit at increasing positions, and the
      positions are exactly those whose run passes the test. */
  lemma {:induction false} SelectIsSubsequence(runs: seq<TimedRun>, minTime: int, cacheFailures: bool)
    returns (positions: seq<nat>)
    ensures |positions| == |Select(runs, minTime, cacheFailures)|
    ensures forall k :: 0 <= k < |positions| ==>
      positions[k] < |runs| && Select(runs, minTime, cacheFailures)[k] == runs[positions[k]]
    ensures forall a, b :: 0 <= a < b < |positions| ==> positions[a] < positions[b]
    ensures forall i :: 0 <= i < |runs| ==> (i in positions <==> Cacheable(runs[i], minTime, cacheFailures))
  {
    if runs == [] {
      positions := [];
    } else {
      var n := |runs| - 1;
      var init := runs[..n];
      var prev := Select(init, minTime, cacheFailures);
      var before := SelectIsSubsequence(init, minTime, cacheFailures);
      assert forall i :: 0 <= i < n ==> init[i] == runs[i];
      if Cacheable(runs[n], minTime, cacheFailures) {
        assert Select(runs, minTime, cacheFailures) == prev + [runs[n]];
        positions := before + [n];
      } else {
        assert Select(runs, minTime, cacheFailures) == prev;
        positions := before;
      }
    }
  }

  /** A run is kept exactly when it is one of the runs and passes the test. */
  lemma SelectMembers(runs: seq<TimedRun>, minTime: int, cacheFailures: bool, r: TimedRun)
    ensures r in Select(runs, minTime, cacheFailures) <==> r in runs && Cacheable(r, minTime, cacheFailures)
  {
    var kept := Select(runs, minTime, cacheFailures);
    var positions := SelectIsSubsequence(runs, minTime, cacheFailures);
    if r in kept {
      var k :| 0 <= k < |kept| && kept[k] == r;
      assert runs[positions[k]] == r;
      assert positions[k] in positions;
    }
    if r in runs && Cacheable(r, minTime, cacheFailures) {
      var i :| 0 <= i < |runs| && runs[i] == r;
      assert i in positions;
      var k :| 0 <= k < |positions| && positions[k] == i;
      assert kept[k] == r;
    }
  }

  /** The loop of `pytest_sessionfinish` that builds `cacheable_runs`. */
  method CacheableRuns(runs: seq<TimedRun>, minTime: int, cacheFailures: bool) returns (cacheable: seq<TimedRun>)
    ensures cacheable == Select(runs, minTime, cacheFailures)
  {
    cacheable := [];
    for i := 0 to |runs|
      invariant cacheable == Select(runs[..i], minTime, cacheFailures)
    {
      assert runs[..i + 1][..i] == runs[..i];
      var run := runs[i];
      if run.callDuration > minTime as real {
        if run.failed && !cacheFailures {
          continue;
        }
        cacheable := cacheable + [run];
      }
    }
    assert runs[..|runs|] == runs;
  }

  /** What `save_runs` receives of each run: the dataclass fields only. */
  function Instances(runs: seq<TimedRun>): (instances: seq<RunInstance>)
    ensures |instances| == |runs| && forall k :: 0 <= k < |runs| ==> instances[k] == runs[k].instance
  {
    seq(|runs|, k requires 0 <= k < |runs| => runs[k].instance)
  }

  /** Every row the end of the session adds is made of one cacheable run's `nodeid`, `files` and
      `reports` and the save time: the durations and the failed flag are not stored. */
  lemma SavedRowsComeFromCacheableRuns(table: seq<Row>, runs: seq<TimedRun>, minTime: int, cacheFailures: bool,
                                       now: int, i: nat)
    requires |table| <= i < |InsertAll(table, Instances(Select(runs, minTime, cacheFailures)), now)|
    ensures var saved := InsertAll(table, Instances(Select(runs, minTime, cacheFailures)), now);
      exists r :: r in runs && Cacheable(r, minTime, cacheFailures) &&
        saved[i] == Row(r.instance.nodeid, now, r.instance.files, r.instance.reports)
  {
    var kept := Select(runs, minTime, cacheFailures);
    NewRowsComeFromRuns(table, Instances(kept), now, i);
    var k :| 0 <= k < |kept| && InsertAll(table, Instances(kept), now)[i] == ToRow(Instances(kept)[k], now);
    SelectMembers(runs, minTime, cacheFailures, kept[k]);
  }

  /** After the end of the session, the table holds a row for every cacheable run's key. */
  lemma CacheableRunsAreSaved(table: seq<Row>, runs: seq<TimedRun>, minTime: int, cacheFailures: bool, now: int,
                              r: TimedRun)
    requires r in runs && Cacheable(r, minTime, cacheFailures)
    ensures HasKey(InsertAll(table, Instances(Select(runs, minTime, cacheFailures)), now), r.instance.nodeid, r.instance.files)
  {
    var kept := Select(runs, minTime, cacheFailures);
    SelectMembers(runs, minTime, cacheFailures, r);
    var k :| 0 <= k < |kept| && kept[k] == r;
    assert Instances(kept)[k] == r.instance;
  }

  // ---------------------------------------------------------------------------------------
  // One test (pytest_runtest_protocol)
  // ---------------------------------------------------------------------------------------

  /** Report `i` is of `phase` and no later report is. */
  predicate IsLastOf(reports: seq<Report>, i: nat, phase: When)
    requires i < |reports|
  {
    reports[i].when == phase && forall j :: i < j < |reports| ==> reports[j].when != phase
  }

  /** The duration of the last report of `phase`, or -1 when no report is of that phase. */
  function LastDuration(reports: seq<Report>, phase: When): (d: real)
    ensures (forall i :: 0 <= i < |reports| ==> reports[i].when != phase) ==> d == -1.0
    ensures forall i :: 0 <= i < |reports| && IsLastOf(reports, i, phase) ==> d == reports[i].duration
  {
    if reports == [] then -1.0
    else
      var n := |reports| - 1;
      if reports[n].when == phase then reports[n].duration
      else
        var d := LastDuration(reports[..n], phase);
        assert forall i :: 0 <= i < n ==> reports[..n][i] == reports[i];
        d
  }

  /** One more report: it sets the phase's duration if it is of that phase. */
  lemma LastDurationStep(reports: seq<Report>, i: nat, phase: When)
    requires i < |reports|
    ensures LastDuration(reports[..i + 1], phase) ==
      if reports[i].when == phase then reports[i].duration else LastDuration(reports[..i], phase)
  {
    assert reports[..i + 1][..i] == reports[..i];
  }

  /** What the hooks of the test harness are told, in order. `TracerClear`, `TracerStart`,
      `Execute` and `TracerStop` stand for `Tracer.clear_files()`, `Tracer.start()`, the
      opaque `runtestprotocol` and `Tracer.stop()`. */
  datatype Event =
    | LogStart(nodeid: NodeId)
    | LogReport(report: Report)
    | LogFinish(nodeid: NodeId)
    | TracerClear
    | TracerStart
    | Execute(nodeid: NodeId)
    | TracerStop

  /** One `pytest_runtest_logreport` per report, in order. */
  function ReportEvents(reports: seq<Report>): (events: seq<Event>)
    ensures |events| == |reports| && forall k :: 0 <= k < |reports| ==> events[k] == LogReport(reports[k])
  {
    seq(|reports|, k requires 0 <= k < |reports| => LogReport(reports[k]))
  }

  lemma ReportEventsStep(reports: seq<Report>, i: nat)
    requires i < |reports|
    ensures ReportEvents(reports[..i + 1]) == ReportEvents(reports[..i]) + [LogReport(reports[i])]
  {
  }

  /** The report loop of the miss path: each report is logged, and the setup and call
      durations are taken from the last report of their phase. The loop tests `"setup"` twice
      and never `"teardown"`, so the teardown duration stays -1. */
  method LogReportsAndDurations(reports: seq<Report>)
    returns (events: seq<Event>, setupDuration: real, callDuration: real, teardownDuration: real)
    ensures events == ReportEvents(reports)
    ensures setupDuration == LastDuration(reports, Setup)
    ensures callDuration == LastDuration(reports, Call)
    ensures teardownDuration == -1.0
  {
    events := [];
    setupDuration, callDuration, teardownDuration := -1.0, -1.0, -1.0;
    for i := 0 to |reports|
      invariant events == ReportEvents(reports[..i])
      invariant setupDuration == LastDuration(reports[..i], Setup)
      invariant callDuration == LastDuration(reports[..i], Call)
      invariant teardownDuration == -1.0
    {
      LastDurationStep(reports, i, Setup);
      LastDurationStep(reports, i, Call);
      ReportEventsStep(reports, i);
      var report := reports[i];
      events := events + [LogReport(report)];
      if report.when == Setup {
        setupDuration := report.duration;
      }
      if report.when == Call {
        callDuration := report.duration;
      }
      if report.when == Setup {
        setupDuration := report.duration;
      }
    }
    assert reports[..|reports|] == reports;
  }

  /** The hit path: the stored reports are replayed between the start and finish hooks. */
  method ReplayStoredRun(nodeid: NodeId, run: RunInstance) returns (trace: seq<Event>)
    ensures trace == [LogStart(nodeid)] + ReportEvents(run.reports) + [LogFinish(nodeid)]
  {
    trace := [LogStart(nodeid)];
    for i := 0 to |run.reports|
      invariant trace == [LogStart(nodeid)] + ReportEvents(run.reports[..i])
    {
      assert run.reports[..i + 1] == run.reports[..i] + [run.reports[i]];
      trace := trace + [LogReport(run.reports[i])];
    }
    assert run.reports[..|run.reports|] == run.reports;
    trace := trace + [LogFinish(nodeid)];
  }

  /** What the opaque `runtestprotocol` did, as far as the plugin can see: the source files of
      the frames the interpreter evaluated (each handed to `add_filepath` while tracing is on),
      then either the reports it returned, whether the test failed, and the files as the test
      left them, or an exception. */
  datatype Execution =
    | Completed(frames: seq<Path>, reports: seq<Report>, failed: bool, fsAfter: FileSystem)
    | Raised(frames: seq<Path>)

  /** How `pytest_runtest_protocol` ends: it returns `True`, or an exception escapes it. */
  datatype Exit = Returned(value: bool) | HashError(error: IoError) | ExecutionError

  /** The trace of a miss up to the end of `runtestprotocol`. */
  function MissPrefix(nodeid: NodeId): seq<Event>
  {
    [LogStart(nodeid), TracerClear, TracerStart, Execute(nodeid)]
  }

  /** The session's `Affected` object: the store, the memoising hasher, and the runs recorded
      in this session; the tracer is the process-wide one. */
  class Affected {
    const store: SQLiteStore
    const hasher: Murmur3Hasher
    const tracer: Tracer
    var runs: seq<TimedRun>

    /** `Affected()`: a fresh hasher and no recorded run. */
    constructor (store: SQLiteStore, digest: Digest, tracer: Tracer)
      ensures this.store == store && this.tracer == tracer
      ensures fresh(hasher) && hasher.cache == map[] && hasher.digest == digest
      ensures runs == []
    {
      this.store := store;
      this.tracer := tracer;
      hasher := new Murmur3Hasher(digest);
      runs := [];
    }

    /** `pytest_runtest_protocol` for the test `nodeid`, with the files as they are when it
        starts (`fs`) and what running it would do (`execution`). */
    method RuntestProtocol(nodeid: NodeId, fs: FileSystem, execution: Execution) returns (exit: Exit, trace: seq<Event>)
      modifies this, hasher, tracer
      // the hook returns True whenever it returns
      ensures exit.Returned? ==> exit.value
      ensures var s := Search(old(hasher.cache), hasher.digest, fs, store.ListRecentRuns(nodeid, 50));
        && (s.0.Err? ==>
              && exit == HashError(s.0.error) && trace == [] && runs == old(runs)
              && hasher.cache == s.1 && tracer.files == old(tracer.files))
        && (s.0.Ok? && s.0.value.Some? ==>
              && exit == Returned(true)
              && trace == [LogStart(nodeid)] + ReportEvents(s.0.value.value.reports) + [LogFinish(nodeid)]
              && runs == old(runs) && tracer.files == old(tracer.files) && hasher.cache == s.1)
        && (s.0 == Ok(None) ==> MissOutcome(nodeid, execution, exit, trace, old(runs), runs, tracer.files,
                                            tracer.excludedPaths, s.1, hasher.cache, hasher.digest))
    {
      var recent := store.ListRecentRuns(nodeid, 50);
      var found := SearchCachedResultInRecentRuns(hasher, fs, recent);
      if found.Err? {
        return HashError(found.error), [];
      }
      if found.value.Some? {
        trace := ReplayStoredRun(nodeid, found.value.value);
        return Returned(true), trace;
      }
      exit, trace := RunAndRecord(nodeid, execution);
    }

    /** The miss path: trace the execution, log its reports, then hash the user files the
        tracer saw and append the new run. */
    method RunAndRecord(nodeid: NodeId, execution: Execution) returns (exit: Exit, trace: seq<Event>)
      modifies this, hasher, tracer
      ensures MissOutcome(nodeid, execution, exit, trace, old(runs), runs, tracer.files,
                          tracer.excludedPaths, old(hasher.cache), hasher.cache, hasher.digest)
    {
      trace := [LogStart(nodeid)];
      tracer.ClearFiles();
      trace := trace + [TracerClear];
      trace := trace + [TracerStart];
      tracer.RecordFrames(execution.frames);
      trace := trace + [Execute(nodeid)];
      assert trace == MissPrefix(nodeid);
      if execution.Raised? {
        // `Tracer.stop()` is not in a `finally`: the exception leaves tracing on
        return ExecutionError, trace;
      }
      trace := trace + [TracerStop];

      var events, setupDuration, callDuration, teardownDuration := LogReportsAndDurations(execution.reports);
      trace := trace + events + [LogFinish(nodeid)];
      assert trace == MissPrefix(nodeid) + [TracerStop] + ReportEvents(execution.reports) + [LogFinish(nodeid)];

      var userFiles := tracer.UserFiles();
      ghost var cache := hasher.cache;
      var files := HashFiles(hasher, execution.fsAfter, userFiles);
      UserFilePairs(userFiles, tracer.files, tracer.excludedPaths, cache, hasher.digest, execution.fsAfter, files);
      if files.Err? {
        return HashError(files.error), trace;
      }
      var run := TimedRun(RunInstance(nodeid, files.value, execution.reports),
                          setupDuration, callDuration, teardownDuration, execution.failed);
      runs := runs + [run];
      assert runs[..|old(runs)|] == old(runs) && runs[|old(runs)|] == run;
      return Returned(true), trace;
    }

    /** `pytest_sessionfinish`: the cacheable runs go to `save_runs` (with its default chunk
        size of 500), which keeps only their dataclass fields. */
    method SessionFinish(minTime: int, cacheFailures: bool, now: int)
      requires store.Valid()
      modifies store
      ensures store.Valid()
      ensures store.table == InsertAll(old(store.table), Instances(Select(runs, minTime, cacheFailures)), now)
    {
      var cacheable := CacheableRuns(runs, minTime, cacheFailures);
      store.SaveRuns(Instances(cacheable), 500, now);
    }
  }

  /** How a miss ends, for a hasher whose cache is `cache` when the miss starts and `cacheAfter`
      when it ends. The tracer holds the file of every frame the execution ran. If the
      execution raised, the trace stops right after it, with no `TracerStop`, and nothing is
      recorded or hashed. Otherwise every report is logged, and the hook raises the hasher's
      error exactly when a user file the tracer saw cannot be hashed; else it returns True
      having appended the run `RecordsMiss` describes. Hashing keeps every memoised entry and
      the current answer of every path, and memoises only user files the tracer saw (all of
      them when the hook returns). */
  ghost predicate MissOutcome(nodeid: NodeId, execution: Execution, exit: Exit, trace: seq<Event>,
                              before: seq<TimedRun>, after: seq<TimedRun>, traced: set<Path>,
                              excludedPaths: seq<Path>, cache: Cache, cacheAfter: Cache, digest: Digest)
  {
    && traced == (set p | p in execution.frames)
    && (exit.Returned? ==> exit.value)
    && (execution.Raised? ==>
          exit == ExecutionError && trace == MissPrefix(nodeid) && after == before && cacheAfter == cache)
    && (execution.Completed? ==>
          && trace == MissPrefix(nodeid) + [TracerStop] + ReportEvents(execution.reports) + [LogFinish(nodeid)]
          && (forall q :: Current(cacheAfter, digest, execution.fsAfter, q) == Current(cache, digest, execution.fsAfter, q))
          && (forall q :: q in cache ==> q in cacheAfter && cacheAfter[q] == cache[q])
          && cacheAfter.Keys <= cache.Keys + (set p | p in traced && IsUserFile(p, excludedPaths))
          && (exit.Returned? ==> cacheAfter.Keys == cache.Keys + (set p | p in traced && IsUserFile(p, excludedPaths)))
          && (exit.HashError? <==>
                exists p :: p in traced && IsUserFile(p, excludedPaths) && Current(cache, digest, execution.fsAfter, p) == None)
          && (exit.HashError? ==> after == before)
          && (exit.HashError? ==>
                exists p :: p in traced && IsUserFile(p, excludedPaths) && Current(cache, digest, execution.fsAfter, p) == None && exit.error == NotFound(p))
          && (!exit.HashError? ==> exit == Returned(true) && RecordsMiss(before, after, nodeid, execution, traced, excludedPaths, cache, digest)))
  }

  /** The run a miss appends: this test's node id and reports, the durations of the report
      loop, the harness's failed flag, and the user files the tracer saw paired with their
      hashes. */
  ghost predicate RecordsMiss(before: seq<TimedRun>, after: seq<TimedRun>, nodeid: NodeId, execution: Execution,
                              traced: set<Path>, excludedPaths: seq<Path>, cache: Cache, digest: Digest)
    requires execution.Completed?
  {
    && |after| == |before| + 1 && after[..|before|] == before
    && var run := after[|before|];
    && run.instance.nodeid == nodeid
    && run.instance.reports == execution.reports
    && run.setupDuration == LastDuration(execution.reports, Setup)
    && run.callDuration == LastDuration(execution.reports, Call)
    && run.teardownDuration == -1.0
    && run.failed == execution.failed
    && PairsUserFiles(run.instance.files, traced, excludedPaths, cache, digest, execution.fsAfter)
  }

  /** `files` pairs each user file among `traced` with its hash, once each, and nothing else. */
  ghost predicate PairsUserFiles(files: FileHashes, traced: set<Path>, excludedPaths: seq<Path>,
                                 cache: Cache, digest: Digest, fs: FileSystem)
  {
    && (forall k :: 0 <= k < |files| ==>
          files[k].0 in traced && IsUserFile(files[k].0, excludedPaths) &&
          Current(cache, digest, fs, files[k].0) == Some(files[k].1))
    && (forall p :: p in traced && IsUserFile(p, excludedPaths) ==> p in Paths(files))
    && (forall i, j :: 0 <= i < j < |files| ==> files[i].0 != files[j].0)
  }

  /** What hashing the output of `user_files` gives the miss path: an error exactly when some
      user file cannot be hashed, else one pair per user file. */
  lemma UserFilePairs(userFiles: seq<Path>, traced: set<Path>, excludedPaths: seq<Path>, cache: Cache,
                      digest: Digest, fs: FileSystem, r: Result<FileHashes>)
    requires forall k :: 0 <= k < |userFiles| ==> userFiles[k] in traced && IsUserFile(userFiles[k], excludedPaths)
    requires forall p :: p in traced && IsUserFile(p, excludedPaths) ==> p in userFiles
    requires forall i, j :: 0 <= i < j < |userFiles| ==> userFiles[i] != userFiles[j]
    requires r == Paired(userFiles, HashPaths(cache, digest, fs, userFiles).0)
    ensures r.Err? <==> exists p :: p in traced && IsUserFile(p, excludedPaths) && Current(cache, digest, fs, p) == None
    ensures r.Err? ==> exists p :: p in traced && IsUserFile(p, excludedPaths) && Current(cache, digest, fs, p) == None && r.error == NotFound(p)
    ensures r.Ok? ==> PairsUserFiles(r.value, traced, excludedPaths, cache, digest, fs)
    ensures HashPaths(cache, digest, fs, userFiles).1.Keys <= cache.Keys + (set p | p in traced && IsUserFile(p, excludedPaths))
    ensures r.Ok? ==>
      HashPaths(cache, digest, fs, userFiles).1.Keys == cache.Keys + (set p | p in traced && IsUserFile(p, excludedPaths))
  {
    UserFileKeys(userFiles, traced, excludedPaths, cache, digest, fs);
    if r.Ok? {
      assert Paths(r.value) == userFiles;
    } else {
      var k :| 0 <= k < |userFiles| && Current(cache, digest, fs, userFiles[k]) == None;
      assert userFiles[k] in traced && IsUserFile(userFiles[k], excludedPaths);
    }
  }

  /** Hashing the output of `user_files` memoises only traced user files, and all of them when
      none fails. */
  lemma UserFileKeys(userFiles: seq<Path>, traced: set<Path>, excludedPaths: seq<Path>, cache: Cache,
                     digest: Digest, fs: FileSystem)
    requires forall k :: 0 <= k < |userFiles| ==> userFiles[k] in traced && IsUserFile(userFiles[k], excludedPaths)
    requires forall p :: p in traced && IsUserFile(p, excludedPaths) ==> p in userFiles
    ensures HashPaths(cache, digest, fs, userFiles).1.Keys <= cache.Keys + (set p | p in traced && IsUserFile(p, excludedPaths))
    ensures HashPaths(cache, digest, fs, userFiles).0.Ok? ==>
      HashPaths(cache, digest, fs, userFiles).1.Keys == cache.Keys + (set p | p in traced && IsUserFile(p, excludedPaths))
  {
    HashPathsKeys(cache, digest, fs, userFiles);
    assert (set p | p in userFiles) == (set p | p in traced && IsUserFile(p, excludedPaths));
  }
}
