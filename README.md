# pytest-affected, modelled in Dafny

pytest-affected is a pytest plugin that caches test results. When a test runs, a native
tracer records the source file of every Python frame the test executes. The plugin then
stores the test's reports with a MurmurHash3 hash of each of the user's own files among
them. The next time the test comes up, the plugin looks at the most recent stored run. If
every recorded file still hashes to its recorded value, the stored reports are replayed and
the test is not run again.

The model has five modules:

- `Common` (`common.dfy`): paths, `u64` hashes, file contents as bytes, and the filesystem
  as a partial map from path to bytes. A path that is absent cannot be read.
- `Murmur3` (`murmur3.dfy`): the memoising hasher of `src/hasher/murmur3.rs`.
  - The class `Murmur3Hasher` holds the `cache` map and the method `HashFile`.
  - `HashFile` is specified by the function `Lookup`.
  - `Current` is what `hash_file` would answer right now. `HashPaths` is `hash_file` applied
    to a list of paths in order.
- `Tracing` (`tracing.dfy`): the tracer of `src/tracer.rs`.
  - The class `Tracer` holds the recorded `files` set and the excluded library paths.
  - `add_filepath`, `clear_files` and `user_files` are methods; `IsUserFile` is the filter.
- `Store` (`store.dfy`): the SQLite store of `python/pytest_affected/store.py`.
  - Table `instances` is a sequence of rows with primary key `(node_id, files)`.
  - `save_runs` is a method over chunks, specified by `InsertAll`.
  - `list_recent_runs` is a query function.
- `Plugin` (`plugin.dfy`): the cache logic of `python/pytest_affected/plugin.py`.
  - The matcher, and the filter of runs worth caching.
  - The report and duration loop.
  - The hit and miss paths of `pytest_runtest_protocol`, written as a trace of the events
    the test harness and the tracer see around an opaque execution.
  - The class `Affected` holds the store, the hasher and the runs recorded in the session.

Quirks of the code that the model keeps:

- `list_recent_runs` ignores its `limit` argument. Its query ends in `limit 1`, so at most
  one candidate comes back, although the plugin passes `limit=50`.
- A `hash_file` error inside the matcher is not caught. It ends the hook with that error;
  the candidate is not skipped.
- `Tracer.stop()` is not in a `finally`. When the execution raises, tracing stays on.
- The duration loop tests `"setup"` twice and never `"teardown"`, so the teardown duration
  is always -1.
- Only `nodeid`, `files` and `reports` are stored. The durations and `failed` are not.

## Model

| member | source | states |
|---|---|---|
| Murmur3.Murmur3Hasher.constructor | src/hasher/murmur3.rs:17-21 | a new hasher has an empty cache |
| Murmur3.Lookup | src/hasher/murmur3.rs:23-36 | on a hit, the stored value is answered and the file is not looked at. On a miss with a readable file, the digest of its bytes is answered and memoised under the path. A failed read gives `NotFound(path)` and leaves the cache as it was. No other entry is removed or altered, and the only key that can appear is the path. The answer is `Current`, and `Current` of every path is unchanged |
| Murmur3.Murmur3Hasher.HashFile | src/hasher/murmur3.rs:23-36 | the result and the new cache are those of `Lookup` on the old cache. A hit leaves the cache unchanged, and the cache's key set only grows |
| Murmur3.MemoisedAcrossEdits | src/hasher/murmur3.rs:24-25 | once a path has been answered, asking again answers the same and changes nothing, whatever the file's bytes became in between |
| Murmur3.SameContentsSameHash | src/hasher/murmur3.rs:27-30 | two uncached readable paths with equal bytes hash alike |
| Murmur3.HashPaths | python/pytest_affected/plugin.py:107-110 | when every path hashes, the answers are the current answers of the paths, in order. An error names the first path that cannot be read, and every earlier path could be read. Current answers and existing cache entries are kept |
| Murmur3.HashPathsDependsOnCurrent | src/hasher/murmur3.rs:24-31 | two caches that agree on every path's current answer give the same answers for any list of paths |
| Murmur3.HashPathsKeys | src/hasher/murmur3.rs:24-31 | hashing a list of paths memoises only those paths: every new key is one of them. When every path hashes, all of them are keys afterwards |
| Murmur3.HashPathsAgain | src/hasher/murmur3.rs:24-25 | while the files stay put, hashing a list on a cache warmed by an earlier call answers as on the cache before that call |
| Tracing.Tracer.constructor | src/tracer.rs:80-84 | a new tracer has recorded no file; the excluded paths are the ones given |
| Tracing.Tracer.AddFilepath | src/tracer.rs:89-91 | `files` becomes the old set plus the path, so nothing else is added or removed, and adding it again leaves the set as it is. The result is true exactly when the path was new |
| Tracing.Tracer.RecordFrames | src/tracer.rs:46-51 | after the frames are handed to `add_filepath` in turn, `files` is the old set plus exactly the frames' paths |
| Tracing.Tracer.ClearFiles | src/tracer.rs:114-117 | `files` is empty; the excluded paths are a constant and cannot change |
| Tracing.Tracer.Keep | src/tracer.rs:126-143 | a path is kept exactly when it is a user file: it does not start with `<`, is not empty, and has no excluded path as a prefix |
| Tracing.Tracer.UserFiles | src/tracer.rs:120-146 | every returned path is in `files` and is a user file, and every user file in `files` is returned exactly once. With no `modifies` clause, it cannot change `files` or the excluded paths |
| Store.SQLiteStore.constructor | python/pytest_affected/store.py:28-30 | the store starts on existing rows that respect the primary key |
| Store.InsertRow | python/pytest_affected/store.py:52 | rows already present are kept unchanged, and afterwards the key is present. A row is added exactly when the key was absent, and it is this run's row. The primary key stays unique |
| Store.InsertAll | python/pytest_affected/store.py:48-61 | the old table is a prefix of the new one, and every run's key is present afterwards |
| Store.InsertAllKeepsKeysUnique | python/pytest_affected/store.py:29 | saving runs never puts two rows with the same `(node_id, files)` into the table |
| Store.InsertAllPresent | python/pytest_affected/store.py:52 | runs whose keys are all present insert nothing; existing rows are not overwritten |
| Store.NewRowsComeFromRuns | python/pytest_affected/store.py:52-59 | every row that saving adds is the row of one of the runs given |
| Store.SaveTwice | python/pytest_affected/store.py:48-61 | saving the same runs a second time, at any timestamp, leaves the table as saving them once |
| Store.AbsentKeyStaysAbsent | python/pytest_affected/store.py:52 | a key that is absent and that no run carries is still absent after saving |
| Store.FirstOccurrenceWins | python/pytest_affected/store.py:49-60 | among runs with a key the table lacks, the first one's row is the one stored |
| Store.InsertAllAppend | python/pytest_affected/store.py:49-60 | inserting `a` then `b` is inserting `a + b`, so cutting the runs into chunks changes nothing |
| Store.ReorderedFilesAreTwoRows | python/pytest_affected/store.py:56 | two runs of one test whose files hold the same pairs in different orders are two keys. When the table has neither, saving both adds two rows |
| Store.SaveNothing | python/pytest_affected/store.py:49 | saving no runs leaves the table as it was |
| Store.Latest | python/pytest_affected/store.py:35 | there is no answer exactly when no row has the node id. Otherwise the answer is a row of that node id with the greatest `run_at` |
| Store.SQLiteStore.ListRecentRuns | python/pytest_affected/store.py:32-46 | whatever the `limit`, at most one run comes back, with the requested node id. None comes back exactly when no row has that node id. Otherwise it carries the files and reports of a row with the greatest `run_at` for it |
| Store.SQLiteStore.SaveRuns | python/pytest_affected/store.py:48-61 | each chunk `runs[i : i + chunk_size]` is inserted in turn, and the table ends as `InsertAll` of all the runs in order. The primary key stays unique |
| Store.SQLiteStore.ExecuteMany | python/pytest_affected/store.py:51-60 | one `executemany` of insert-if-absent leaves the table as `InsertAll` of the chunk |
| Plugin.SameFilesIff | python/pytest_affected/plugin.py:67-71 | when the fresh hashes depend only on the path, the expected and found sets are equal exactly when each recorded hash equals the fresh hash of its path |
| Plugin.OneRun | python/pytest_affected/plugin.py:66-71 | hashing a run's recorded paths fails exactly when one of them cannot be read. Otherwise the sets agree exactly when every recorded file currently hashes to its recorded hash, so one changed file voids the run and a run with no files always matches |
| Plugin.Search | python/pytest_affected/plugin.py:65-74 | the matcher leaves every path's current answer and every existing cache entry as they were |
| Plugin.SearchOutcome | python/pytest_affected/plugin.py:65-74 | the matcher gives `None` exactly when every run, or none at all, was hashed and none matches. A hit is the first matching run, and every earlier run was readable and did not match. An error comes from the first run with an unreadable file, and it is the read error (`NotFound`) of one of that run's recorded paths that has no current answer |
| Plugin.HashFiles | python/pytest_affected/plugin.py:107-110 | the loop pairs each path with its `hash_file` answer, in order, or propagates the first error. The cache ends as `HashPaths` leaves it |
| Plugin.SearchCachedResultInRecentRuns | python/pytest_affected/plugin.py:65-74 | the loop's answer and the hasher's new cache are those of `Search` |
| Plugin.SelectIsSubsequence | python/pytest_affected/plugin.py:53-58 | the cacheable runs sit at increasing positions of the session's runs. A position is among them exactly when its run took strictly more than the minimum time and either did not fail or failures are cached |
| Plugin.SelectMembers | python/pytest_affected/plugin.py:53-58 | a run is cacheable exactly when it is one of the session's runs and passes the test |
| Plugin.CacheableRuns | python/pytest_affected/plugin.py:53-58 | the loop with its `continue` builds exactly `Select` of the runs |
| Plugin.SavedRowsComeFromCacheableRuns | python/pytest_affected/plugin.py:53-60 | every row the end of the session adds is one cacheable run's `nodeid`, `files` and `reports` with the save time, so the durations and `failed` are not stored |
| Plugin.CacheableRunsAreSaved | python/pytest_affected/plugin.py:53-60 | after the end of the session, the table holds a row under the key of every cacheable run |
| Plugin.LastDuration | python/pytest_affected/plugin.py:96-104 | the duration of the last report of the phase, or -1 when no report is of that phase |
| Plugin.LogReportsAndDurations | python/pytest_affected/plugin.py:96-104 | every report is logged once, in order. The setup and call durations are those of the last report of their phase, or -1, and the teardown duration is always -1 |
| Plugin.ReplayStoredRun | python/pytest_affected/plugin.py:83-87 | a hit emits log-start, one log-report per stored report in order, then log-finish |
| Plugin.Affected.constructor | python/pytest_affected/plugin.py:8-11 | a new `Affected` has a fresh hasher with an empty cache and no recorded run |
| Plugin.Affected.RuntestProtocol | python/pytest_affected/plugin.py:77-123 | the outcome is decided by the matcher on the recent runs the store gives for the node id. On a matcher error, that error escapes with nothing logged or recorded. The tracer is untouched and the cache is as the matcher left it. On a hit, the stored reports are replayed and no run or traced file changes. On a miss, the result is `MissOutcome`, starting from the cache the matcher left. Whenever the hook returns, it returns True |
| Plugin.Affected.RunAndRecord | python/pytest_affected/plugin.py:89-121 | the tracer holds exactly the files of the executed frames. If the execution raises, the trace stops after it with no stop event, and nothing is recorded. Otherwise the trace is start, clear, start tracing, execute, stop tracing, every report in order, then finish. The hook raises a hash error exactly when a traced user file has no current answer in the cache the miss started from. That error is the read error (`NotFound`) of one such file. Otherwise it returns True, having appended one run with the test's node id, reports, durations, failed flag, and every traced user file paired once with that answer. If the execution raised, the cache is unchanged. Otherwise every memoised entry and every path's current answer is kept. The only new keys are traced user files, and when the hook returns, every traced user file is a key |
| Plugin.UserFilePairs | python/pytest_affected/plugin.py:107-110 | hashing the output of `user_files` fails exactly when some traced user file has no current answer in the starting cache. The error is the read error (`NotFound`) of one such file. Otherwise each traced user file is paired once with that answer, and nothing else is included. The new cache keys are traced user files, all of them when no read fails |
| Plugin.UserFileKeys | python/pytest_affected/plugin.py:107-110 | hashing the output of `user_files` adds only traced user files to the cache's keys, and all of them when no read fails |
| Plugin.Affected.SessionFinish | python/pytest_affected/plugin.py:47-62 | the table ends as inserting, in order, the stored fields of exactly the cacheable runs, and the primary key stays unique |

## Left out

- The frame-evaluation hook: `eval_frame`, `start` and `stop` in `src/tracer.rs`.
  - They install a C function in the interpreter through unsafe FFI.
  - The model treats them as events in the trace.
  - The frames an execution evaluates are an input, and each is handed to `add_filepath`.
- The `sysconfig` lookup in `Tracer::new` is a call into Python. The excluded paths are a
  constructor parameter.
- The process-wide `Lazy<RwLock<Tracer>>`: there is no concurrency in the model, and the
  tracer is one object.
- Murmur3.Lookup: a cache key is the path's string, compared character by character.
  - `HashMap<PathBuf, u64>` compares paths by component, so `src/a.py`, `src//a.py` and
    `src/./a.py` are one key in the source and three in the model.
  - The model holds for callers that spell each file one way. The tracer records a code
    object's file name, and the stored files reuse that string.
  - Spellings that differ but name the same file are not modelled.
- The MurmurHash3 algorithm comes from the external `fasthash` crate, and the file read is
  `std::fs::read`.
  - The digest is an uninterpreted function of the bytes, fixed when the hasher is built.
  - Every read error is `NotFound`.
- The SQLite connection, the `.pytest_affected` directory, and transactions and their
  rollback.
  - A chunk that fails part-way is not modelled; no insert fails in the model.
- `pickle`: reports are values the store hands back unchanged.
- `json`: `files` is kept as the sequence itself. This relies on `json.dumps` being injective
  on lists of `(str, int)` pairs.
- `json.loads` turns the stored pairs into two-element lists. The matcher unpacks them the
  same way, so the model keeps them as pairs.
- `current_timestamp`: `run_at` is a number the caller supplies.
- Store.SQLiteStore.SaveRuns: requires `chunkSize > 0`.
  - In Python, `range` raises `ValueError` on a step of 0, and a negative step saves nothing.
  - Neither case is modelled. The only caller uses the default of 500.
- Store.Latest: when several rows of a node id share the greatest `run_at`, SQL leaves the
  choice open.
  - The function picks the earliest such row.
  - `ListRecentRuns` promises only a row with the greatest `run_at`.
- TTL eviction is not modelled.
  - `Affected.clear_cache` calls `delete_old_runs` on the store.
  - Neither `SQLiteStore` nor its base `Store` in `python/pytest_affected/store.py` defines
    that method, so as written the call would raise `AttributeError`.
- pytest option registration and hook wiring (`pytest_addoption`, `pytest_sessionstart`,
  the hook wrappers' `yield`) are not modelled.
- `location` in the start and finish hooks is not modelled.
- `runtestprotocol` is opaque.
  - It returns the reports, a failed flag, and the files as the test left them.
  - Or it raises.
- The `RunInstance` dataclass declares only `nodeid`, `files` and `reports`.
  - The plugin builds it with `setup_duration`, `call_duration` and `teardown_duration` as
    well, which the dataclass constructor would reject with a `TypeError`.
  - The plugin also reads `failed`, which nothing sets.
  - The model follows the plugin's evident intent. `TimedRun` carries the durations and the
    `failed` flag, which is an input supplied by the test harness.
  - `save_runs` keeps only the three declared fields.
- Tracing.Tracer.UserFiles: the order of the returned paths is the hash set's iteration
  order, which the model leaves open.
- `Instances`, which keeps only the dataclass fields of each run, is specified through
  `SavedRowsComeFromCacheableRuns`.
- Plugin.Select: its own contract gives only the length bound. What it keeps is stated by
  `SelectIsSubsequence` and `SelectMembers`.
- `src/lib.rs` only registers the classes with PyO3, so it is not part of this model.
