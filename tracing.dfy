/** The file tracer of src/tracer.rs: the set of files executed frames came from,
    and the filter that keeps only the user's own files. */
module Tracing {
  import opened Common

  /** The filter of `user_files`: not a `<...>` pseudo-file of built-in code, not empty, and not
      under any of the interpreter's library directories (a string prefix test). */
  predicate IsUserFile(path: Path, excludedPaths: seq<Path>)
  {
    && !(|path| > 0 && path[0] == '<')
    && path != []
    && forall e :: e in excludedPaths ==> !(e <= path)
  }

  /** The process-wide `Tracer`: the files recorded so far and the excluded library paths,
      which `sysconfig` supplies once at start-up and nothing changes afterwards. */
  class Tracer {
    var files: set<Path>
    const excludedPaths: seq<Path>

    /** `Tracer::new`: nothing recorded yet. */
    constructor (excludedPaths: seq<Path>)
      ensures files == {} && this.excludedPaths == excludedPaths
    {
      files := {};
      this.excludedPaths := excludedPaths;
    }

    /** `add_filepath`, called for every frame the interpreter evaluates while tracing:
        records the path and tells whether it was new. */
    method AddFilepath(path: Path) returns (added: bool)
      modifies this
      ensures files == old(files) + {path}
      ensures added <==> path !in old(files)
    {
      added := path !in files;
      files := files + {path};
    }

    /** While the hook is installed, `eval_frame` hands the source file of every frame the
        interpreter evaluates to `add_filepath`, in order. */
    method RecordFrames(frames: seq<Path>)
      modifies this
      ensures files == old(files) + set p | p in frames
    {
      for i := 0 to |frames|
        invariant files == old(files) + set p | p in frames[..i]
      {
        assert frames[..i + 1] == frames[..i] + [frames[i]];
        var _ := AddFilepath(frames[i]);
      }
      assert frames[..|frames|] == frames;
    }

    /** `clear_files`: forgets every recorded path; the excluded paths are a constant. */
    method ClearFiles()
      modifies this
      ensures files == {}
    {
      files := {};
    }

    /** The closure given to `filter` in `user_files`, with its loop over the excluded paths. */
    method Keep(path: Path) returns (keep: bool)
      ensures keep <==> IsUserFile(path, excludedPaths)
    {
      if |path| > 0 && path[0] == '<' {
        return false;
      }
      if path == [] {
        return false;
      }
      for i := 0 to |excludedPaths|
        invariant forall j :: 0 <= j < i ==> !(excludedPaths[j] <= path)
      {
        if excludedPaths[i] <= path {
          assert excludedPaths[i] in excludedPaths;
          return false;
        }
      }
      return true;
    }

    /** `user_files`: every recorded user file, once each, in the set's iteration order
        (which the model leaves open). Reads the tracer and changes nothing. */
    method UserFiles() returns (paths: seq<Path>)
      ensures forall k :: 0 <= k < |paths| ==> paths[k] in files && IsUserFile(paths[k], excludedPaths)
      ensures forall p :: p in files && IsUserFile(p, excludedPaths) ==> p in paths
      ensures forall i, j :: 0 <= i < j < |paths| ==> paths[i] != paths[j]
    {
      paths := [];
      var rest := files;
      while rest != {}
        invariant rest <= files
        invariant forall k :: 0 <= k < |paths| ==> paths[k] in files - rest && IsUserFile(paths[k], excludedPaths)
        invariant forall p :: p in files - rest && IsUserFile(p, excludedPaths) ==> p in paths
        invariant forall i, j :: 0 <= i < j < |paths| ==> paths[i] != paths[j]
        decreases rest
      {
        var path :| path in rest;
        var keep := Keep(path);
        if keep {
          paths := paths + [path];
        }
        rest := rest - {path};
      }
    }
  }
}
