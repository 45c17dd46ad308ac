/** The memoising file hasher of src/hasher/murmur3.rs. */
module Murmur3 {
  import opened Common

  /** The MurmurHash3 digest of the external `fasthash` crate: a fixed function of the bytes. */
  type Digest = Bytes -> U64

  /** The `cache: HashMap<PathBuf, u64>` field. */
  type Cache = map<Path, U64>

  /** What `hash_file(path)` would answer at this moment: the memoised value if the path
      has one, else the digest of the file's current bytes, else nothing (the read fails). */
  function Current(cache: Cache, digest: Digest, fs: FileSystem, path: Path): Option<U64>
  {
    if path in cache then Some(cache[path])
    else if path in fs then Some(digest(fs[path]))
    else None
  }

  /** One call of `hash_file`: its answer, and the cache it leaves behind. */
  function Lookup(cache: Cache, digest: Digest, fs: FileSystem, path: Path): (out: (Result<U64>, Cache))
    // a hit answers the stored value and does not look at the file
    ensures path in cache ==> out.0 == Ok(cache[path])
    // a miss whose read succeeds answers the digest of the bytes read
    ensures path !in cache && path in fs ==> out.0 == Ok(digest(fs[path]))
    // every answer given is memoised under its path
    ensures out.0.Ok? ==> path in out.1 && out.1[path] == out.0.value
    // a failed read leaves the cache as it was
    ensures out.0.Err? ==> out.0.error == NotFound(path) && path !in fs && out.1 == cache
    // no other entry is added, removed or altered
    ensures out.1.Keys <= cache.Keys + {path}
    ensures forall q :: q in cache ==> q in out.1 && out.1[q] == cache[q]
    // the answer is the current one, and the current answer of every path is unchanged
    ensures out.0.Ok? <==> Current(cache, digest, fs, path).Some?
    ensures out.0.Ok? ==> Current(cache, digest, fs, path) == Some(out.0.value)
    ensures forall q :: Current(out.1, digest, fs, q) == Current(cache, digest, fs, q)
  {
    if path in cache then (Ok(cache[path]), cache)
    else if path in fs then
      var h := digest(fs[path]);
      (Ok(h), cache[path := h])
    else (Err(NotFound(path)), cache)
  }

  /** `hash_file` applied to each path in order, as a caller looping over them does:
      the first failing read propagates, and what was hashed before it stays memoised. */
  function HashPaths(cache: Cache, digest: Digest, fs: FileSystem, paths: seq<Path>): (out: (Result<seq<U64>>, Cache))
    ensures out.0.Ok? ==>
      |out.0.value| == |paths| &&
      forall k :: 0 <= k < |paths| ==> Current(cache, digest, fs, paths[k]) == Some(out.0.value[k])
    ensures out.0.Err? ==>
      exists k :: 0 <= k < |paths| && out.0.error == NotFound(paths[k]) &&
        Current(cache, digest, fs, paths[k]) == None &&
        forall j :: 0 <= j < k ==> Current(cache, digest, fs, paths[j]).Some?
    ensures forall q :: Current(out.1, digest, fs, q) == Current(cache, digest, fs, q)
    ensures forall q :: q in cache ==> q in out.1 && out.1[q] == cache[q]
  {
    if paths == [] then (Ok([]), cache)
    else
      var n := |paths| - 1;
      assert forall j :: 0 <= j < n ==> paths[..n][j] == paths[j];
      var init := HashPaths(cache, digest, fs, paths[..n]);
      match init.0
      case Err(e) => init
      case Ok(vs) =>
        var last := Lookup(init.1, digest, fs, paths[n]);
        match last.0
        case Err(e) => (Err(e), last.1)
        case Ok(v) => (Ok(vs + [v]), last.1)
  }

  /** Only the paths asked for are memoised: every new key is one of `paths`, and when every
      path hashes, all of them are keys afterwards. */
  lemma {:induction false} HashPathsKeys(cache: Cache, digest: Digest, fs: FileSystem, paths: seq<Path>)
    ensures forall q :: q in HashPaths(cache, digest, fs, paths).1 ==> q in cache || q in paths
    ensures HashPaths(cache, digest, fs, paths).0.Ok? ==> forall q :: q in paths ==> q in HashPaths(cache, digest, fs, paths).1
  {
    if paths != [] {
      var n := |paths| - 1;
      HashPathsKeys(cache, digest, fs, paths[..n]);
      assert forall q :: q in paths <==> q in paths[..n] || q == paths[n] by {
        assert paths == paths[..n] + [paths[n]];
      }
    }
  }

  /** Once `hash_file` has answered a path, it answers the same for that path forever after,
      whatever happens to the file's bytes in between. */
  lemma MemoisedAcrossEdits(cache: Cache, digest: Digest, before: FileSystem, after: FileSystem, path: Path)
    requires Lookup(cache, digest, before, path).0.Ok?
    ensures var first := Lookup(cache, digest, before, path);
      Lookup(first.1, digest, after, path) == (first.0, first.1)
  {
  }

  /** The hash is a function of the bytes: two uncached files with equal contents hash alike. */
  lemma SameContentsSameHash(cache: Cache, digest: Digest, fs: FileSystem, p: Path, q: Path)
    requires p !in cache && q !in cache && p in fs && q in fs && fs[p] == fs[q]
    ensures Lookup(cache, digest, fs, p).0 == Lookup(cache, digest, fs, q).0
  {
  }

  /** While the files stay as they are, hashing one list of paths and then another gives the
      same answers as hashing the second list on the cache the first call started from. */
  lemma {:induction false} HashPathsAgain(cache: Cache, digest: Digest, fs: FileSystem, first: seq<Path>, second: seq<Path>)
    ensures HashPaths(HashPaths(cache, digest, fs, first).1, digest, fs, second).0 ==
            HashPaths(cache, digest, fs, second).0
  {
    var mid := HashPaths(cache, digest, fs, first).1;
    HashPathsDependsOnCurrent(mid, cache, digest, fs, second);
  }

  /** Two caches that give the same current answer for every path make `HashPaths` answer alike. */
  lemma {:induction false} HashPathsDependsOnCurrent(c1: Cache, c2: Cache, digest: Digest, fs: FileSystem, paths: seq<Path>)
    requires forall q :: Current(c1, digest, fs, q) == Current(c2, digest, fs, q)
    ensures HashPaths(c1, digest, fs, paths).0 == HashPaths(c2, digest, fs, paths).0
  {
    if paths != [] {
      var n := |paths| - 1;
      var init := paths[..n];
      HashPathsDependsOnCurrent(c1, c2, digest, fs, init);
      var i1 := HashPaths(c1, digest, fs, init);
      var i2 := HashPaths(c2, digest, fs, init);
      if i1.0.Ok? {
        LookupDependsOnCurrent(i1.1, i2.1, digest, fs, paths[n]);
      }
    }
  }

  /** `hash_file` answers from the current answers alone. */
  lemma LookupDependsOnCurrent(c1: Cache, c2: Cache, digest: Digest, fs: FileSystem, path: Path)
    requires Current(c1, digest, fs, path) == Current(c2, digest, fs, path)
    ensures Lookup(c1, digest, fs, path).0 == Lookup(c2, digest, fs, path).0
  {
  }

  /** A `Murmur3Hasher`: the memo table from path to digest. */
  class Murmur3Hasher {
    var cache: Cache
    const digest: Digest

    /** `Murmur3Hasher::new`: the cache starts empty. */
    constructor (digest: Digest)
      ensures cache == map[] && this.digest == digest
    {
      cache := map[];
      this.digest := digest;
    }

    /** `hash_file`: answer from the cache, or read, hash and memoise. */
    method HashFile(fs: FileSystem, path: Path) returns (r: Result<U64>)
      modifies this
      ensures (r, cache) == Lookup(old(cache), digest, fs, path)
      ensures path in old(cache) ==> r == Ok(old(cache)[path]) && cache == old(cache)
      ensures old(cache).Keys <= cache.Keys
    {
      if path in cache {
        r := Ok(cache[path]);
      } else if path in fs {
        var contents := fs[path];
        var h := digest(contents);
        cache := cache[path := h];
        r := Ok(h);
      } else {
        r := Err(NotFound(path));
      }
    }
  }
}
