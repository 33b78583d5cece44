/**
 The content store of src/cacheFs.js: one file per value, named by the hash
 of its key, under `<root>/cache`.
 */
module Cache {
  import opened Wrappers
  import opened Files

  /** The name of the cache subdirectory under the storage root. */
  const CACHE_DIR := "cache"

  /** `<root>/cache`. */
  function CacheDir(root: Path): Path
  {
    Join(root, CACHE_DIR)
  }

  /** `_pathToCacheFile`: the file `<cacheDir>/<hash>`. */
  function PathToCacheFile(cacheDir: Path, hash: string): (p: Path)
    ensures |p| == |cacheDir| + 1 + |hash|
    ensures p[..|cacheDir|] == cacheDir && p[|cacheDir| + 1..] == hash
  {
    Join(cacheDir, hash)
  }

  /** Distinct hashes are stored in distinct files: the hash is recovered from its path. */
  lemma PathToCacheFileInjective(cacheDir: Path, h1: string, h2: string)
    ensures PathToCacheFile(cacheDir, h1) == PathToCacheFile(cacheDir, h2) <==> h1 == h2
  {
    if PathToCacheFile(cacheDir, h1) == PathToCacheFile(cacheDir, h2) {
      var p := PathToCacheFile(cacheDir, h1);
      assert h1 == p[|cacheDir| + 1..];
    }
  }

  class CacheFs {
    const cacheDir: Path
    const disk: Disk

    constructor (root: Path, disk: Disk)
      ensures cacheDir == CacheDir(root) && this.disk == disk
    {
      cacheDir := CacheDir(root);
      this.disk := disk;
    }

    /** The file that holds the value stored under `hash`. */
    function PathTo(hash: string): Path
    {
      PathToCacheFile(cacheDir, hash)
    }

    /**
     `deleteCacheFile`: afterwards the file for `hash` is absent and every
     other file is as before; a file that was already missing is a silent
     no-op (the ENOENT from unlink is swallowed).
     */
    method DeleteCacheFile(hash: string)
      modifies disk
      ensures disk.files == old(disk.files) - {PathTo(hash)}
    {
      var err := disk.Unlink(PathTo(hash));
      if err.Some? && err.value == ENOENT {
        return;
      }
    }

    /**
     `writeCacheFile`: the file for `hash` now holds exactly `contents`,
     whatever it held before, and no other file changes.
     */
    method WriteCacheFile(hash: string, contents: string)
      modifies disk
      ensures disk.files == old(disk.files)[PathTo(hash) := contents]
    {
      disk.WriteFile(PathTo(hash), contents);
    }

    /**
     Deleting twice leaves the disk as deleting once does: the second call
     meets ENOENT and swallows it.
     */
    method DeleteTwice(hash: string)
      modifies disk
      ensures disk.files == old(disk.files) - {PathTo(hash)}
    {
      DeleteCacheFile(hash);
      ghost var once := disk.files;
      DeleteCacheFile(hash);
      assert once - {PathTo(hash)} == once;
    }

    /**
     `readCacheFile`: the contents of the file for `hash`, or `null` when it
     is missing; nothing changes on disk.
     */
    method ReadCacheFile(hash: string) returns (data: Option<string>)
      ensures PathTo(hash) in disk.files ==> data == Some(disk.files[PathTo(hash)])
      ensures PathTo(hash) !in disk.files ==> data == None
    {
      var r := ReadFileOrDefault(RawRead(disk.files, PathTo(hash)), None);
      ReadFileOrDefaultIsLookup(disk.files, PathTo(hash), None);
      data := r.value;
    }
  }
}
