/** The optional value used where the source returns `null` or `undefined`. */
module Wrappers {
  datatype Option<+T> = None | Some(value: T)
}

/**
 The file system seen by the storage engine, and the `readFileOrDefault`
 helper of src/util/fs.js.

 A disk is a finite map from path to text contents. Directory creation has no
 effect on that map and is not modelled. The OS read is split from the
 helper's error handling: `RawRead` is what `fs.readFile` reports for a path
 of the disk, `ReadFileOrDefault` is the try/catch around it, and it is
 specified for every outcome an OS read can report, not only the ones this
 disk produces.
 */
module Files {
  import opened Wrappers

  type Path = string

  /** The error code Node reports for a missing file. */
  const ENOENT := "ENOENT"

  /** `path.join(dir, name)` for a directory and a plain file name. */
  function Join(dir: Path, name: string): (p: Path)
    ensures |p| == |dir| + 1 + |name|
    ensures p[..|dir|] == dir && p[|dir|] == '/' && p[|dir| + 1..] == name
  {
    dir + "/" + name
  }

  /** What one OS read reports: the file's text, or an error code. */
  datatype ReadOutcome = Data(contents: string) | Error(code: string)

  /** The OS read of `path` on a disk whose only failure is a missing file. */
  function RawRead(files: map<Path, string>, path: Path): ReadOutcome
  {
    if path in files then Data(files[path]) else Error(ENOENT)
  }

  /** What `readFileOrDefault` resolves to, or the error it rethrows. */
  datatype ReadResult = Read(value: Option<string>) | Fault(code: string)

  /**
   `readFileOrDefault(path, defaultValue = null)`: the contents when the read
   succeeds, `defaultValue` when it fails with ENOENT, and the failure itself
   for every other error code.
   */
  function ReadFileOrDefault(outcome: ReadOutcome, defaultValue: Option<string> := None): (r: ReadResult)
    ensures r.Fault? <==> outcome.Error? && outcome.code != ENOENT
    ensures r.Fault? ==> r.code == outcome.code
    ensures outcome.Data? ==> r == Read(Some(outcome.contents))
    ensures outcome == Error(ENOENT) ==> r == Read(defaultValue)
  {
    match outcome
    case Data(contents) => Read(Some(contents))
    case Error(code) => if code == ENOENT then Read(defaultValue) else Fault(code)
  }

  /**
   On the disk, `readFileOrDefault` is a map lookup with a default: it never
   fails, returns the contents of an existing path and the default otherwise.
   */
  lemma ReadFileOrDefaultIsLookup(files: map<Path, string>, path: Path, defaultValue: Option<string>)
    ensures ReadFileOrDefault(RawRead(files, path), defaultValue)
            == Read(if path in files then Some(files[path]) else defaultValue)
  {
  }

  /** The null default: a missing path reads as `None`. */
  lemma MissingPathReadsNull(files: map<Path, string>, path: Path)
    requires path !in files
    ensures ReadFileOrDefault(RawRead(files, path)) == Read(None)
  {
  }

  /**
   `m` without the keys `ks`, removed one at a time from the first to the
   last, as a loop over `ks` removes them.
   */
  function Without<K, V>(m: map<K, V>, ks: seq<K>): map<K, V>
  {
    if ks == [] then m else Without(m, ks[..|ks| - 1]) - {ks[|ks| - 1]}
  }

  /** Removing keys one at a time removes exactly those keys and keeps every other entry. */
  lemma {:induction false} WithoutRemovesExactly<K, V>(m: map<K, V>, ks: seq<K>)
    ensures forall k :: k in Without(m, ks) <==> k in m && k !in ks
    ensures forall k :: k in Without(m, ks) ==> Without(m, ks)[k] == m[k]
  {
    if ks != [] {
      var init := ks[..|ks| - 1];
      WithoutRemovesExactly(m, init);
      assert ks == init + [ks[|ks| - 1]];
      forall k
        ensures k in Without(m, ks) <==> k in m && k !in ks
      {
        assert k in ks <==> k in init || k == ks[|ks| - 1];
      }
    }
  }

  /** The machine's file system, shared by every component that touches files. */
  class Disk {
    var files: map<Path, string>

    constructor (initial: map<Path, string>)
      ensures files == initial
    {
      files := initial;
    }

    /** `fs.writeFile`: creates or fully overwrites one file. */
    method WriteFile(path: Path, contents: string)
      modifies this
      ensures files == old(files)[path := contents]
    {
      files := files[path := contents];
    }

    /** `fs.unlink`: removes one file, or fails with ENOENT when it is missing. */
    method Unlink(path: Path) returns (err: Option<string>)
      modifies this
      ensures path in old(files) ==> err == None && files == old(files) - {path}
      ensures path !in old(files) ==> err == Some(ENOENT) && files == old(files)
    {
      if path in files {
        files := files - {path};
        err := None;
      } else {
        err := Some(ENOENT);
      }
    }
  }
}
