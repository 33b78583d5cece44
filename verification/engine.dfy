/**
 The store facade of src/store.js: `add`, `get`, `list` and `remove` built on
 the content store and the key index.

 Each operation is specified by a function from the engine's state (the disk
 and the index instance's in-memory mapping) to the report it gives and the
 new state; the `Store` methods are proved to follow those functions. The
 console messages of the source become `Report` values.
 */
module Engine {
  import opened Wrappers
  import opened Files
  import opened Cache
  import opened Index

  /**
   The fixed parameters of a store: its root directory, the key hash (MD5
   in hex in the source) and the index file encoding.
   */
  datatype Config = Config(root: Path, hash: string -> string, codec: Codec)

  /** A 32-digit lowercase hexadecimal string, the shape of an MD5 hex digest. */
  predicate IsDigest(h: string)
  {
    |h| == 32 && forall i | 0 <= i < |h| :: h[i] in "0123456789abcdef"
  }

  /** What the engine relies on: every hash is digest-shaped and the codec round-trips. */
  ghost predicate ValidConfig(cfg: Config)
  {
    ValidCodec(cfg.codec) && forall k :: IsDigest(cfg.hash(k))
  }

  /** The persistent and in-memory state: the disk, and the index instance's `_index`. */
  datatype State = State(files: map<Path, string>, index: Option<map<string, string>>)

  /** What an operation reports in place of the source's console output. */
  datatype Report =
    | Done                       // completed with nothing to print
    | Found(value: string)       // `get` printed the stored value
    | Listed(keys: set<string>)  // `list` printed these keys
    | UsageError                 // a key, value or key list was missing
    | KeyExists(key: string)     // `add` of a key the index already holds
    | KeyNotFound(key: string)   // `get` of a key whose value file is missing
    | IndexUnreadable            // the index file does not decode (JSON.parse throws)

  /** `values.join(" ")`. */
  function JoinValues(values: seq<string>): (blob: string)
    ensures values == [] ==> blob == ""
    ensures values != [] ==> values[0] <= blob
    ensures |values| > 1 ==> |values[0]| < |blob| && blob[|values[0]|] == ' '
  {
    if |values| == 0 then ""
    else if |values| == 1 then values[0]
    else values[0] + " " + JoinValues(values[1..])
  }

  /** The position of the first space in `s`. */
  function IndexOfSpace(s: string): (i: nat)
    requires ' ' in s
    ensures i < |s| && s[i] == ' ' && ' ' !in s[..i]
  {
    if s[0] == ' ' then 0
    else
      assert ' ' in s[1..] by { var j :| 0 <= j < |s| && s[j] == ' '; assert s[1..][j - 1] == ' '; }
      var i := 1 + IndexOfSpace(s[1..]);
      assert s[..i] == [s[0]] + s[1..][..i - 1];
      i
  }

  /** Splits `s` at every space: the inverse of `JoinValues` for space-free values. */
  function SplitWords(s: string): (r: seq<string>)
    decreases |s|
  {
    if ' ' !in s then [s]
    else
      var i := IndexOfSpace(s);
      [s[..i]] + SplitWords(s[i + 1..])
  }

  /**
   The blob `add` stores determines the values it was given, as long as no
   value contains a space: splitting the blob at its spaces gives them back.
   */
  lemma {:induction false} SplitJoinValues(values: seq<string>)
    requires |values| > 0
    requires forall j | 0 <= j < |values| :: ' ' !in values[j]
    ensures SplitWords(JoinValues(values)) == values
  {
    if |values| > 1 {
      var v, rest := values[0], JoinValues(values[1..]);
      var s := v + " " + rest;
      assert JoinValues(values) == s;
      assert s[|v|] == ' ';
      var i := IndexOfSpace(s);
      assert i == |v|;
      assert s[..i] == v;
      assert s[i + 1..] == rest;
      SplitJoinValues(values[1..]);
    }
  }

  /** JavaScript truthiness of `index[key]`: present with a non-empty hash. */
  predicate HasKey(m: map<string, string>, key: string)
    ensures key !in m ==> !HasKey(m, key)
    ensures key in m ==> (HasKey(m, key) <==> |m[key]| > 0)
  {
    key in m && m[key] != ""
  }

  /** JavaScript falsiness of a key argument: missing (`undefined`) or empty. */
  predicate MissingKey(key: Option<string>)
  {
    key.None? || key.value == ""
  }

  /** The value file of `key`: `<root>/cache/<hash(key)>`. */
  function CachePath(cfg: Config, key: string): Path
  {
    PathToCacheFile(CacheDir(cfg.root), cfg.hash(key))
  }

  /** The value files of `keys`, in order. */
  function CachePaths(cfg: Config, keys: seq<string>): (ps: seq<Path>)
    ensures |ps| == |keys|
    ensures forall j | 0 <= j < |keys| :: ps[j] == CachePath(cfg, keys[j])
  {
    seq(|keys|, j requires 0 <= j < |keys| => CachePath(cfg, keys[j]))
  }

  /** No value file is the index file: `cache/...` and `index` differ after the root. */
  lemma CachePathIsNotIndexPath(cfg: Config, key: string)
    ensures CachePath(cfg, key) != IndexPath(cfg.root)
  {
    var n := |cfg.root| + 1;
    assert CachePath(cfg, key)[n] == 'c';
    assert IndexPath(cfg.root)[n] == 'i';
  }

  /** The mapping the next index access of this state sees. */
  function Loaded(cfg: Config, s: State): Option<map<string, string>>
  {
    View(s.files, IndexPath(cfg.root), cfg.codec, s.index)
  }

  /**
   `add(key, ...values)`: a usage error when the key or the values are
   missing (before the index is read); "already exists" with no writes when
   the loaded index holds the key; otherwise the joined values are written to
   the key's value file and `key -> hash(key)` is added to the index, which
   is then written.
   */
  function AddSpec(cfg: Config, s: State, key: Option<string>, values: seq<string>): (Report, State)
  {
    if MissingKey(key) || |values| == 0 then (UsageError, s)
    else match Loaded(cfg, s)
      case None => (IndexUnreadable, s)
      case Some(m) =>
        var k := key.value;
        if HasKey(m, k) then (KeyExists(k), State(s.files, Some(m)))
        else
          var m' := m[k := cfg.hash(k)];
          var files' := s.files[CachePath(cfg, k) := JoinValues(values)];
          (Done, State(files'[IndexPath(cfg.root) := cfg.codec.encode(m')], Some(m')))
  }

  /** `writeKeyResult`: the value when the file was found, "does not exist" otherwise. */
  function KeyResult(key: string, fileData: Option<string>): (r: Report)
    ensures r.KeyNotFound? <==> fileData.None?
    ensures r.KeyNotFound? ==> r.key == key
    ensures r.Found? <==> fileData.Some?
    ensures r.Found? ==> fileData == Some(r.value)
  {
    if fileData.None? then KeyNotFound(key) else Found(fileData.value)
  }

  /**
   `get(key)`: a usage error without a key; otherwise the contents of the
   key's value file, or "does not exist". The index is not consulted.
   */
  function GetSpec(cfg: Config, files: map<Path, string>, key: Option<string>): Report
  {
    if MissingKey(key) then UsageError
    else
      var p := CachePath(cfg, key.value);
      KeyResult(key.value, if p in files then Some(files[p]) else None)
  }

  /** `list()`: the keys of the loaded index. */
  function ListSpec(cfg: Config, s: State): (Report, State)
  {
    match Loaded(cfg, s)
    case None => (IndexUnreadable, s)
    case Some(m) => (Listed(m.Keys), State(s.files, Some(m)))
  }

  /**
   `remove(...keys)`: a usage error without keys; otherwise the value file of
   every key is deleted, every key is removed from the loaded index, and the
   index is written once.
   */
  function RemoveSpec(cfg: Config, s: State, keys: seq<string>): (Report, State)
  {
    if |keys| == 0 then (UsageError, s)
    else
      var files' := Without(s.files, CachePaths(cfg, keys));
      match Loaded(cfg, State(files', s.index))
      case None => (IndexUnreadable, State(files', s.index))
      case Some(m) =>
        var m' := Without(m, keys);
        (Done, State(files'[IndexPath(cfg.root) := cfg.codec.encode(m')], Some(m')))
  }

  class Store {
    const root: Path
    const hash: string -> string
    const disk: Disk
    const cacheFs: CacheFs
    const indexFs: IndexFs

    /** The content store and the index share the disk and the root. */
    ghost predicate Valid()
    {
      && cacheFs.disk == disk && indexFs.disk == disk
      && cacheFs.cacheDir == CacheDir(root)
      && indexFs.indexPath == IndexPath(root)
      && ValidConfig(Cfg())
    }

    function Cfg(): Config
    {
      Config(root, hash, indexFs.codec)
    }

    function Snapshot(): State
      reads disk, indexFs
    {
      State(disk.files, indexFs.index)
    }

    /**
     The constructor for a non-empty `cacheDir`; the index is not read yet.
     `NewStore` models the check that throws for a missing one.
     */
    constructor (cacheDir: Path, hash: string -> string, codec: Codec, disk: Disk)
      requires cacheDir != ""
      requires ValidConfig(Config(cacheDir, hash, codec))
      ensures Valid() && fresh(cacheFs) && fresh(indexFs)
      ensures Cfg() == Config(cacheDir, hash, codec) && this.disk == disk
      ensures indexFs.index == None
    {
      root := cacheDir;
      this.hash := hash;
      this.disk := disk;
      cacheFs := new CacheFs(cacheDir, disk);
      indexFs := new IndexFs(cacheDir, codec, disk);
    }

    method Add(key: Option<string>, values: seq<string>) returns (r: Report)
      requires Valid()
      modifies disk, indexFs
      ensures (r, Snapshot()) == AddSpec(Cfg(), old(Snapshot()), key, values)
    {
      if key.None? || key.value == "" || |values| == 0 {
        return UsageError;
      }
      var index := indexFs.GetIndex();
      if index.None? {
        return IndexUnreadable;
      }
      var k := key.value;
      if k in index.value && index.value[k] != "" {
        return KeyExists(k);
      }
      var h := hash(k);
      cacheFs.WriteCacheFile(h, JoinValues(values));
      var added := indexFs.Add(k, h);
      CachePathIsNotIndexPath(Cfg(), k);
      var written := indexFs.Write();
      r := Done;
    }

    /** Reads only the disk: `get` changes nothing. */
    method Get(key: Option<string>) returns (r: Report)
      requires Valid()
      ensures r == GetSpec(Cfg(), disk.files, key)
    {
      if key.None? || key.value == "" {
        return UsageError;
      }
      var fileData := cacheFs.ReadCacheFile(hash(key.value));
      r := KeyResult(key.value, fileData);
    }

    method List() returns (r: Report)
      requires Valid()
      modifies indexFs
      ensures (r, Snapshot()) == ListSpec(Cfg(), old(Snapshot()))
    {
      var index := indexFs.GetIndex();
      if index.None? {
        return IndexUnreadable;
      }
      r := Listed(index.value.Keys);
    }

    method Remove(keys: seq<string>) returns (r: Report)
      requires Valid()
      modifies disk, indexFs
      ensures (r, Snapshot()) == RemoveSpec(Cfg(), old(Snapshot()), keys)
    {
      if |keys| < 1 {
        return UsageError;
      }
      var i := 0;
      while i < |keys|
        invariant 0 <= i <= |keys|
        invariant disk.files == Without(old(disk.files), CachePaths(Cfg(), keys[..i]))
        invariant indexFs.index == old(indexFs.index)
      {
        cacheFs.DeleteCacheFile(hash(keys[i]));
        assert CachePaths(Cfg(), keys[..i + 1])[..i] == CachePaths(Cfg(), keys[..i]);
        i := i + 1;
      }
      assert keys[..i] == keys;
      ghost var loaded := indexFs.Mapping();
      i := 0;
      while i < |keys|
        invariant 0 <= i <= |keys|
        invariant disk.files == Without(old(disk.files), CachePaths(Cfg(), keys))
        invariant i == 0 ==> indexFs.index == old(indexFs.index)
        invariant i > 0 ==> loaded.Some? && indexFs.index == Some(Without(loaded.value, keys[..i]))
      {
        var ok := indexFs.Remove(keys[i]);
        if !ok {
          return IndexUnreadable;
        }
        assert keys[..i + 1][..i] == keys[..i];
        i := i + 1;
      }
      assert keys[..i] == keys;
      var written := indexFs.Write();
      r := Done;
    }
  }

  /**
   `new Store(options)`: fails, as the source's constructor throws, when
   `cacheDir` is missing or empty.
   */
  method NewStore(cacheDir: Option<string>, hash: string -> string, codec: Codec, disk: Disk)
    returns (r: Option<Store>)
    requires !MissingKey(cacheDir) ==> ValidConfig(Config(cacheDir.value, hash, codec))
    ensures r.None? <==> MissingKey(cacheDir)
    ensures r.Some? ==> r.value.Valid() && r.value.Cfg() == Config(cacheDir.value, hash, codec)
    ensures r.Some? ==> r.value.disk == disk && r.value.indexFs.index == None
  {
    if cacheDir.None? || cacheDir.value == "" {
      return None;
    }
    var store := new Store(cacheDir.value, hash, codec, disk);
    r := Some(store);
  }
}
