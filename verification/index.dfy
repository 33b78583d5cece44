/**
 The key index of src/indexFs.js: a key -> hash mapping kept in the file
 `<root>/index`, loaded lazily at most once per instance, changed in memory by
 `add` and `remove`, and written back only by `write`.

 The JSON encoding is abstracted as a `Codec`: `encode` stands for
 `JSON.stringify` of a mapping and `decode` for `JSON.parse` of a file's
 text, `None` being a text that does not parse to a mapping (JSON.parse
 throws). The only property the engine relies on is that decoding an encoded
 mapping gives it back.
 */
module Index {
  import opened Wrappers
  import opened Files

  /** The name of the index file under the storage root. */
  const INDEX_FILENAME := "index"

  datatype Codec = Codec(encode: map<string, string> -> string,
                         decode: string -> Option<map<string, string>>)

  /** Decoding what was encoded gives back the same mapping. */
  ghost predicate ValidCodec(c: Codec)
  {
    forall m :: c.decode(c.encode(m)) == Some(m)
  }

  /** `DEFAULT_INDEX`: the text of the empty mapping. */
  function DefaultIndex(c: Codec): string
  {
    c.encode(map[])
  }

  /** `<root>/index`. */
  function IndexPath(root: Path): Path
  {
    Join(root, INDEX_FILENAME)
  }

  /**
   What one load of the index file yields: the decoded file, or the decoded
   default text when the file is missing; `None` when the text does not
   decode.
   */
  function LoadFrom(files: map<Path, string>, indexPath: Path, c: Codec): (r: Option<map<string, string>>)
    ensures indexPath in files ==> r == c.decode(files[indexPath])
    ensures indexPath !in files ==> r == c.decode(DefaultIndex(c))
  {
    ReadFileOrDefaultIsLookup(files, indexPath, Some(DefaultIndex(c)));
    match ReadFileOrDefault(RawRead(files, indexPath), Some(DefaultIndex(c)))
    case Read(Some(text)) => c.decode(text)
    case _ => None
  }

  /** A missing index file loads as the empty mapping. */
  lemma MissingIndexIsEmpty(files: map<Path, string>, indexPath: Path, c: Codec)
    requires ValidCodec(c)
    requires indexPath !in files
    ensures LoadFrom(files, indexPath, c) == Some(map[])
  {
    assert c.decode(c.encode(map[])) == Some(map[]);
  }

  /** A mapping written to the index file is what the next load of that file yields. */
  lemma WrittenIndexReloads(files: map<Path, string>, indexPath: Path, c: Codec, m: map<string, string>)
    requires ValidCodec(c)
    ensures LoadFrom(files[indexPath := c.encode(m)], indexPath, c) == Some(m)
  {
    assert c.decode(c.encode(m)) == Some(m);
  }

  /**
   The mapping the next access to an index instance sees: its in-memory
   mapping once loaded, otherwise what a load of the file yields.
   */
  function View(files: map<Path, string>, indexPath: Path, c: Codec,
                loaded: Option<map<string, string>>): Option<map<string, string>>
  {
    if loaded.Some? then loaded else LoadFrom(files, indexPath, c)
  }

  class IndexFs {
    const root: Path
    const indexPath: Path
    const codec: Codec
    const disk: Disk
    /** `_index`: `None` until the first load succeeds. */
    var index: Option<map<string, string>>

    constructor (root: Path, codec: Codec, disk: Disk)
      ensures this.root == root && indexPath == IndexPath(root)
      ensures this.codec == codec && this.disk == disk
      ensures index == None
    {
      this.root := root;
      indexPath := IndexPath(root);
      this.codec := codec;
      this.disk := disk;
      index := None;
    }

    /** The mapping the next access sees. */
    function Mapping(): Option<map<string, string>>
      reads this, disk
    {
      View(disk.files, indexPath, codec, index)
    }

    /**
     `_loadIndex`: reads the file only while nothing is loaded; once loaded
     the in-memory mapping is kept and the file is not read again. Loading
     never writes to the disk; a text that does not decode leaves the index
     unloaded.
     */
    method LoadIndex()
      modifies this`index
      ensures old(index).Some? ==> index == old(index)
      ensures index == old(Mapping())
    {
      if index.None? {
        index := LoadFrom(disk.files, indexPath, codec);
      }
    }

    /** The `index` getter: the loaded mapping, including unwritten changes. */
    method GetIndex() returns (m: Option<map<string, string>>)
      modifies this`index
      ensures index == old(Mapping()) && m == index
    {
      LoadIndex();
      m := index;
    }

    /**
     `add`: maps `key` to `hash` in memory and keeps every other entry; the
     file is not written. `ok` is false when the index cannot be loaded.
     */
    method Add(key: string, hash: string) returns (ok: bool)
      modifies this`index
      ensures ok == old(Mapping()).Some?
      ensures ok ==> index == Some(old(Mapping()).value[key := hash])
      ensures !ok ==> index == None
    {
      LoadIndex();
      ok := index.Some?;
      if ok {
        index := Some(index.value[key := hash]);
      }
    }

    /**
     `remove`: deletes `key` from the in-memory mapping if present (a no-op
     otherwise) and keeps every other entry; the file is not written.
     */
    method Remove(key: string) returns (ok: bool)
      modifies this`index
      ensures ok == old(Mapping()).Some?
      ensures ok ==> index == Some(old(Mapping()).value - {key})
      ensures !ok ==> index == None
    {
      LoadIndex();
      ok := index.Some?;
      if ok {
        index := Some(index.value - {key});
      }
    }

    /**
     `add` of a key the mapping lacks, then `remove` of it: the in-memory
     mapping is the one the next access would have seen before, and the
     disk is untouched.
     */
    method AddThenRemove(key: string, hash: string) returns (ok: bool)
      requires Mapping().Some? ==> key !in Mapping().value
      modifies this`index
      ensures ok == old(Mapping()).Some?
      ensures index == old(Mapping())
    {
      ghost var before := Mapping();
      ok := Add(key, hash);
      if ok {
        var removed := Remove(key);
        assert index.value == before.value[key := hash] - {key} == before.value;
      }
    }

    /**
     `write`: replaces the index file with the encoding of the current
     mapping and touches no other file.
     */
    method Write() returns (ok: bool)
      modifies this`index, disk
      ensures index == old(Mapping()) && ok == index.Some?
      ensures ok ==> disk.files == old(disk.files)[indexPath := codec.encode(index.value)]
      ensures !ok ==> disk.files == old(disk.files)
    {
      LoadIndex();
      ok := index.Some?;
      if ok {
        disk.WriteFile(indexPath, codec.encode(index.value));
      }
    }
  }
}
