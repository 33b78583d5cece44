# A verified model of a small hash-addressed key-value store

This project models, in Dafny, the storage engine of a command-line key-value
store and the thin shell in front of it:

- the **content store** (`CacheFs`), which keeps each value in a file named by
  the hash of its key under `<root>/cache`;
- the **key index** (`IndexFs`), a key → hash mapping kept in `<root>/index`,
  loaded lazily at most once per instance, changed in memory by `add` and
  `remove`, and written back only by `write`;
- the **store facade** (`Store`), whose `add`, `get`, `list` and `remove`
  compose the two;
- the `readFileOrDefault` helper, and the CLI's `parseArgs` and `run`.

The file system is a `Disk` object holding a map from path to text. `CacheFs`
and `IndexFs` share it, as the program's `CacheFs` and `IndexFs` share the machine's file system.
Each facade operation is specified by a pure function. The function maps the
state to the report and the new state. The state is the disk together with the
index instance's in-memory mapping. The `Store` methods are proved to follow
these functions. The properties are proved as lemmas about the functions. The
console messages become values of a `Report` datatype.

Files:

- `files.dfy`: `Option`, the disk, `readFileOrDefault`, and removing keys one by one.
- `cache.dfy`: `CacheFs`.
- `index.dfy`: `IndexFs`.
- `engine.dfy`: `Store` and the specification functions.
- `properties.dfy`: the facade's properties.
- `cli.dfy`: `parseArgs` and `run`.
- `findings.dfy`: `remove` as written, whose parallel index loads can lose removals (see Findings).

The MD5 hash and the JSON encoding are parameters of a store. The hash is any
function whose results are 32 lowercase hex digits. The encoding is any
`Codec` whose decoder gives back what its encoder produced. A 32-digit hash
cannot be injective, and the code does not handle collisions, so lemmas about
keys that a removal must keep require only that those keys' hashes differ from
the removed keys' hashes.

Two details of `get` follow the code:

- `get` takes one key; later arguments are ignored (src/store.js:66).
- `get` reads the value file directly and never consults the index.

## Model

| member | source | states |
|---|---|---|
| `Files.ReadFileOrDefault` | src/util/fs.js:10-20 | contents on success; `defaultValue` (by default `null`) exactly on ENOENT; every other error code is propagated |
| `Files.ReadFileOrDefaultIsLookup` | src/util/fs.js:10-17 | on the disk, the helper is a map lookup with a default and never fails |
| `Files.MissingPathReadsNull` | src/util/fs.js:10-17 | a missing path with the default argument reads as `null` |
| `Files.WithoutRemovesExactly` | src/store.js:101-105 | removing a list of keys one at a time removes exactly those keys and keeps every other entry unchanged |
| `Cache.PathToCacheFile` | src/cacheFs.js:30-32 | the value file of a hash is `<cacheDir>/<hash>`: the directory followed by the hash |
| `Cache.PathToCacheFileInjective` | src/cacheFs.js:30-32 | two hashes map to the same path exactly when they are equal |
| `Cache.CacheFs.constructor` | src/cacheFs.js:19-21 | the cache directory is `<root>/cache` |
| `Cache.CacheFs.DeleteCacheFile` | src/cacheFs.js:34-43 | afterwards the file is absent and no other file changed; a missing file is a silent no-op |
| `Cache.CacheFs.WriteCacheFile` | src/cacheFs.js:53-60 | the file now holds exactly the contents, overwriting what it held; no other file changes |
| `Cache.CacheFs.DeleteTwice` | src/cacheFs.js:34-43 | deleting a value file twice leaves the disk as deleting it once: the second ENOENT is swallowed |
| `Cache.CacheFs.ReadCacheFile` | src/cacheFs.js:62-65 | the file's contents, or `null` when missing; the disk is unchanged |
| `Index.LoadFrom` | src/indexFs.js:49-56 | a load decodes the index file, or decodes `DEFAULT_INDEX` when the file is missing |
| `Index.MissingIndexIsEmpty` | src/indexFs.js:52-53 | a missing index file loads as the empty mapping |
| `Index.WrittenIndexReloads` | src/indexFs.js:36-43 | the mapping written to the index file is what the next load of it yields |
| `Index.IndexFs.constructor` | src/indexFs.js:21-24 | the index file is `<root>/index`; nothing is loaded yet |
| `Index.IndexFs.LoadIndex` | src/indexFs.js:49-56 | the file is read only while nothing is loaded, then the in-memory mapping is kept; loading never writes |
| `Index.IndexFs.GetIndex` | src/indexFs.js:45-47 | yields the in-memory mapping, including changes not yet written |
| `Index.IndexFs.Add` | src/indexFs.js:26-29 | maps the key to the hash in memory, keeps all other entries, writes nothing |
| `Index.IndexFs.Remove` | src/indexFs.js:31-34 | removes the key if present (no-op otherwise), keeps all other entries, writes nothing |
| `Index.IndexFs.AddThenRemove` | src/indexFs.js:26-34 | `add` of an absent key then `remove` of it leaves the in-memory mapping as the next access would have seen it before, and writes nothing |
| `Index.IndexFs.Write` | src/indexFs.js:36-43 | replaces the index file with the encoded mapping and touches no other file |
| `Engine.JoinValues` | src/store.js:55 | `values.join(" ")`: empty for no values; the first value opens the blob, followed by a space when more values follow |
| `Engine.HasKey` | src/store.js:45 | the truthiness of `index[key]`: false for an absent key, and for a present key true exactly when its hash is non-empty |
| `Engine.KeyResult` | src/store.js:111-119 | `writeKeyResult`: "does not exist" for the key exactly when the file data is `null`, otherwise the file's contents |
| `Engine.SplitJoinValues` | src/store.js:55 | the blob `values.join(" ")` splits back into the values when no value contains a space |
| `Engine.CachePathIsNotIndexPath` | src/store.js:54-57 | a value file is never the index file, so the two writes of `add` are independent |
| `Engine.NewStore` | src/store.js:17-20 | construction fails exactly when `cacheDir` is missing or empty |
| `Engine.Store.constructor` | src/store.js:17-23 | both components share the disk and the root; the index is not loaded |
| `Engine.Store.Add` | src/store.js:31-58 | follows `AddSpec`: usage error, already-exists without writes, or value file plus index entry written |
| `Engine.Store.Get` | src/store.js:66-76 | follows `GetSpec` and changes nothing |
| `Engine.Store.List` | src/store.js:81-88 | follows `ListSpec`: the keys of the loaded index |
| `Engine.Store.Remove` | src/store.js:96-108 | follows `RemoveSpec`: each value file deleted and each key removed, then one index write |
| `StoreProperties.AddMissingInput` | src/store.js:32-42 | `add` with a falsy key or no values is a usage error and changes nothing |
| `StoreProperties.AddExistingKey` | src/store.js:43-50 | `add` of an indexed key reports it exists, writes no file, and leaves the index as it was |
| `StoreProperties.AddFreshKey` | src/store.js:52-57 | `key → hash(key)` is added and other entries are kept; the value file holds the joined values; only it and the index file change; the index file decodes to the new mapping |
| `StoreProperties.AddThenGet` | src/store.js:54-75 | round trip: after a successful `add(k, v1..vn)`, `get(k)` yields `v1 + " " + ... + " " + vn` |
| `StoreProperties.AddThenGetValues` | src/store.js:54-75 | for space-free values, splitting what `get` yields gives back the added values |
| `StoreProperties.AddTwice` | src/store.js:43-50 | a second `add` of the same key reports it exists, changes nothing, and the first value stays |
| `StoreProperties.GetOutcomes` | src/store.js:66-75 | usage error without a key; otherwise the value file's contents, or "does not exist" when it is missing |
| `StoreProperties.ListYieldsIndexKeys` | src/store.js:81-88 | `list` yields exactly the keys of the loaded index and writes nothing |
| `StoreProperties.EmptyStoreListsNothing` | src/store.js:81-88 | a store with no index file lists nothing |
| `StoreProperties.RemoveNoKeys` | src/store.js:97-100 | `remove` without keys is a usage error and changes nothing |
| `StoreProperties.RemovalKeepsIndexFile` | src/store.js:101-107 | deleting the value files of any keys leaves the index file, and so the index a load yields, as it was; the deletions and the index write of `remove` are therefore independent |
| `StoreProperties.RemoveEffects` | src/store.js:101-107 | no removed key stays indexed or keeps its value file; other entries are kept; other files are unchanged; every other key whose hash differs from the removed keys' hashes keeps its value file; with a round-tripping codec, the rewritten index file loads back as the new mapping, so a later process sees the removal |
| `StoreProperties.RemoveAbsentKey` | src/store.js:101-107 | removing a key the index lacks is silent and leaves the index as it was, in memory and, with a round-tripping codec, in the rewritten index file a later process loads |
| `StoreProperties.AddKeepsConsistent` | src/store.js:31-58 | `add` keeps the invariant that every indexed key has its value file |
| `StoreProperties.RemoveKeepsConsistent` | src/store.js:96-108 | `remove` keeps the same invariant when no kept key shares a hash with a removed key |
| `StoreProperties.AddTwoKeys` | src/store.js:31-58 | two adds on an empty store index both keys, and the second key's value is readable |
| `StoreProperties.AddAddRemoveList` | src/store.js:31-108 | after `add(a)`, `add(b)`, `remove(a)`: `list` is `{b}`, also in a new process; `get(a)` reports not found; `get(b)` yields b's value |
| `Cli.ParseArgs` | src/cli.js:39-47 | command is the third argument, arguments are the rest, nothing is lost; fewer than three gives none and `[]` |
| `Cli.ParseArgsRecovers` | src/cli.js:39-47 | any executable and script followed by a command and its arguments parse back to them |
| `Cli.ParseArgsDefault` | src/cli.js:39 | `parseArgs()` equals `parseArgs([])` |
| `Cli.Dispatch` | src/cli.js:11-36 | a falsy command is refused; one of the four names calls exactly that operation with the arguments in order; anything else is invalid |
| `Cli.DispatchByName` | src/cli.js:18-30 | each command name routes to its own operation only |
| `Cli.RoutingErrorsChangeNothing` | src/cli.js:12-17 | a missing or invalid command calls no store operation and changes nothing |
| `Cli.CommandLineRoundTrip` | src/cli.js:11-47 | `store add k v..` then `store get k` prints the joined values |
| `Cli.Run` | src/cli.js:11-37 | follows `RunSpec`: one routed store call with the arguments spread, or a routing error |
| `RemoveRace.RacedRemovals` | src/store.js:105 | the in-memory index after each removal's own load and delete: a subset of the parsed mapping that keeps every key not being removed |
| `RemoveRace.RemoveAsWritten` | src/store.js:96-108 | `remove` as written: the same report and the same value-file deletions as the intended removal, differing at most in the index; identical when the index was already loaded |
| `RemoveRace.RacedRemovalsKeepsLastOnly` | src/store.js:105 | when every `indexFs.remove` of an unloaded index makes its own load, each load replaces `_index` with a fresh parse, so only the last key's removal survives |
| `RemoveRace.RemoveAsWrittenAgrees` | src/store.js:96-108 | the code as written behaves as intended when the index was already loaded or a single key is removed |
| `RemoveRace.RemoveRaceKeepsKey` | src/indexFs.js:49-56 | on a new store, `remove(a, b)` as written leaves `a` indexed (and listed by a later process) while its value file is deleted; the intended behaviour removes both |

## Left out

- Real file I/O. Directory creation (`mkdir` with `recursive`) has no effect on the path → contents map and is not modelled.
- Path normalisation: `path.join` is modelled as `dir + "/" + name`, so a root with a trailing slash or `..` parts is not normalised.
- The disk raises only ENOENT. Write, unlink and read failures with other codes exist only in `Files.ReadFileOrDefault`, which handles any code. The engine's rethrow of such errors is therefore not exercised.
- MD5 is not modelled. The hash is a parameter whose results are 32 lowercase hex digits. Collisions are not handled by the code, and the model does not handle them either.
- JSON is abstracted as a `Codec`. Decoding to `None` stands for `JSON.parse` throwing, reported as `IndexUnreadable`. Text that parses to something other than a key → string object is treated the same way.
- `Promise.all` concurrency is modelled sequentially. The writes of one operation touch distinct paths, and `Engine.CachePathIsNotIndexPath` and `StoreProperties.RemovalKeepsIndexFile` prove that. The one in-memory race, in `remove`, is listed under Findings; `Engine.Store.Remove` models the intended behaviour, with a single index load. Crash and partial-write windows, and races between processes, are not modelled.
- Engine.Store.List: reports the keys as a set. `Object.keys` order and the one-line-per-key printing are not modelled.
- JavaScript object quirks are not modelled. `index[key]` is modelled as a plain map lookup, so prototype names such as `"constructor"` are not treated as present.
- Console text, including the list of valid commands in the CLI messages, is replaced by `Report` and `Outcome` values.
- The constants modules are not part of this model. Command names are the ones used on the command line: `add`, `get`, `list`, `remove`.

## Findings

| source | as written | input that shows it | evidently intended | confidence | as-written member | corrected member |
|---|---|---|---|---|---|---|
| src/store.js:105 | `remove` starts the index removal of every key at once and awaits them together; on an unloaded index each one runs its own `_loadIndex` (src/indexFs.js:49-56), which assigns a fresh parse of the index file to `_index`, so a later load discards the deletion an earlier removal made | a new store (the command line makes one per command) whose index holds `a` and `b`, then `store remove a b`: `a` stays in the written index and in `list`, but its value file is deleted | every given key is removed from the index | medium, not executed; it relies on each load being followed by its own deletion before the next load finishes, which is how Node.js schedules the file-read callbacks | `RemoveRace.RemoveRaceKeepsKey` | `StoreProperties.RemoveEffects` |
