/**
 Properties of the store facade's operations: what each promises on its own,
 how they compose (the add/get round trip, key uniqueness, removal), and the
 index/value-file invariant they keep.
 */
module StoreProperties {
  import opened Wrappers
  import opened Files
  import opened Cache
  import opened Index
  import opened Engine

  /**
   The hash of `k` differs from the hash of every key in `keys`: without it
   `remove(keys)` deletes `k`'s value file too, since the code does not
   handle hash collisions.
   */
  ghost predicate HashApart(cfg: Config, k: string, keys: seq<string>)
  {
    forall j | 0 <= j < |keys| :: cfg.hash(k) != cfg.hash(keys[j])
  }

  /**
   Every key of the index the next access sees has its value file on disk:
   the invariant, kept on a best-effort basis, between the two stores.
   */
  ghost predicate Consistent(cfg: Config, s: State)
  {
    match Loaded(cfg, s)
    case None => true
    case Some(m) => forall k | k in m :: CachePath(cfg, k) in s.files
  }

  /** Deleting value files never touches the index file. */
  lemma {:induction false} RemovalKeepsIndexFile(cfg: Config, s: State, keys: seq<string>)
    ensures Loaded(cfg, State(Without(s.files, CachePaths(cfg, keys)), s.index)) == Loaded(cfg, s)
  {
    var files' := Without(s.files, CachePaths(cfg, keys));
    WithoutRemovesExactly(s.files, CachePaths(cfg, keys));
    var ip := IndexPath(cfg.root);
    forall j | 0 <= j < |keys|
      ensures CachePaths(cfg, keys)[j] != ip
    {
      CachePathIsNotIndexPath(cfg, keys[j]);
    }
    assert ip in files' <==> ip in s.files;
    assert ip in files' ==> files'[ip] == s.files[ip];
  }

  /** `add` without a key or without values reports a usage error and changes nothing. */
  lemma AddMissingInput(cfg: Config, s: State, key: Option<string>, values: seq<string>)
    requires MissingKey(key) || values == []
    ensures AddSpec(cfg, s, key, values) == (UsageError, s)
  {
  }

  /**
   `add` of a key the index holds reports that it exists, writes no file,
   and leaves the index as loaded.
   */
  lemma AddExistingKey(cfg: Config, s: State, key: string, values: seq<string>)
    requires key != "" && values != []
    requires Loaded(cfg, s).Some? && HasKey(Loaded(cfg, s).value, key)
    ensures AddSpec(cfg, s, Some(key), values).0 == KeyExists(key)
    ensures AddSpec(cfg, s, Some(key), values).1.files == s.files
    ensures Loaded(cfg, AddSpec(cfg, s, Some(key), values).1) == Loaded(cfg, s)
  {
  }

  /**
   `add` of a fresh key maps it to its hash and keeps every other index
   entry; its value file holds the values joined by spaces; only that file
   and the index file change; and the index file now decodes to the new
   mapping, so a later process sees the key.
   */
  lemma AddFreshKey(cfg: Config, s: State, key: string, values: seq<string>)
    requires ValidConfig(cfg)
    requires key != "" && values != []
    requires Loaded(cfg, s).Some? && !HasKey(Loaded(cfg, s).value, key)
    ensures var (r, s') := AddSpec(cfg, s, Some(key), values);
      var m, m' := Loaded(cfg, s).value, Loaded(cfg, s').value;
      && r == Done
      && Loaded(cfg, s').Some?
      && key in m' && m'[key] == cfg.hash(key)
      && (forall k | k != key :: (k in m' <==> k in m) && (k in m ==> m'[k] == m[k]))
      && CachePath(cfg, key) in s'.files
      && s'.files[CachePath(cfg, key)] == JoinValues(values)
      && (forall p | p != CachePath(cfg, key) && p != IndexPath(cfg.root) ::
            (p in s'.files <==> p in s.files) && (p in s.files ==> s'.files[p] == s.files[p]))
      && LoadFrom(s'.files, IndexPath(cfg.root), cfg.codec) == Some(m')
  {
    var m := Loaded(cfg, s).value;
    var m' := m[key := cfg.hash(key)];
    var files' := s.files[CachePath(cfg, key) := JoinValues(values)];
    CachePathIsNotIndexPath(cfg, key);
    WrittenIndexReloads(files', IndexPath(cfg.root), cfg.codec, m');
  }

  /** Round trip: after a successful `add(k, v1..vn)`, `get(k)` yields `v1 + " " + ... + " " + vn`. */
  lemma AddThenGet(cfg: Config, s: State, key: string, values: seq<string>)
    requires AddSpec(cfg, s, Some(key), values).0 == Done
    ensures GetSpec(cfg, AddSpec(cfg, s, Some(key), values).1.files, Some(key)) == Found(JoinValues(values))
  {
    CachePathIsNotIndexPath(cfg, key);
  }

  /**
   For values without spaces the round trip is exact: splitting what `get`
   yields gives back the values that were added.
   */
  lemma AddThenGetValues(cfg: Config, s: State, key: string, values: seq<string>)
    requires AddSpec(cfg, s, Some(key), values).0 == Done
    requires forall j | 0 <= j < |values| :: ' ' !in values[j]
    ensures var r := GetSpec(cfg, AddSpec(cfg, s, Some(key), values).1.files, Some(key));
      r.Found? && SplitWords(r.value) == values
  {
    AddThenGet(cfg, s, key, values);
    SplitJoinValues(values);
  }

  /**
   Uniqueness: a second `add` of a key that was just added reports that it
   exists, changes nothing, and `get` still yields the first value.
   */
  lemma AddTwice(cfg: Config, s: State, key: string, first: seq<string>, second: seq<string>)
    requires ValidConfig(cfg)
    requires AddSpec(cfg, s, Some(key), first).0 == Done
    requires second != []
    ensures var s1 := AddSpec(cfg, s, Some(key), first).1;
      && AddSpec(cfg, s1, Some(key), second) == (KeyExists(key), s1)
      && GetSpec(cfg, s1.files, Some(key)) == Found(JoinValues(first))
  {
    assert IsDigest(cfg.hash(key));
    AddThenGet(cfg, s, key, first);
  }

  /**
   `get` without a key is a usage error; with one it yields the value file's
   contents, or "does not exist" when that file is missing.
   */
  lemma GetOutcomes(cfg: Config, files: map<Path, string>, key: Option<string>)
    ensures MissingKey(key) ==> GetSpec(cfg, files, key) == UsageError
    ensures !MissingKey(key) && CachePath(cfg, key.value) in files ==>
              GetSpec(cfg, files, key) == Found(files[CachePath(cfg, key.value)])
    ensures !MissingKey(key) && CachePath(cfg, key.value) !in files ==>
              GetSpec(cfg, files, key) == KeyNotFound(key.value)
  {
  }

  /** `list` yields exactly the keys of the loaded index and writes nothing. */
  lemma ListYieldsIndexKeys(cfg: Config, s: State)
    requires Loaded(cfg, s).Some?
    ensures var (r, s') := ListSpec(cfg, s);
      && r.Listed?
      && (forall k :: k in r.keys <==> k in Loaded(cfg, s).value)
      && s'.files == s.files && Loaded(cfg, s') == Loaded(cfg, s)
  {
  }

  /** A store with no index file lists nothing. */
  lemma EmptyStoreListsNothing(cfg: Config, s: State)
    requires ValidCodec(cfg.codec)
    requires s.index == None && IndexPath(cfg.root) !in s.files
    ensures ListSpec(cfg, s).0 == Listed({})
  {
    MissingIndexIsEmpty(s.files, IndexPath(cfg.root), cfg.codec);
  }

  /** `remove` without keys is a usage error and changes nothing. */
  lemma RemoveNoKeys(cfg: Config, s: State)
    ensures RemoveSpec(cfg, s, []) == (UsageError, s)
  {
  }

  /**
   `remove(keys)` leaves no key of `keys` in the index and no value file for
   any of them; every other index entry stays; every file other than those
   value files and the index file is as before; and every other key whose
   hash differs from those of `keys` keeps its value file.
   */
  lemma RemoveEffects(cfg: Config, s: State, keys: seq<string>)
    requires keys != [] && Loaded(cfg, s).Some?
    ensures var (r, s') := RemoveSpec(cfg, s, keys);
      var m := Loaded(cfg, s).value;
      && r == Done
      && Loaded(cfg, s').Some?
      && (forall k | k in keys :: k !in Loaded(cfg, s').value && CachePath(cfg, k) !in s'.files)
      && (forall k | k !in keys ::
            (k in Loaded(cfg, s').value <==> k in m) && (k in m ==> Loaded(cfg, s').value[k] == m[k]))
      && (forall p | p !in CachePaths(cfg, keys) && p != IndexPath(cfg.root) ::
            (p in s'.files <==> p in s.files) && (p in s.files ==> s'.files[p] == s.files[p]))
      && (forall k | k !in keys && HashApart(cfg, k, keys) ::
            CachePath(cfg, k) in s'.files <==> CachePath(cfg, k) in s.files)
      && (ValidCodec(cfg.codec) ==>
            LoadFrom(s'.files, IndexPath(cfg.root), cfg.codec) == Loaded(cfg, s'))
  {
    var paths := CachePaths(cfg, keys);
    var files' := Without(s.files, paths);
    RemovalKeepsIndexFile(cfg, s, keys);
    var m := Loaded(cfg, s).value;
    if ValidCodec(cfg.codec) {
      WrittenIndexReloads(files', IndexPath(cfg.root), cfg.codec, Without(m, keys));
    }
    WithoutRemovesExactly(s.files, paths);
    WithoutRemovesExactly(m, keys);
    forall k | k in keys
      ensures CachePath(cfg, k) in paths && CachePath(cfg, k) != IndexPath(cfg.root)
    {
      var j :| 0 <= j < |keys| && keys[j] == k;
      assert paths[j] == CachePath(cfg, k);
      CachePathIsNotIndexPath(cfg, k);
    }
    forall k | k !in keys && HashApart(cfg, k, keys)
      ensures CachePath(cfg, k) !in paths && CachePath(cfg, k) != IndexPath(cfg.root)
    {
      CachePathIsNotIndexPath(cfg, k);
      forall j | 0 <= j < |paths|
        ensures paths[j] != CachePath(cfg, k)
      {
        PathToCacheFileInjective(CacheDir(cfg.root), cfg.hash(keys[j]), cfg.hash(k));
      }
    }
  }

  /**
   Removing a key the index does not hold is silent and leaves the index as
   it was, both in memory and in the rewritten index file that a later
   process loads.
   */
  lemma RemoveAbsentKey(cfg: Config, s: State, key: string)
    requires Loaded(cfg, s).Some? && key !in Loaded(cfg, s).value
    ensures RemoveSpec(cfg, s, [key]).0 == Done
    ensures Loaded(cfg, RemoveSpec(cfg, s, [key]).1) == Loaded(cfg, s)
    ensures ValidCodec(cfg.codec) ==>
              LoadFrom(RemoveSpec(cfg, s, [key]).1.files, IndexPath(cfg.root), cfg.codec) == Loaded(cfg, s)
  {
    RemovalKeepsIndexFile(cfg, s, [key]);
    var m := Loaded(cfg, s).value;
    assert [key][..0] == [];
    assert Without(m, [key]) == m - {key} == m;
    if ValidCodec(cfg.codec) {
      WrittenIndexReloads(Without(s.files, CachePaths(cfg, [key])), IndexPath(cfg.root), cfg.codec, m);
    }
  }

  /** `add` keeps the invariant: every indexed key has its value file. */
  lemma AddKeepsConsistent(cfg: Config, s: State, key: Option<string>, values: seq<string>)
    requires Consistent(cfg, s)
    ensures Consistent(cfg, AddSpec(cfg, s, key, values).1)
  {
    if !MissingKey(key) && values != [] && Loaded(cfg, s).Some? {
      var k := key.value;
      var m := Loaded(cfg, s).value;
      var s' := AddSpec(cfg, s, key, values).1;
      if !HasKey(m, k) {
        CachePathIsNotIndexPath(cfg, k);
        forall j | j in s'.index.value
          ensures CachePath(cfg, j) in s'.files
        {
          if j != k {
            assert CachePath(cfg, j) in s.files;
          }
        }
      }
    }
  }

  /**
   `remove` keeps the invariant (every indexed key has its value file) when
   no key it keeps shares a hash with a removed key.
   */
  lemma RemoveKeepsConsistent(cfg: Config, s: State, keys: seq<string>)
    requires ValidConfig(cfg)
    requires Loaded(cfg, s).Some? ==>
               forall k | k in Loaded(cfg, s).value && k !in keys :: HashApart(cfg, k, keys)
    requires Consistent(cfg, s)
    ensures Consistent(cfg, RemoveSpec(cfg, s, keys).1)
  {
    if keys != [] {
      RemovalKeepsIndexFile(cfg, s, keys);
      if Loaded(cfg, s).Some? {
        var m := Loaded(cfg, s).value;
        var s' := RemoveSpec(cfg, s, keys).1;
        RemoveEffects(cfg, s, keys);
        forall k | k in s'.index.value
          ensures CachePath(cfg, k) in s'.files
        {
          assert k in m && CachePath(cfg, k) in s.files;
        }
      }
    }
  }

  /** The state after `add(a, ..)` and `add(b, ..)` on a store with no index yet. */
  lemma AddTwoKeys(cfg: Config, s: State, a: string, b: string, va: seq<string>, vb: seq<string>)
    requires ValidConfig(cfg)
    requires a != "" && b != "" && a != b
    requires va != [] && vb != []
    requires s.index == None && IndexPath(cfg.root) !in s.files
    ensures var s2 := AddSpec(cfg, AddSpec(cfg, s, Some(a), va).1, Some(b), vb).1;
      && Loaded(cfg, s2) == Some(map[a := cfg.hash(a), b := cfg.hash(b)])
      && GetSpec(cfg, s2.files, Some(b)) == Found(JoinValues(vb))
  {
    MissingIndexIsEmpty(s.files, IndexPath(cfg.root), cfg.codec);
    AddFreshKey(cfg, s, a, va);
    var s1 := AddSpec(cfg, s, Some(a), va).1;
    assert Loaded(cfg, s1) == Some(map[a := cfg.hash(a)]);
    AddFreshKey(cfg, s1, b, vb);
    AddThenGet(cfg, s1, b, vb);
  }

  /**
   A store with no index yet: after
   `add(a, ..)`, `add(b, ..)` and `remove(a)`, `list` yields exactly `{b}`,
   `get(a)` reports that `a` does not exist and `get(b)` yields b's value;
   a later process, starting from the files alone, also lists exactly `{b}`.
   */
  lemma AddAddRemoveList(cfg: Config, s: State, a: string, b: string, va: seq<string>, vb: seq<string>)
    requires ValidConfig(cfg)
    requires a != "" && b != "" && a != b && cfg.hash(a) != cfg.hash(b)
    requires va != [] && vb != []
    requires s.index == None && IndexPath(cfg.root) !in s.files
    ensures var s2 := AddSpec(cfg, AddSpec(cfg, s, Some(a), va).1, Some(b), vb).1;
      var (r3, s3) := RemoveSpec(cfg, s2, [a]);
      && r3 == Done
      && ListSpec(cfg, s3).0 == Listed({b})
      && ListSpec(cfg, State(s3.files, None)).0 == Listed({b})
      && GetSpec(cfg, s3.files, Some(a)) == KeyNotFound(a)
      && GetSpec(cfg, s3.files, Some(b)) == Found(JoinValues(vb))
  {
    AddTwoKeys(cfg, s, a, b, va, vb);
    var s2 := AddSpec(cfg, AddSpec(cfg, s, Some(a), va).1, Some(b), vb).1;
    RemoveEffects(cfg, s2, [a]);
    var s3 := RemoveSpec(cfg, s2, [a]).1;
    var m3 := Loaded(cfg, s3).value;
    assert m3.Keys == {b};
    assert ListSpec(cfg, s3).0 == Listed({b});
    var files2' := Without(s2.files, CachePaths(cfg, [a]));
    assert s3.files == files2'[IndexPath(cfg.root) := cfg.codec.encode(m3)];
    WrittenIndexReloads(files2', IndexPath(cfg.root), cfg.codec, m3);
    assert CachePaths(cfg, [a]) == [CachePath(cfg, a)];
    PathToCacheFileInjective(CacheDir(cfg.root), cfg.hash(a), cfg.hash(b));
    CachePathIsNotIndexPath(cfg, b);
  }
}
