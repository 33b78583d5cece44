/**
 `remove(...keys)` as written, on a store whose index is not loaded yet.

 `remove` starts the index removal of every key at once and awaits them
 together, so every removal starts before any finishes. Each one awaits
 `_loadIndex`, which finds `_index` unset and starts its own read of the
 index file; each finished read assigns a fresh
 parse of the file to `_index`, and the removal that started it then deletes
 its key from that object. This module fixes one schedule of that race:
 loads finish in argument order, each followed by its own removal before the
 next load finishes. Under it only the last key stays removed from the index.
 `Engine.RemoveSpec` is the intended behaviour (one load, every key removed),
 which the rest of the model uses.
 */
module RemoveRace {
  import opened Wrappers
  import opened Files
  import opened Index
  import opened Engine
  import StoreProperties

  /**
   The in-memory `_index` after the raced removals: for each key in turn, a
   fresh parse `parsed` is assigned and that key is deleted from it; the
   next key's load then replaces the result.
   */
  function RacedRemovals(parsed: map<string, string>, keys: seq<string>): (r: map<string, string>)
    requires keys != []
    ensures r.Keys <= parsed.Keys
    ensures forall k | k in parsed && k !in keys :: k in r && r[k] == parsed[k]
  {
    if |keys| == 1 then parsed - {keys[0]} else RacedRemovals(parsed, keys[1..])
  }

  /** Only the last key's removal survives the race. */
  lemma {:induction false} RacedRemovalsKeepsLastOnly(parsed: map<string, string>, keys: seq<string>)
    requires keys != []
    ensures RacedRemovals(parsed, keys) == parsed - {keys[|keys| - 1]}
  {
    if |keys| > 1 {
      RacedRemovalsKeepsLastOnly(parsed, keys[1..]);
      assert keys[1..][|keys| - 2] == keys[|keys| - 1];
    }
  }

  /** `remove(...keys)` as written: like `RemoveSpec`, but an unloaded index races. */
  function RemoveAsWritten(cfg: Config, s: State, keys: seq<string>): (w: (Report, State))
    ensures w.0 == RemoveSpec(cfg, s, keys).0
    ensures w.1.files - {IndexPath(cfg.root)} == RemoveSpec(cfg, s, keys).1.files - {IndexPath(cfg.root)}
    ensures s.index.Some? ==> w == RemoveSpec(cfg, s, keys)
  {
    if |keys| == 0 then (UsageError, s)
    else
      var files' := Without(s.files, CachePaths(cfg, keys));
      match Loaded(cfg, State(files', s.index))
      case None => (IndexUnreadable, State(files', s.index))
      case Some(m) =>
        var m' := if s.index.Some? then Without(m, keys) else RacedRemovals(m, keys);
        (Done, State(files'[IndexPath(cfg.root) := cfg.codec.encode(m')], Some(m')))
  }

  /**
   The race is harmless when the index was already loaded (as after an
   earlier operation on the same instance) or when one key is removed.
   */
  lemma RemoveAsWrittenAgrees(cfg: Config, s: State, keys: seq<string>)
    requires s.index.Some? || |keys| == 1
    ensures RemoveAsWritten(cfg, s, keys) == RemoveSpec(cfg, s, keys)
  {
    if |keys| == 1 && s.index.None? {
      var m := Loaded(cfg, State(Without(s.files, CachePaths(cfg, keys)), s.index));
      if m.Some? {
        RacedRemovalsKeepsLastOnly(m.value, keys);
        assert keys[..0] == [];
        assert Without(m.value, keys) == m.value - {keys[0]};
      }
    }
  }

  /**
   The input that shows it: a new store (the command line constructs one per
   command) whose index holds `a` and `b`, then `remove(a, b)`. Afterwards
   `a` is still indexed, and listed by a later process, although its value
   file is gone; the invariant that every indexed key has its value file is
   broken. The intended `RemoveSpec` removes both.
   */
  lemma RemoveRaceKeepsKey(cfg: Config, s: State, a: string, b: string)
    requires ValidConfig(cfg)
    requires a != b && s.index == None
    requires Loaded(cfg, s).Some? && a in Loaded(cfg, s).value
    ensures var s' := RemoveAsWritten(cfg, s, [a, b]).1;
      && s'.index.Some? && a in s'.index.value
      && CachePath(cfg, a) !in s'.files
      && !StoreProperties.Consistent(cfg, s')
      && a in ListSpec(cfg, State(s'.files, None)).0.keys
    ensures var s' := RemoveSpec(cfg, s, [a, b]).1;
      s'.index.Some? && a !in s'.index.value && b !in s'.index.value
  {
    var keys := [a, b];
    StoreProperties.RemovalKeepsIndexFile(cfg, s, keys);
    var m := Loaded(cfg, s).value;
    RacedRemovalsKeepsLastOnly(m, keys);
    var m' := m - {b};
    assert a in m';
    var files' := Without(s.files, CachePaths(cfg, keys));
    WithoutRemovesExactly(s.files, CachePaths(cfg, keys));
    assert CachePaths(cfg, keys)[0] == CachePath(cfg, a);
    CachePathIsNotIndexPath(cfg, a);
    WrittenIndexReloads(files', IndexPath(cfg.root), cfg.codec, m');
    StoreProperties.RemoveEffects(cfg, s, keys);
  }
}
