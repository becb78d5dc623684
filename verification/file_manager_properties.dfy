/**
 * What `get_file` promises, branch by branch: which of the cache, the
 * tables and the storage each path consults or writes, and what holds
 * afterwards.
 */
module FileManagerProperties {
  import opened Options
  import opened Records
  import opened CacheKeys
  import opened FileManager

  /**
   * A read returns nothing exactly when the cache (if on) and the table
   * both miss and the storage fallback is off or finds no file; nothing
   * is written then.
   */
  lemma ReadMissIff(cfg: Config, s: State, inStorage: set<string>, req: Request)
    requires !req.create
    ensures var c := req.criteria;
      var miss := !(cfg.caching && CacheKey(cfg.version, c) in s.cache)
        && c !in TableOf(s, c).rows
        && !(req.checkCacheMiss && c.name in inStorage);
      && (GetFile(cfg, s, inStorage, req).result.None? <==> miss)
      && (miss ==> GetFile(cfg, s, inStorage, req) == Resolution(s, None))
  {
  }

  /**
   * A cache hit returns the cached row, with `modified` bumped when a
   * different timestamp was requested; the table is then written only by
   * the update of the cached row's primary key, and the entry holds what
   * was returned.
   */
  lemma CacheHitServesCachedRecord(cfg: Config, s: State, inStorage: set<string>, req: Request)
    requires !req.create && cfg.caching
    requires CacheKey(cfg.version, req.criteria) in s.cache
    ensures var c := req.criteria;
      var key := CacheKey(cfg.version, c);
      var obj := s.cache[key];
      var um := req.updateModified;
      var bump := um.Some? && obj.modified != um.value;
      var out := GetFile(cfg, s, inStorage, req);
      && out.result == Some(if bump then obj.(modified := um.value) else obj)
      && TableOf(out.state, c) == (if bump then UpdateModified(TableOf(s, c), obj.pk, um.value) else TableOf(s, c))
      && key in out.state.cache && out.state.cache[key] == out.result.value
  {
  }

  /**
   * A cache hit makes no table lookup and no storage check: two states with
   * the same cache, whatever their tables and storages, give the same
   * result and the same cache.
   */
  lemma CacheHitIgnoresStore(cfg: Config, s: State, s': State, inStorage: set<string>, inStorage': set<string>, req: Request)
    requires !req.create && cfg.caching
    requires s.cache == s'.cache
    requires CacheKey(cfg.version, req.criteria) in s.cache
    ensures GetFile(cfg, s, inStorage, req).result == GetFile(cfg, s', inStorage', req).result
    ensures GetFile(cfg, s, inStorage, req).state.cache == GetFile(cfg, s', inStorage', req).state.cache
  {
  }

  /** With caching on, every row a read returns is afterwards the entry under its key. */
  lemma ReadPathCachesResult(cfg: Config, s: State, inStorage: set<string>, req: Request)
    requires !req.create && cfg.caching
    ensures var out := GetFile(cfg, s, inStorage, req);
      var key := CacheKey(cfg.version, req.criteria);
      out.result.Some? ==> key in out.state.cache && out.state.cache[key] == out.result.value
  {
  }

  /** The create path never reads the cache: its outcome does not depend on it. */
  lemma CreateIgnoresCache(cfg: Config, s: State, s': State, inStorage: set<string>, req: Request)
    requires req.create
    requires s.sources == s'.sources && s.thumbnails == s'.thumbnails
    ensures GetFile(cfg, s, inStorage, req).result == GetFile(cfg, s', inStorage, req).result
    ensures GetFile(cfg, s, inStorage, req).state.sources == GetFile(cfg, s', inStorage, req).state.sources
    ensures GetFile(cfg, s, inStorage, req).state.thumbnails == GetFile(cfg, s', inStorage, req).state.thumbnails
  {
  }

  /**
   * Creating an absent row inserts exactly that row, with a fresh primary
   * key and `modified` set to the requested timestamp or else the current
   * time, and leaves the cache alone.
   */
  lemma CreateInsertsWhenAbsent(cfg: Config, s: State, inStorage: set<string>, req: Request)
    requires req.create && Valid(s)
    requires req.criteria !in TableOf(s, req.criteria).rows
    ensures var c := req.criteria;
      var t := TableOf(s, c);
      var out := GetFile(cfg, s, inStorage, req);
      && out.result.Some?
      && out.result.value.criteria == c
      && out.result.value.modified == req.updateModified.GetOr(cfg.now)
      && (forall d :: d in t.rows ==> t.rows[d].pk != out.result.value.pk)
      && TableOf(out.state, c).rows == t.rows[c := out.result.value]
      && |TableOf(out.state, c).rows| == |t.rows| + 1
      && out.state.cache == s.cache
  {
  }

  /**
   * Creating a row that exists inserts nothing and returns that row; only
   * its `modified` may change.
   */
  lemma CreateNeverDuplicates(cfg: Config, s: State, inStorage: set<string>, req: Request)
    requires req.create && Valid(s)
    requires req.criteria in TableOf(s, req.criteria).rows
    ensures var c := req.criteria;
      var row := TableOf(s, c).rows[c];
      var out := GetFile(cfg, s, inStorage, req);
      var rows' := TableOf(out.state, c).rows;
      && rows'.Keys == TableOf(s, c).rows.Keys
      && |rows'| == |TableOf(s, c).rows|
      && out.result.Some? && out.result.value.pk == row.pk && out.result.value.criteria == c
      && (rows' == TableOf(s, c).rows || rows' == TableOf(s, c).rows[c := row.(modified := rows'[c].modified)])
  {
    var c := req.criteria;
    var row := TableOf(s, c).rows[c];
    var um := req.updateModified;
    if um.Some? && row.modified != um.value {
      UpdateModifiedTouchesOneRow(TableOf(s, c), c, um.value);
    }
  }

  /**
   * Reconciliation of a row the table holds: when a different timestamp is
   * requested for a row that was not just inserted, exactly that row's
   * `modified` changes and every other column and row stays; with caching
   * on, the returned row and its entry carry the new timestamp.
   */
  lemma ReconcileWritesOneRow(cfg: Config, s: State, c: Criteria, obj: FileRecord, m: int)
    requires Valid(s)
    requires c in TableOf(s, c).rows && TableOf(s, c).rows[c].pk == obj.pk
    requires obj.modified != m
    ensures var key := CacheKey(cfg.version, c);
      var out := Reconcile(cfg, s, c, key, obj, false, Some(m));
      var t := TableOf(s, c);
      && TableOf(out.state, c).rows == t.rows[c := t.rows[c].(modified := m)]
      && TableOf(out.state, c).nextPk == t.nextPk
      && (cfg.caching ==> out.result == Some(obj.(modified := m)) && out.state.cache == s.cache[key := obj.(modified := m)])
      && (!cfg.caching ==> out.result == Some(obj) && out.state.cache == s.cache)
  {
    UpdateModifiedTouchesOneRow(TableOf(s, c), c, m);
  }

  /**
   * Without a requested timestamp, with one equal to the row's, or for a
   * row just inserted, reconciliation writes nothing.
   */
  lemma ReconcileSkipsWrite(cfg: Config, s: State, c: Criteria, key: string, obj: FileRecord, created: bool, um: Option<int>)
    requires um.None? || created || obj.modified == um.value
    ensures Reconcile(cfg, s, c, key, obj, created, um) == Resolution(s, Some(obj))
  {
  }

  /**
   * A read that finds the row in the table (cache missed or off) caches it
   * and reconciles it: the table changes only in that row's `modified`.
   */
  lemma StoreHitReconciles(cfg: Config, s: State, inStorage: set<string>, req: Request, m: int)
    requires !req.create && Valid(s)
    requires !(cfg.caching && CacheKey(cfg.version, req.criteria) in s.cache)
    requires req.criteria in TableOf(s, req.criteria).rows
    requires req.updateModified == Some(m)
    ensures var c := req.criteria;
      var row := TableOf(s, c).rows[c];
      var out := GetFile(cfg, s, inStorage, req);
      && TableOf(out.state, c).rows == TableOf(s, c).rows[c := row.(modified := m)]
      && out.result == Some(if cfg.caching || row.modified == m then row.(modified := m) else row)
  {
    var c := req.criteria;
    var row := TableOf(s, c).rows[c];
    var key := CacheKey(cfg.version, c);
    if row.modified != m {
      ReconcileWritesOneRow(cfg, CacheSet(cfg, s, key, row), c, row, m);
    }
  }

  /**
   * The storage fallback: when both cache and table miss and the storage
   * has the file, one row is inserted with the current time as `modified`
   * (a requested timestamp is not applied to it) and it is cached.
   */
  lemma FallbackInsertsAndCaches(cfg: Config, s: State, inStorage: set<string>, req: Request)
    requires !req.create && Valid(s)
    requires !(cfg.caching && CacheKey(cfg.version, req.criteria) in s.cache)
    requires req.criteria !in TableOf(s, req.criteria).rows
    requires req.checkCacheMiss && req.criteria.name in inStorage
    ensures var c := req.criteria;
      var key := CacheKey(cfg.version, c);
      var out := GetFile(cfg, s, inStorage, req);
      && out.result.Some?
      && out.result.value.criteria == c
      && out.result.value.modified == cfg.now
      && TableOf(out.state, c).rows == TableOf(s, c).rows[c := out.result.value]
      && |TableOf(out.state, c).rows| == |TableOf(s, c).rows| + 1
      && (cfg.caching ==> out.state.cache == s.cache[key := out.result.value])
  {
  }

  /**
   * With caching on and no timestamp requested, a read that found a row
   * leaves it in the cache, so repeating the read returns the same row and
   * changes nothing.
   */
  lemma RepeatedReadServedFromCache(cfg: Config, s: State, inStorage: set<string>, req: Request)
    requires !req.create && cfg.caching && req.updateModified.None?
    requires GetFile(cfg, s, inStorage, req).result.Some?
    ensures var first := GetFile(cfg, s, inStorage, req);
      && CacheKey(cfg.version, req.criteria) in first.state.cache
      && GetFile(cfg, first.state, inStorage, req) == first
  {
    ReadPathCachesResult(cfg, s, inStorage, req);
  }

  /**
   * With caching off, reconciliation updates the table but returns the row
   * with its old `modified`: the caller sees a timestamp the table no
   * longer holds.
   */
  lemma CachingOffReturnsOldTimestamp(cfg: Config, s: State, inStorage: set<string>, req: Request, m: int)
    requires !cfg.caching && Valid(s)
    requires req.criteria in TableOf(s, req.criteria).rows
    requires req.updateModified == Some(m) && TableOf(s, req.criteria).rows[req.criteria].modified != m
    ensures var c := req.criteria;
      var out := GetFile(cfg, s, inStorage, req);
      && out.result == Some(TableOf(s, c).rows[c])
      && TableOf(out.state, c).rows[c].modified == m
      && out.result.value.modified != TableOf(out.state, c).rows[c].modified
  {
    var c := req.criteria;
    ReconcileWritesOneRow(cfg, s, c, TableOf(s, c).rows[c], m);
  }

  /**
   * The create path does write the cache when it reconciles an existing
   * row: the entry then holds the returned row.
   */
  lemma CreateReconcileWritesCache(cfg: Config, s: State, inStorage: set<string>, req: Request, m: int)
    requires req.create && cfg.caching && Valid(s)
    requires req.criteria in TableOf(s, req.criteria).rows
    requires req.updateModified == Some(m) && TableOf(s, req.criteria).rows[req.criteria].modified != m
    ensures var key := CacheKey(cfg.version, req.criteria);
      var out := GetFile(cfg, s, inStorage, req);
      key in out.state.cache && out.state.cache[key] == out.result.value
      && out.result.value.modified == m
  {
  }

  /**
   * A call leaves the cache entry of every other lookup, of either kind,
   * as it was (versions and storage hashes colon-free).
   */
  lemma OtherEntriesUntouched(cfg: Config, s: State, inStorage: set<string>, req: Request, d: Criteria)
    requires ColonFree(cfg.version)
    requires ColonFree(req.criteria.storageHash) && ColonFree(d.storageHash)
    requires d != req.criteria
    ensures var k := CacheKey(cfg.version, d);
      var out := GetFile(cfg, s, inStorage, req);
      (k in out.state.cache <==> k in s.cache) && (k in s.cache ==> out.state.cache[k] == s.cache[k])
  {
    var k := CacheKey(cfg.version, d);
    var key := CacheKey(cfg.version, req.criteria);
    if k == key {
      CacheKeyInjective(cfg.version, d, cfg.version, req.criteria);
    }
    var out := GetFile(cfg, s, inStorage, req);
    assert k in out.state.cache - {key} <==> k in s.cache - {key};
    if k in s.cache {
      assert (out.state.cache - {key})[k] == (s.cache - {key})[k];
    }
  }
}
