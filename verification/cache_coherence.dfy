/**
 * The write-through invariant of the query cache: the entry under a
 * lookup's key, when there is one, is that lookup's row as the table holds
 * it. With caching on, `get_file` keeps the invariant, and what it returns
 * is then the table's row.
 */
module CacheCoherence {
  import opened Options
  import opened Records
  import opened CacheKeys
  import opened FileManager
  import FileManagerProperties

  /** The entry under `d`'s key, if any, is `d`'s row in its table. */
  ghost predicate EntryOk(version: string, s: State, d: Criteria) {
    CacheKey(version, d) in s.cache ==>
      d in TableOf(s, d).rows && s.cache[CacheKey(version, d)] == TableOf(s, d).rows[d]
  }

  /** Every lookup with a colon-free storage hash has a faithful entry or none. */
  ghost predicate Coherent(version: string, s: State) {
    forall d: Criteria :: ColonFree(d.storageHash) ==> EntryOk(version, s, d)
  }

  /**
   * Reconciling the table's own row, whose entry is faithful, keeps that
   * entry faithful, returns the table's row afterwards and leaves every
   * other row of the table as it was.
   */
  lemma ReconcileKeepsEntry(cfg: Config, s: State, c: Criteria, obj: FileRecord, created: bool, um: Option<int>)
    requires cfg.caching && Valid(s)
    requires c in TableOf(s, c).rows && TableOf(s, c).rows[c] == obj
    requires EntryOk(cfg.version, s, c)
    ensures var out := Reconcile(cfg, s, c, CacheKey(cfg.version, c), obj, created, um);
      && EntryOk(cfg.version, out.state, c)
      && c in TableOf(out.state, c).rows && out.result == Some(TableOf(out.state, c).rows[c])
      && (forall d :: d in TableOf(s, c).rows && d != c ==> TableOf(out.state, c).rows[d] == TableOf(s, c).rows[d])
  {
    if um.Some? && !created && obj.modified != um.value {
      UpdateModifiedTouchesOneRow(TableOf(s, c), c, um.value);
    }
  }

  /**
   * The requested lookup's own entry stays faithful, the row returned is
   * the table's row afterwards, and no other row of either table changes,
   * not even through the primary-key update of a cache hit.
   */
  lemma GetFileKeepsOwnEntry(cfg: Config, s: State, inStorage: set<string>, req: Request)
    requires cfg.caching && Valid(s)
    requires EntryOk(cfg.version, s, req.criteria)
    ensures var c := req.criteria;
      var out := GetFile(cfg, s, inStorage, req);
      && EntryOk(cfg.version, out.state, c)
      && (out.result.Some? ==> c in TableOf(out.state, c).rows && out.result.value == TableOf(out.state, c).rows[c])
      && (forall d :: d in TableOf(s, c).rows && d != c ==> TableOf(out.state, c).rows[d] == TableOf(s, c).rows[d])
  {
    var c := req.criteria;
    var key := CacheKey(cfg.version, c);
    var t := TableOf(s, c);
    if req.create {
      var f := GetOrCreate(t, c, req.updateModified.GetOr(cfg.now));
      ReconcileKeepsEntry(cfg, WithTable(s, c, f.table), c, f.record, f.created, req.updateModified);
    } else if key in s.cache {
      ReconcileKeepsEntry(cfg, s, c, s.cache[key], false, req.updateModified);
    } else if c in t.rows {
      ReconcileKeepsEntry(cfg, CacheSet(cfg, s, key, t.rows[c]), c, t.rows[c], false, req.updateModified);
    } else if req.checkCacheMiss && c.name in inStorage {
      var f := GetOrCreate(t, c, cfg.now);
      ReconcileKeepsEntry(cfg, CacheSet(cfg, WithTable(s, c, f.table), key, f.record), c, f.record, f.created, req.updateModified);
    }
  }

  /** The faithful entry of any other lookup stays faithful. */
  lemma GetFileKeepsOtherEntry(cfg: Config, s: State, inStorage: set<string>, req: Request, d: Criteria)
    requires cfg.caching && Valid(s)
    requires ColonFree(cfg.version) && ColonFree(req.criteria.storageHash) && ColonFree(d.storageHash)
    requires d != req.criteria
    requires EntryOk(cfg.version, s, req.criteria) && EntryOk(cfg.version, s, d)
    ensures EntryOk(cfg.version, GetFile(cfg, s, inStorage, req).state, d)
  {
    var out := GetFile(cfg, s, inStorage, req);
    var k := CacheKey(cfg.version, d);
    FileManagerProperties.OtherEntriesUntouched(cfg, s, inStorage, req, d);
    GetFileKeepsOwnEntry(cfg, s, inStorage, req);
    if k in out.state.cache {
      assert k in s.cache;
      assert TableOf(out.state, d).rows[d] == TableOf(s, d).rows[d];
    }
  }

  /**
   * With caching on, `get_file` keeps the cache coherent with the tables,
   * and the row it returns, from a cache hit or otherwise, is the row the
   * table holds afterwards.
   */
  lemma GetFileKeepsCoherent(cfg: Config, s: State, inStorage: set<string>, req: Request)
    requires cfg.caching && Valid(s) && Coherent(cfg.version, s)
    requires ColonFree(cfg.version) && ColonFree(req.criteria.storageHash)
    ensures var c := req.criteria;
      var out := GetFile(cfg, s, inStorage, req);
      && Coherent(cfg.version, out.state)
      && (out.result.Some? ==> c in TableOf(out.state, c).rows && out.result.value == TableOf(out.state, c).rows[c])
  {
    var c := req.criteria;
    var out := GetFile(cfg, s, inStorage, req);
    assert EntryOk(cfg.version, s, c);
    GetFileKeepsOwnEntry(cfg, s, inStorage, req);
    forall d: Criteria | ColonFree(d.storageHash)
      ensures EntryOk(cfg.version, out.state, d)
    {
      if d != c {
        assert EntryOk(cfg.version, s, d);
        GetFileKeepsOtherEntry(cfg, s, inStorage, req, d);
      }
    }
  }
}
