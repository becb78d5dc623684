/**
 * `FileManager.get_file` and `FileManager._delete_cache_key` over an
 * immutable state: the source table, the thumbnail table and the cache they
 * share. The manager is chosen by the kind of the lookup criteria, as
 * `Source.objects` and `Thumbnail.objects` are.
 */
module FileManager {
  import opened Options
  import opened Records
  import opened CacheKeys

  /**
   * `caching` stands for `THUMBNAIL_CACHE and THUMBNAIL_QUERYSET_CACHING`,
   * `version` for `get_version()`, `now` for `timezone.now()`.
   */
  datatype Config = Config(caching: bool, version: string, now: int)

  datatype State = State(sources: Table, thumbnails: Table, cache: map<string, FileRecord>)

  /**
   * The arguments of `get_file` once the storage hash is computed: the
   * criteria carry `storage_hash`, `name` and, for thumbnails, the source.
   */
  datatype Request = Request(criteria: Criteria, create: bool, updateModified: Option<int>, checkCacheMiss: bool)

  /** The state afterwards and the returned row (`None` for Python's bare `return`). */
  datatype Resolution = Resolution(state: State, result: Option<FileRecord>)

  /** The table of the manager that owns the criteria. */
  function TableOf(s: State, c: Criteria): Table {
    if c.ThumbnailCriteria? then s.thumbnails else s.sources
  }

  function WithTable(s: State, c: Criteria, t: Table): (s': State)
    ensures TableOf(s', c) == t && s'.cache == s.cache
    ensures c.ThumbnailCriteria? ==> s'.sources == s.sources
    ensures c.SourceCriteria? ==> s'.thumbnails == s.thumbnails
  {
    if c.ThumbnailCriteria? then s.(thumbnails := t) else s.(sources := t)
  }

  /** Both tables well formed, each holding rows of its own kind only. */
  ghost predicate Valid(s: State) {
    && WellFormed(s.sources)
    && WellFormed(s.thumbnails)
    && (forall c :: c in s.sources.rows ==> c.SourceCriteria?)
    && (forall c :: c in s.thumbnails.rows ==> c.ThumbnailCriteria?)
  }

  /** `cache.set(cache_key, obj, None)`, issued only when query caching is on. */
  function CacheSet(cfg: Config, s: State, key: string, r: FileRecord): (s': State)
    ensures s'.sources == s.sources && s'.thumbnails == s.thumbnails
    ensures s'.cache - {key} == s.cache - {key}
    ensures cfg.caching ==> key in s'.cache && s'.cache[key] == r
    ensures !cfg.caching ==> s' == s
  {
    if cfg.caching then s.(cache := s.cache[key := r]) else s
  }

  /** `_delete_cache_key`: drop the entry of one lookup from the cache. */
  function DeleteCacheKey(cache: map<string, FileRecord>, version: string, c: Criteria): (cache': map<string, FileRecord>)
    ensures CacheKey(version, c) !in cache'
    ensures cache'.Keys == cache.Keys - {CacheKey(version, c)}
    ensures forall k :: k in cache' ==> cache'[k] == cache[k]
  {
    cache - {CacheKey(version, c)}
  }

  /**
   * The tail of `get_file`: when a timestamp was requested, the row was not
   * just inserted and its `modified` differs, update that column by primary
   * key, and (with caching on) bump the returned row and refresh its entry.
   */
  function Reconcile(cfg: Config, s: State, c: Criteria, key: string, obj: FileRecord, created: bool, updateModified: Option<int>): (out: Resolution)
    ensures out.result.Some? && out.result.value.pk == obj.pk && out.result.value.criteria == obj.criteria
    ensures out.state.cache - {key} == s.cache - {key}
    ensures !cfg.caching ==> out.state.cache == s.cache
    ensures c.ThumbnailCriteria? ==> out.state.sources == s.sources
    ensures c.SourceCriteria? ==> out.state.thumbnails == s.thumbnails
    ensures TableOf(out.state, c).rows.Keys == TableOf(s, c).rows.Keys
    ensures Valid(s) ==> Valid(out.state)
  {
    if updateModified.Some? && !created && obj.modified != updateModified.value then
      var s1 := WithTable(s, c, UpdateModified(TableOf(s, c), obj.pk, updateModified.value));
      if cfg.caching then
        var bumped := obj.(modified := updateModified.value);
        Resolution(s1.(cache := s1.cache[key := bumped]), Some(bumped))
      else
        Resolution(s1, Some(obj))
    else
      Resolution(s, Some(obj))
  }

  /** The facts every step of `get_file` keeps: what may change, and where. */
  ghost predicate Confined(cfg: Config, s: State, c: Criteria, s': State) {
    var key := CacheKey(cfg.version, c);
    && (Valid(s) ==> Valid(s'))
    && s'.cache - {key} == s.cache - {key}
    && (!cfg.caching ==> s'.cache == s.cache)
    && (c.ThumbnailCriteria? ==> s'.sources == s.sources)
    && (c.SourceCriteria? ==> s'.thumbnails == s.thumbnails)
    && TableOf(s, c).rows.Keys <= TableOf(s', c).rows.Keys <= TableOf(s, c).rows.Keys + {c}
  }

  /** The create path: fetch or insert, never consulting the cache. */
  function CreateFile(cfg: Config, s: State, req: Request): (out: Resolution)
    requires req.create
    ensures out.result.Some?
    ensures Confined(cfg, s, req.criteria, out.state)
  {
    var c := req.criteria;
    var f := GetOrCreate(TableOf(s, c), c, req.updateModified.GetOr(cfg.now));
    Reconcile(cfg, WithTable(s, c, f.table), c, CacheKey(cfg.version, c), f.record, f.created, req.updateModified)
  }

  /** The read path: the cache, then the table, then (if asked) the storage. */
  function ReadFile(cfg: Config, s: State, inStorage: set<string>, req: Request): (out: Resolution)
    requires !req.create
    ensures out.result.None? ==> out.state == s
    ensures Confined(cfg, s, req.criteria, out.state)
  {
    var c := req.criteria;
    var key := CacheKey(cfg.version, c);
    if cfg.caching && key in s.cache then
      Reconcile(cfg, s, c, key, s.cache[key], false, req.updateModified)
    else if c in TableOf(s, c).rows then
      var obj := TableOf(s, c).rows[c];
      Reconcile(cfg, CacheSet(cfg, s, key, obj), c, key, obj, false, req.updateModified)
    else if req.checkCacheMiss && c.name in inStorage then
      var f := GetOrCreate(TableOf(s, c), c, cfg.now);
      Reconcile(cfg, CacheSet(cfg, WithTable(s, c, f.table), key, f.record), c, key, f.record, f.created, req.updateModified)
    else
      Resolution(s, None)
  }

  /**
   * `get_file`. `inStorage` is the set of names `storage.exists` reports.
   * The create path fetches or inserts without looking at the cache; the
   * read path tries the cache, then the table, then, when asked to, the
   * storage; a row found in the table or inserted by that fallback is
   * written to the cache; finally the timestamp is reconciled.
   */
  function GetFile(cfg: Config, s: State, inStorage: set<string>, req: Request): (out: Resolution)
    ensures out.result.None? ==> out.state == s
    ensures req.create ==> out.result.Some?
    ensures Confined(cfg, s, req.criteria, out.state)
  {
    if req.create then CreateFile(cfg, s, req) else ReadFile(cfg, s, inStorage, req)
  }
}
