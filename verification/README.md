# easy-thumbnails record resolution, in Dafny

This project models how easy-thumbnails resolves the database row behind a
source image or a generated thumbnail (`easy_thumbnails/models.py`). The
core is `FileManager.get_file`, shared by the `Source` and `Thumbnail`
managers, and the cache keys of `FileManager._get_cache_key` and
`ThumbnailManager._get_cache_key`. The proofs cover which of the three
collaborators each path reads or writes, and what holds afterwards. The
collaborators are:

- the tables, one per model, each a map from the fields declared
  `unique_together` to the row, so uniqueness holds by construction;
- the query cache, a map from key string to row;
- the storage, the set of names `storage.exists` reports.

Layout:

- `options.dfy`: `Option`. It models `update_modified=None` and the bare
  `return` of a miss.
- `decimal.dfy`: the decimal numeral of a primary key, as the thumbnail
  key's f-string prints it, with a round-trip lemma.
- `records.dfy`: lookup criteria, rows and tables. Also `get_or_create`
  as an atomic insert-if-absent, and `filter(pk=…).update(modified=…)`.
- `cache_keys.dfy`: the two key formats, and proofs that keys never
  collide across kinds, lookups or versions.
- `file_manager.dfy`: `get_file` (split into its create path, its read
  path and the closing reconciliation) and `_delete_cache_key`.
- `file_manager_properties.dfy`: the branch-by-branch properties.
- `cache_coherence.dfy`: the write-through invariant (each cache entry is its
  lookup's table row) and its preservation by `get_file`.

Inputs the model takes as parameters:

- `Config.caching` stands for `THUMBNAIL_CACHE and THUMBNAIL_QUERYSET_CACHING`.
- `Config.version` is `get_version()`.
- `Config.now` is `timezone.now()`.
- The storage hash inside the criteria is `utils.get_storage_hash(storage)`.
- `inStorage` is the set of names `storage.exists` accepts.

Timestamps are integers. A datetime is always truthy in Python, so
`if update_modified:` is modelled as `updateModified.Some?`.

Behaviour of the code that is easy to misread:

- A row inserted by the `check_cache_miss` fallback is cached. The
  `cache.set` at lines 66-67 comes after the try/except.
- The create path does write the cache. Reconciliation (lines 69-75) runs
  after both paths, so refreshing an existing row's timestamp on create
  with caching on stores that row under its key.
- With caching off, reconciliation updates the table but returns the row
  with its old `modified`. The assignment at line 74 sits inside the
  caching branch.
- The fallback's `get_or_create` runs without `defaults`, which line 47
  removed, and reports `created`. So a requested `update_modified` is not
  applied to that row, which gets the current time.

## Model

| member | source | states |
|---|---|---|
| Records.GetOrCreate | easy_thumbnails/models.py:40-44 | insert-if-absent on the unique-together fields: `created` iff the row was absent; afterwards exactly one row under the criteria; an inserted row has a fresh primary key and the given `modified`; other rows unchanged; row count grows by one iff created; well-formedness kept |
| Records.UpdateModified | easy_thumbnails/models.py:71 | the partial update by primary key changes only the `modified` column of rows with that key; the key set and other rows stay |
| Records.UpdateModifiedTouchesOneRow | easy_thumbnails/models.py:69-71 | in a well-formed table (unique primary keys) the update changes exactly the one row holding that key |
| Records.UpdateModifiedAbsentPk | easy_thumbnails/models.py:71 | updating a primary key no row holds (a stale cached row) leaves the table as it was |
| Decimal.ToDecimal | easy_thumbnails/models.py:87 | the rendered source primary key is a non-empty string of digits without a leading zero, one digit long exactly for keys below 10 |
| Decimal.DecimalRoundTrip | easy_thumbnails/models.py:87 | reading the rendered primary key gives the key back |
| Decimal.ToDecimalInjective | easy_thumbnails/models.py:87 | distinct source primary keys render differently inside the thumbnail key |
| CacheKeys.KeyStartsWithVersion | easy_thumbnails/models.py:26-28 | every key, of either manager, begins with `easy_thumbnails:` and the version |
| CacheKeys.SourceAndThumbnailKeysDiffer | easy_thumbnails/models.py:85-87 | for the same version, storage hash and name, the source key and any thumbnail key differ |
| CacheKeys.CacheKeyInjective | easy_thumbnails/models.py:85-87 | with colon-free versions and storage hashes, equal keys come from the same version and the same lookup (same kind, hash, name and source) |
| CacheKeys.VersionSeparatesKeys | easy_thumbnails/models.py:26-28 | keys built under different colon-free versions never coincide, whatever the lookups, so entries of a previous version are never read |
| CacheKeys.ColonInHashCollides | easy_thumbnails/models.py:28 | two distinct source lookups whose hash contains a colon can share a key, so colon-free hashes are needed for injectivity |
| FileManager.DeleteCacheKey | easy_thumbnails/models.py:30-32 | removes exactly the entry at the lookup's key; every other entry keeps its value |
| FileManager.Reconcile | easy_thumbnails/models.py:69-77 | always returns the row it was given (same primary key and criteria); writes only the manager's own table, never adds or removes rows, writes the cache only at the key and only with caching on; validity kept |
| FileManager.CreateFile | easy_thumbnails/models.py:40-44 | the create path always returns a row and changes only the manager's table (adding at most the requested row) and the entry at the key |
| FileManager.ReadFile | easy_thumbnails/models.py:45-67 | the read path returns nothing only with the state untouched; otherwise it changes only the manager's table (adding at most the requested row) and the entry at the key |
| FileManager.GetFile | easy_thumbnails/models.py:34-77 | a miss changes nothing; create always yields a row; the other manager's table, every other cache entry and (with caching off) the whole cache are untouched; no row is removed and only the requested one may be added; validity kept |
| FileManagerProperties.ReadMissIff | easy_thumbnails/models.py:49-64 | a read returns nothing iff the cache (when on) and the table miss and the storage fallback is off or finds no file, and then the state is unchanged |
| FileManagerProperties.CacheHitServesCachedRecord | easy_thumbnails/models.py:50-52 | on a cache hit the cached row is returned, bumped to the requested timestamp if it differs; the table changes only by the update of that row's primary key; the entry holds the returned row |
| FileManagerProperties.CacheHitIgnoresStore | easy_thumbnails/models.py:50-52 | on a cache hit the result and the cache do not depend on the tables or the storage: no lookup is made |
| FileManagerProperties.ReadPathCachesResult | easy_thumbnails/models.py:66-75 | with caching on, whatever row a read returns is the cache entry under its key afterwards (cache hit, table hit, fallback, reconciliation) |
| FileManagerProperties.CreateIgnoresCache | easy_thumbnails/models.py:40-44 | the create path never reads the cache: states differing only in the cache give the same result and tables |
| FileManagerProperties.CreateInsertsWhenAbsent | easy_thumbnails/models.py:40-44 | creating an absent row inserts exactly one row under the criteria, with a fresh primary key and `modified` equal to `update_modified` or else now; the cache is untouched |
| FileManagerProperties.CreateNeverDuplicates | easy_thumbnails/models.py:44 | creating an existing row adds none, returns that row, and at most changes its `modified` |
| FileManagerProperties.ReconcileWritesOneRow | easy_thumbnails/models.py:69-75 | a differing timestamp on a row that was not just inserted changes exactly that row's `modified`; with caching on the returned row and its entry carry the new value, with caching off the old row is returned and the cache untouched |
| FileManagerProperties.ReconcileSkipsWrite | easy_thumbnails/models.py:69-70 | with no timestamp requested, an equal one, or a row just inserted, reconciliation writes nothing and returns the row |
| FileManagerProperties.StoreHitReconciles | easy_thumbnails/models.py:53-71 | a read that finds the row in the table leaves it with the requested `modified`, all else unchanged, and returns it bumped unless caching is off |
| FileManagerProperties.FallbackInsertsAndCaches | easy_thumbnails/models.py:58-67 | when cache and table miss and the storage has the file, exactly one row is inserted with `modified` = now (the requested timestamp is ignored) and, with caching on, cached |
| FileManagerProperties.RepeatedReadServedFromCache | easy_thumbnails/models.py:50-67 | with caching on and no timestamp requested, repeating a successful read hits the cache, returns the same row and changes nothing |
| FileManagerProperties.CachingOffReturnsOldTimestamp | easy_thumbnails/models.py:69-77 | with caching off, a reconciled row is returned with its old `modified` while the table holds the new one |
| FileManagerProperties.CreateReconcileWritesCache | easy_thumbnails/models.py:40-75 | with caching on, create on an existing row with a differing timestamp stores the bumped row in the cache under its key |
| FileManagerProperties.OtherEntriesUntouched | easy_thumbnails/models.py:26-87 | with colon-free version and hashes, a call leaves the cache entry of every other lookup, of either kind, as it was |
| CacheCoherence.ReconcileKeepsEntry | easy_thumbnails/models.py:69-75 | with caching on, reconciling the table's own row keeps its cache entry equal to the row, returns the row as the table holds it afterwards, and leaves every other row unchanged |
| CacheCoherence.GetFileKeepsOwnEntry | easy_thumbnails/models.py:40-75 | with caching on and a faithful entry for the lookup, on every path the entry stays equal to the table row, the returned row is the table's row afterwards, and no other row of the table changes |
| CacheCoherence.GetFileKeepsOtherEntry | easy_thumbnails/models.py:26-87 | with caching on and colon-free version and hashes, a faithful entry of any other lookup stays faithful after the call |
| CacheCoherence.GetFileKeepsCoherent | easy_thumbnails/models.py:50-75 | with caching on, a cache whose every entry is its lookup's table row stays so after the call, and the returned row (from a cache hit or not) is the table's row |

## Left out

- Cache acquisition at import time and its `ImproperlyConfigured` errors (lines 10-21): Django configuration. The cache is a plain map in the state.
- `DeleteCacheKey`: without `THUMBNAIL_CACHE` the module-level `cache` is undefined and the source raises `NameError`. The model always has a cache map.
- `_get_thumbnail_manager` and `select_related("dimensions")` (lines 79-80, 89-92): a query hint that does not change which row is returned.
- `ThumbnailDimensions`, `__str__`, `size` and cascade deletes (lines 106-107, 115-116, 124-135): ORM-enforced or trivial, and not touched by `get_file`.
- The signal wiring (lines 138-139): framework hooks into handlers that are not part of this model.
- Concurrency: `get_or_create` is one atomic insert-if-absent, so its race safety is assumed, not modelled.
- Store errors, such as a thumbnail whose source row does not exist (a foreign-key violation): the source row is identified by its primary key only, and database errors are not modelled.
- Extra keyword arguments and caller-supplied `defaults`: the criteria hold exactly the unique-together fields.
- `get_storage_hash`, `get_version`, `storage.exists` and `timezone.now`: their bodies are not part of this model. They are inputs. Injectivity of keys assumes the version and the hash contain no colon (the hash is a hex digest).
- FileManager.GetFile: its own contract does not promise that other rows of the requested table keep their values. A stale cached row's primary key would make the update at line 71 hit another row. That promise holds under a coherent cache (CacheCoherence.GetFileKeepsOwnEntry).
- Cache eviction by the backend: the cache map only changes through `get_file` and `_delete_cache_key`.
