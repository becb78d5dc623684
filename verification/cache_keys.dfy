/**
 * The cache keys of `FileManager._get_cache_key` and
 * `ThumbnailManager._get_cache_key`: colon-separated fields behind the
 * `easy_thumbnails` namespace and the package version.
 */
module CacheKeys {
  import opened Records
  import Decimal

  predicate ColonFree(s: string) {
    forall i :: 0 <= i < |s| ==> s[i] != ':'
  }

  /** `easy_thumbnails:{version}:FileManager:{storage_hash}:{name}` */
  function SourceKey(version: string, storageHash: string, name: string): string {
    "easy_thumbnails:" + version + ":FileManager:" + storageHash + ":" + name
  }

  /** `easy_thumbnails:{version}:ThumbnailManager:{storage_hash}:{name}:{source.pk}` */
  function ThumbnailKey(version: string, storageHash: string, name: string, sourcePk: nat): string {
    "easy_thumbnails:" + version + ":ThumbnailManager:" + storageHash + ":" + name + ":" + Decimal.ToDecimal(sourcePk)
  }

  /** The key the manager owning the criteria computes. */
  function CacheKey(version: string, c: Criteria): string {
    match c
    case SourceCriteria(h, n) => SourceKey(version, h, n)
    case ThumbnailCriteria(h, n, pk) => ThumbnailKey(version, h, n, pk)
  }

  /** Every key starts with the namespace and the version. */
  lemma KeyStartsWithVersion(version: string, c: Criteria)
    ensures "easy_thumbnails:" + version + ":" <= CacheKey(version, c)
  {
    var p := "easy_thumbnails:" + version + ":";
    var k := CacheKey(version, c);
    assert k[..|p|] == p;
  }

  /** For one version, hash and name, the source key and the thumbnail key differ. */
  lemma SourceAndThumbnailKeysDiffer(version: string, storageHash: string, name: string, sourcePk: nat)
    ensures SourceKey(version, storageHash, name) != ThumbnailKey(version, storageHash, name, sourcePk)
  {
    var i := |"easy_thumbnails:" + version + ":"|;
    assert SourceKey(version, storageHash, name)[i] == 'F';
    assert ThumbnailKey(version, storageHash, name, sourcePk)[i] == 'T';
  }

  /** A colon-free head is recovered from `head + ":" + rest`. */
  lemma SplitAtFirstColon(a: string, b: string, a': string, b': string)
    requires ColonFree(a) && ColonFree(a')
    requires a + ":" + b == a' + ":" + b'
    ensures a == a' && b == b'
  {
    var s := a + ":" + b;
    var s' := a' + ":" + b';
    var i := if |a| <= |a'| then |a| else |a'|;
    assert s[i] == s'[i];
    assert |a| == |a'|;
    assert a == s[..|a|] && a' == s'[..|a'|];
    assert b == s[|a| + 1..] && b' == s'[|a'| + 1..];
  }

  /** A colon-free tail is recovered from `init + ":" + tail`. */
  lemma SplitAtLastColon(a: string, b: string, a': string, b': string)
    requires ColonFree(b) && ColonFree(b')
    requires a + ":" + b == a' + ":" + b'
    ensures a == a' && b == b'
  {
    var s := a + ":" + b;
    var s' := a' + ":" + b';
    var i := if |b| <= |b'| then |s| - |b| - 1 else |s| - |b'| - 1;
    assert s[i] == s'[i];
    assert |a| == |a'|;
    assert a == s[..|a|] && a' == s'[..|a'|];
    assert b == s[|a| + 1..] && b' == s'[|a'| + 1..];
  }

  /** A numeral holds no colon. */
  lemma DecimalColonFree(n: nat)
    ensures ColonFree(Decimal.ToDecimal(n))
  {
    var s := Decimal.ToDecimal(n);
    forall i | 0 <= i < |s|
      ensures s[i] != ':'
    {
      assert Decimal.IsDigit(s[i]);
    }
  }

  /** The source key as nested `head + ":" + rest` fields. */
  lemma SourceKeyFields(version: string, h: string, n: string)
    ensures SourceKey(version, h, n) == "easy_thumbnails" + ":" + (version + ":" + ("FileManager" + ":" + (h + ":" + n)))
  {
  }

  /** The thumbnail key as nested `head + ":" + rest` fields. */
  lemma ThumbnailKeyFields(version: string, h: string, n: string, pk: nat)
    ensures ThumbnailKey(version, h, n, pk)
      == "easy_thumbnails" + ":" + (version + ":" + ("ThumbnailManager" + ":" + (h + ":" + (n + ":" + Decimal.ToDecimal(pk)))))
  {
  }

  /**
   * With colon-free versions and storage hashes, a key determines the
   * version and the lookup fields it was built from: no two lookups, of
   * either kind and under any versions, share a cache entry.
   */
  lemma CacheKeyInjective(v: string, c: Criteria, v': string, c': Criteria)
    requires ColonFree(v) && ColonFree(v')
    requires ColonFree(c.storageHash) && ColonFree(c'.storageHash)
    requires CacheKey(v, c) == CacheKey(v', c')
    ensures v == v' && c == c'
  {
    var tag := if c.SourceCriteria? then "FileManager" else "ThumbnailManager";
    var tag' := if c'.SourceCriteria? then "FileManager" else "ThumbnailManager";
    var last := if c.SourceCriteria? then c.name else c.name + ":" + Decimal.ToDecimal(c.sourcePk);
    var last' := if c'.SourceCriteria? then c'.name else c'.name + ":" + Decimal.ToDecimal(c'.sourcePk);
    var rest := tag + ":" + (c.storageHash + ":" + last);
    var rest' := tag' + ":" + (c'.storageHash + ":" + last');
    assert CacheKey(v, c) == "easy_thumbnails" + ":" + (v + ":" + rest) by {
      if c.SourceCriteria? { SourceKeyFields(v, c.storageHash, c.name); }
      else { ThumbnailKeyFields(v, c.storageHash, c.name, c.sourcePk); }
    }
    assert CacheKey(v', c') == "easy_thumbnails" + ":" + (v' + ":" + rest') by {
      if c'.SourceCriteria? { SourceKeyFields(v', c'.storageHash, c'.name); }
      else { ThumbnailKeyFields(v', c'.storageHash, c'.name, c'.sourcePk); }
    }
    SplitAtFirstColon("easy_thumbnails", v + ":" + rest, "easy_thumbnails", v' + ":" + rest');
    SplitAtFirstColon(v, rest, v', rest');
    SplitAtFirstColon(tag, c.storageHash + ":" + last, tag', c'.storageHash + ":" + last');
    SplitAtFirstColon(c.storageHash, last, c'.storageHash, last');
    if c.ThumbnailCriteria? {
      DecimalColonFree(c.sourcePk);
      DecimalColonFree(c'.sourcePk);
      SplitAtLastColon(c.name, Decimal.ToDecimal(c.sourcePk), c'.name, Decimal.ToDecimal(c'.sourcePk));
      Decimal.ToDecimalInjective(c.sourcePk, c'.sourcePk);
    }
  }

  /** The fields of a key after the namespace and the version. */
  function KeyTail(c: Criteria): string {
    match c
    case SourceCriteria(h, n) => "FileManager" + ":" + (h + ":" + n)
    case ThumbnailCriteria(h, n, pk) => "ThumbnailManager" + ":" + (h + ":" + (n + ":" + Decimal.ToDecimal(pk)))
  }

  /** Every key is the namespace, the version and the tail, colon-separated. */
  lemma KeySplitsAfterVersion(v: string, c: Criteria)
    ensures CacheKey(v, c) == "easy_thumbnails" + ":" + (v + ":" + KeyTail(c))
  {
    match c
    case SourceCriteria(h, n) => SourceKeyFields(v, h, n);
    case ThumbnailCriteria(h, n, pk) => ThumbnailKeyFields(v, h, n, pk);
  }

  /** Entries written under one version are never read under another. */
  lemma VersionSeparatesKeys(v: string, v': string, c: Criteria, c': Criteria)
    requires ColonFree(v) && ColonFree(v') && v != v'
    ensures CacheKey(v, c) != CacheKey(v', c')
  {
    KeySplitsAfterVersion(v, c);
    KeySplitsAfterVersion(v', c');
    if CacheKey(v, c) == CacheKey(v', c') {
      SplitAtFirstColon("easy_thumbnails", v + ":" + KeyTail(c), "easy_thumbnails", v' + ":" + KeyTail(c'));
      SplitAtFirstColon(v, KeyTail(c), v', KeyTail(c'));
    }
  }

  /**
   * Why the storage hash must be colon-free: two source lookups whose hash
   * and name split one string differently share a key.
   */
  lemma ColonInHashCollides(v: string)
    ensures SourceCriteria("a:b", "c") != SourceCriteria("a", "b:c")
    ensures CacheKey(v, SourceCriteria("a:b", "c")) == CacheKey(v, SourceCriteria("a", "b:c"))
  {
    SourceKeyFields(v, "a:b", "c");
    SourceKeyFields(v, "a", "b:c");
    assert "a:b" + ":" + "c" == "a" + ":" + "b:c";
  }
}
