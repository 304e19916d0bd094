/** The URL cache of the image service: which requested file keys are served
    from the cache, how the others are cut into batches for the server, how
    the answers are merged, cached for 22 hours and combined with the cached
    ones, and how stale entries are dropped. The server's answers are inputs. */
module ImageService {
  import opened Util

  /** A cached URL and the time it stops being valid. */
  datatype CacheEntry = CacheEntry(url: string, expires: int)

  /** How long a fetched URL stays cached: 22 hours, in milliseconds. */
  const CacheLifetimeMs: int := 22 * 60 * 60 * 1000

  /** Keys per request to the batch endpoint. */
  const BatchSize: nat := 10

  /** The cache key of a file key under the serialised request options. */
  function CacheKey(key: string, optionsTag: string): string {
    key + "_" + optionsTag
  }

  /** Under the same options, distinct file keys have distinct cache keys. */
  lemma CacheKeyInjective(a: string, b: string, optionsTag: string)
    requires CacheKey(a, optionsTag) == CacheKey(b, optionsTag)
    ensures a == b
  {
    var n := |"_" + optionsTag|;
    assert a == CacheKey(a, optionsTag)[..|a|];
    assert |a| == |b|;
    assert b == CacheKey(b, optionsTag)[..|b|];
  }

  /** The cache serves `key`: an entry exists, has not expired, and holds a
      non-empty URL. */
  predicate IsFresh(cache: map<string, CacheEntry>, key: string, optionsTag: string, now: int) {
    var ck := CacheKey(key, optionsTag);
    ck in cache && cache[ck].expires > now && cache[ck].url != ""
  }

  /** The cached results and the keys left to fetch after looking at `keys`
      in order; empty keys are skipped. */
  function Partition(cache: map<string, CacheEntry>, keys: seq<string>, optionsTag: string, now: int)
    : (r: (map<string, string>, seq<string>))
    decreases |keys|
  {
    if |keys| == 0 then (map[], [])
    else
      var n := |keys| - 1;
      var (cached, uncached) := Partition(cache, keys[..n], optionsTag, now);
      var key := keys[n];
      if key == "" then (cached, uncached)
      else if IsFresh(cache, key, optionsTag, now) then
        (cached[key := cache[CacheKey(key, optionsTag)].url], uncached)
      else (cached, uncached + [key])
  }

  /** A key is among the cached results exactly when it was requested, is not
      empty and is fresh, with the cached URL; a key is left to fetch exactly
      when it was requested, is not empty and is not fresh. */
  lemma {:induction false} PartitionExactly(cache: map<string, CacheEntry>, keys: seq<string>,
                                            optionsTag: string, now: int, key: string)
    ensures var (cached, uncached) := Partition(cache, keys, optionsTag, now);
      && (key in cached <==> key in keys && key != "" && IsFresh(cache, key, optionsTag, now))
      && (key in cached ==> cached[key] == cache[CacheKey(key, optionsTag)].url)
      && (key in uncached <==> key in keys && key != "" && !IsFresh(cache, key, optionsTag, now))
    decreases |keys|
  {
    if |keys| > 0 {
      var n := |keys| - 1;
      PartitionExactly(cache, keys[..n], optionsTag, now, key);
      assert keys == keys[..n] + [keys[n]];
    }
  }

  /** The `forEach` over the requested keys that fills the cached results and
      the list of keys to fetch. */
  method PartitionKeys(cache: map<string, CacheEntry>, keys: seq<string>, optionsTag: string, now: int)
    returns (cachedResults: map<string, string>, uncachedFileKeys: seq<string>)
    ensures (cachedResults, uncachedFileKeys) == Partition(cache, keys, optionsTag, now)
  {
    cachedResults := map[];
    uncachedFileKeys := [];
    var i := 0;
    while i < |keys|
      invariant 0 <= i <= |keys|
      invariant (cachedResults, uncachedFileKeys) == Partition(cache, keys[..i], optionsTag, now)
    {
      assert keys[..i + 1][..i] == keys[..i];
      var key := keys[i];
      if key != "" {
        var cacheKey := CacheKey(key, optionsTag);
        if cacheKey in cache && cache[cacheKey].expires > now && cache[cacheKey].url != "" {
          cachedResults := cachedResults[key := cache[cacheKey].url];
        } else {
          uncachedFileKeys := uncachedFileKeys + [key];
        }
      }
      i := i + 1;
    }
    assert keys[..i] == keys;
  }

  /** The batches written one after the other. */
  function Flatten(batches: seq<seq<string>>): seq<string>
    decreases |batches|
  {
    if |batches| == 0 then [] else Flatten(batches[..|batches| - 1]) + batches[|batches| - 1]
  }

  /** Non-empty batches number at most as many as the keys they hold. */
  lemma {:induction false} FlattenLength(batches: seq<seq<string>>)
    requires forall b :: 0 <= b < |batches| ==> |batches[b]| >= 1
    ensures |Flatten(batches)| >= |batches|
    decreases |batches|
  {
    if |batches| > 0 {
      FlattenLength(batches[..|batches| - 1]);
    }
  }

  /** `batches` is how the `for` loop cuts `keys`: in order, ten at a time,
      with a shorter last batch. */
  ghost predicate IsBatching(batches: seq<seq<string>>, keys: seq<string>) {
    && Flatten(batches) == keys
    && (forall b :: 0 <= b < |batches| ==> 1 <= |batches[b]| <= BatchSize)
    && (forall b :: 0 <= b < |batches| - 1 ==> |batches[b]| == BatchSize)
  }

  /** The merged answers to the batch requests. */
  function BatchUrls(batches: seq<seq<string>>, answer: seq<string> -> BatchAnswer): map<string, string> {
    MergeAll(seq(|batches|, b requires 0 <= b < |batches| => BatchResult(batches[b], answer(batches[b]))))
  }

  /** A single key is cut into the single batch holding it, and the merged
      answers are that batch's answer. */
  lemma SingleKeyUrls(batches: seq<seq<string>>, key: string, answer: seq<string> -> BatchAnswer)
    requires IsBatching(batches, [key])
    ensures batches == [[key]]
    ensures BatchUrls(batches, answer) == BatchResult([key], answer([key]))
  {
    FlattenLength(batches);
    assert |batches| == 1;
    assert batches[..0] == [];
    assert Flatten(batches[..0]) == [];
    assert batches[0] == Flatten(batches) == [key];
    assert batches == [batches[0]];
    var m := BatchResult([key], answer([key]));
    var results := seq(|batches|, b requires 0 <= b < |batches| => BatchResult(batches[b], answer(batches[b])));
    assert results == [m];
    assert results[..0] == [];
    assert MergeAll(results) == map[] + m;
    assert map[] + m == m;
  }

  /** The `for` loop that slices the keys to fetch into batches: every batch
      holds between one and ten keys, only the last may hold fewer than ten,
      and together they are the keys in order. */
  method MakeBatches(keys: seq<string>) returns (batches: seq<seq<string>>)
    ensures Flatten(batches) == keys
    ensures forall b :: 0 <= b < |batches| ==> 1 <= |batches[b]| <= BatchSize
    ensures forall b :: 0 <= b < |batches| - 1 ==> |batches[b]| == BatchSize
    ensures |batches| == (|keys| + BatchSize - 1) / BatchSize
  {
    batches := [];
    var i := 0;
    while i < |keys|
      invariant 0 <= i <= |keys|
      invariant i == |batches| * BatchSize || i == |keys|
      invariant |batches| == (i + BatchSize - 1) / BatchSize
      invariant Flatten(batches) == keys[..i]
      invariant forall b :: 0 <= b < |batches| ==> 1 <= |batches[b]| <= BatchSize
      invariant forall b :: 0 <= b < |batches| - 1 ==> |batches[b]| == BatchSize
      invariant i < |keys| ==> forall b :: 0 <= b < |batches| ==> |batches[b]| == BatchSize
    {
      var end := if i + BatchSize < |keys| then i + BatchSize else |keys|;
      var batch := keys[i..end];
      assert keys[..end] == keys[..i] + batch;
      batches := batches + [batch];
      assert batches[..|batches| - 1] == batches[..|batches| - 1];
      i := end;
    }
    assert keys[..i] == keys;
  }

  /** The answer to one batch request: `None` for a response that is not ok,
      otherwise the URL per key the server sent (possibly for fewer keys). */
  type BatchAnswer = Option<map<string, string>>

  /** What a batch contributes: its server URLs, or `''` for each of its keys
      when the request failed. */
  function BatchResult(batch: seq<string>, answer: BatchAnswer): (r: map<string, string>)
    ensures answer.Some? ==> r == answer.value
    ensures answer.None? ==> r.Keys == set k | k in batch
    ensures answer.None? ==> forall k :: k in r ==> r[k] == ""
  {
    if answer.Some? then answer.value else map k | k in batch :: ""
  }

  /** The `reduce` that merges the batch results, a later batch overriding an
      earlier one. */
  function MergeAll(results: seq<map<string, string>>): map<string, string>
    decreases |results|
  {
    if |results| == 0 then map[] else MergeAll(results[..|results| - 1]) + results[|results| - 1]
  }

  /** The merged results hold a key exactly when one of the batch results does,
      with the value of the last batch result that holds it. */
  lemma {:induction false} MergeAllExactly(results: seq<map<string, string>>, key: string)
    ensures key in MergeAll(results) <==> exists b :: 0 <= b < |results| && key in results[b]
    ensures key in MergeAll(results) ==>
      exists b :: 0 <= b < |results| && key in results[b] && MergeAll(results)[key] == results[b][key]
        && forall c :: b < c < |results| ==> key !in results[c]
    decreases |results|
  {
    if |results| > 0 {
      var n := |results| - 1;
      MergeAllExactly(results[..n], key);
      if exists b :: 0 <= b < |results| && key in results[b] {
        var b :| 0 <= b < |results| && key in results[b];
        if b < n {
          assert results[..n][b] == results[b];
        }
      }
      if key in MergeAll(results[..n]) && key !in results[n] {
        var b :| 0 <= b < n && key in results[..n][b] && MergeAll(results[..n])[key] == results[..n][b][key]
          && forall c :: b < c < n ==> key !in results[..n][c];
        assert results[b] == results[..n][b];
        forall c | b < c < |results|
          ensures key !in results[c]
        {
          if c < n {
            assert results[c] == results[..n][c];
          }
        }
      }
    }
  }

  /** `{ ...cachedResults, ...allUrls }`: fresh URLs override cached ones. */
  function Combined(cachedResults: map<string, string>, allUrls: map<string, string>): (r: map<string, string>)
    ensures r.Keys == cachedResults.Keys + allUrls.Keys
    ensures forall k :: k in allUrls ==> r[k] == allUrls[k]
    ensures forall k :: k in cachedResults && k !in allUrls ==> r[k] == cachedResults[k]
  {
    cachedResults + allUrls
  }

  /** The catch branch: the cached URLs and `''` for every key left to fetch. */
  function FallbackResult(cachedResults: map<string, string>, uncached: seq<string>): (r: map<string, string>)
    ensures r.Keys == cachedResults.Keys + set k | k in uncached
    ensures forall k :: k in uncached ==> r[k] == ""
    ensures forall k :: k in cachedResults && k !in uncached ==> r[k] == cachedResults[k]
  {
    cachedResults + map k | k in uncached :: ""
  }

  /** `ck` is the cache key of some fetched, non-empty URL among `keys`. */
  predicate Written(ck: string, allUrls: map<string, string>, keys: set<string>, optionsTag: string) {
    exists k :: k in keys && k in allUrls && allUrls[k] != "" && ck == CacheKey(k, optionsTag)
  }

  /** `cache` is `before` after caching every non-empty URL of `allUrls` until
      `expires`: each such key's entry is set, no other entry changes, and no
      entry is removed. */
  ghost predicate StoredAll(cache: map<string, CacheEntry>, before: map<string, CacheEntry>,
                      allUrls: map<string, string>, optionsTag: string, expires: int)
  {
    && (forall k :: k in allUrls && allUrls[k] != "" ==>
          CacheKey(k, optionsTag) in cache && cache[CacheKey(k, optionsTag)] == CacheEntry(allUrls[k], expires))
    && (forall ck :: ck in cache <==> ck in before || Written(ck, allUrls, allUrls.Keys, optionsTag))
    && (forall ck :: ck in before && !Written(ck, allUrls, allUrls.Keys, optionsTag) ==> cache[ck] == before[ck])
  }

  /** The image service: its URL cache. */
  class ImageService {
    var urlCache: map<string, CacheEntry>

    constructor ()
      ensures urlCache == map[]
    {
      urlCache := map[];
    }

    /** The `forEach` that caches every fetched non-empty URL until
        `expires`: each such key's cache entry is set, no other entry
        changes, and no entry is removed. */
    method StoreUrls(allUrls: map<string, string>, optionsTag: string, expires: int)
      modifies this
      ensures StoredAll(urlCache, old(urlCache), allUrls, optionsTag, expires)
    {
      var pending := allUrls.Keys;
      ghost var done: set<string> := {};
      while pending != {}
        invariant pending <= allUrls.Keys && done == allUrls.Keys - pending
        invariant forall k :: k in done && allUrls[k] != "" ==>
          CacheKey(k, optionsTag) in urlCache && urlCache[CacheKey(k, optionsTag)] == CacheEntry(allUrls[k], expires)
        invariant forall ck :: ck in urlCache <==> ck in old(urlCache) || Written(ck, allUrls, done, optionsTag)
        invariant forall ck :: ck in old(urlCache) && !Written(ck, allUrls, done, optionsTag) ==>
          urlCache[ck] == old(urlCache)[ck]
        decreases pending
      {
        var key :| key in pending;
        var url := allUrls[key];
        if url != "" {
          urlCache := urlCache[CacheKey(key, optionsTag) := CacheEntry(url, expires)];
          forall k | k in done && allUrls[k] != ""
            ensures CacheKey(k, optionsTag) != CacheKey(key, optionsTag)
          {
            if CacheKey(k, optionsTag) == CacheKey(key, optionsTag) {
              CacheKeyInjective(k, key, optionsTag);
            }
          }
        }
        pending := pending - {key};
        done := done + {key};
      }
    }

    /** `getOptimizedUrls(initData, fileKeys, options)` at time `now`, with the
        options serialised as `optionsTag`. `answer` gives the server's answer
        to each batch, and `thrown` says whether a request was rejected
        outright, which sends the call to its catch branch. */
    method GetOptimizedUrls(fileKeys: seq<string>, optionsTag: string, now: int,
                            answer: seq<string> -> BatchAnswer, thrown: bool)
      returns (result: map<string, string>)
      modifies this
      ensures fileKeys == [] ==> result == map[] && urlCache == old(urlCache)
      ensures fileKeys != [] ==>
        var (cached, uncached) := Partition(old(urlCache), fileKeys, optionsTag, now);
        && (uncached == [] ==> result == cached && urlCache == old(urlCache))
        && (uncached != [] && thrown ==> result == FallbackResult(cached, uncached) && urlCache == old(urlCache))
        && (uncached != [] && !thrown ==>
              exists batches: seq<seq<string>> ::
                && IsBatching(batches, uncached)
                && result == Combined(cached, BatchUrls(batches, answer))
                && StoredAll(urlCache, old(urlCache), BatchUrls(batches, answer), optionsTag, now + CacheLifetimeMs))
    {
      if |fileKeys| == 0 {
        return map[];
      }
      var cachedResults, uncachedFileKeys := PartitionKeys(urlCache, fileKeys, optionsTag, now);
      if |uncachedFileKeys| == 0 {
        return cachedResults;
      }
      if thrown {
        return FallbackResult(cachedResults, uncachedFileKeys);
      }
      var batches := MakeBatches(uncachedFileKeys);
      var allUrls := BatchUrls(batches, answer);
      StoreUrls(allUrls, optionsTag, now + CacheLifetimeMs);
      result := Combined(cachedResults, allUrls);
    }

    /** `getOptimizedUrl`: `''` for an empty key without touching the cache,
        otherwise the batch call's URL for the key or `''`. */
    method GetOptimizedUrl(fileKey: string, optionsTag: string, now: int,
                           answer: seq<string> -> BatchAnswer, thrown: bool)
      returns (url: string)
      modifies this
      ensures fileKey == "" ==> url == "" && urlCache == old(urlCache)
      ensures fileKey != "" && IsFresh(old(urlCache), fileKey, optionsTag, now) ==>
        url == old(urlCache)[CacheKey(fileKey, optionsTag)].url && urlCache == old(urlCache)
      ensures fileKey != "" && !IsFresh(old(urlCache), fileKey, optionsTag, now) && thrown ==>
        url == "" && urlCache == old(urlCache)
      ensures fileKey != "" && !IsFresh(old(urlCache), fileKey, optionsTag, now) && !thrown ==>
        var m := BatchResult([fileKey], answer([fileKey]));
        && url == (if fileKey in m then m[fileKey] else "")
        && StoredAll(urlCache, old(urlCache), m, optionsTag, now + CacheLifetimeMs)
    {
      if fileKey == "" {
        return "";
      }
      ghost var before := urlCache;
      PartitionExactly(before, [fileKey], optionsTag, now, fileKey);
      var urls := GetOptimizedUrls([fileKey], optionsTag, now, answer, thrown);
      url := if fileKey in urls then urls[fileKey] else "";
      ghost var (cached, uncached) := Partition(before, [fileKey], optionsTag, now);
      if !IsFresh(before, fileKey, optionsTag, now) {
        assert uncached == [fileKey] by {
          assert [fileKey][..0] == [];
        }
        if !thrown {
          ghost var batches: seq<seq<string>> :|
            && IsBatching(batches, uncached)
            && urls == Combined(cached, BatchUrls(batches, answer))
            && StoredAll(urlCache, before, BatchUrls(batches, answer), optionsTag, now + CacheLifetimeMs);
          SingleKeyUrls(batches, fileKey, answer);
          assert cached == map[];
        }
      }
    }

    /** `clearCache`: drops every entry. */
    method ClearCache()
      modifies this
      ensures urlCache == map[]
    {
      urlCache := map[];
    }

    /** `cleanExpiredCache` at time `now`: deletes exactly the entries whose
        expiry is not after `now`. */
    method CleanExpiredCache(now: int)
      modifies this
      ensures urlCache == Unexpired(old(urlCache), now)
    {
      var pending := urlCache.Keys;
      ghost var start := urlCache;
      while pending != {}
        invariant pending <= start.Keys
        invariant urlCache.Keys <= start.Keys
        invariant forall ck :: ck in start && ck !in pending ==>
          (ck in urlCache <==> start[ck].expires > now)
        invariant forall ck :: ck in pending ==> ck in urlCache
        invariant forall ck :: ck in urlCache ==> urlCache[ck] == start[ck]
        decreases pending
      {
        var key :| key in pending;
        if urlCache[key].expires <= now {
          urlCache := urlCache - {key};
        }
        pending := pending - {key};
      }
      assert urlCache == Unexpired(start, now);
    }
  }

  /** The entries still valid after `now`. */
  function Unexpired(cache: map<string, CacheEntry>, now: int): (r: map<string, CacheEntry>)
    ensures forall ck :: ck in r <==> ck in cache && cache[ck].expires > now
    ensures forall ck :: ck in r ==> r[ck] == cache[ck]
  {
    map ck | ck in cache && cache[ck].expires > now :: cache[ck]
  }

  /** Cleaning twice at the same time is cleaning once, and cleaning never
      drops an entry that would still serve a request at that time. */
  lemma UnexpiredProperties(cache: map<string, CacheEntry>, now: int, key: string, optionsTag: string)
    ensures Unexpired(Unexpired(cache, now), now) == Unexpired(cache, now)
    ensures IsFresh(cache, key, optionsTag, now) <==> IsFresh(Unexpired(cache, now), key, optionsTag, now)
  {
  }
}
