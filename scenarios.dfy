/**
 * The tests of cache_test.go, and scenarios taken from cache.go's comments and
 * code paths (trySet twice, capacity two, stale references), proved from the
 * contracts of MtxCache.
 */
module Scenarios {
  import opened TagIndex
  import opened Cache

  /** The entries the tests of cache_test.go insert: status 200, one header h1. */
  function TestEntry(tags: seq<Tag>, h1: string, body: Bytes): (e: Entry)
  {
    Entry(200, body, map["h1" := h1], tags, false)
  }

  /** The primary index after the four inserts of TestCacheEvictBySurrogate. */
  function FourEntries(body: Bytes): (d: Data)
  {
    map["entry1" := TestEntry(["s1", "s2"], "v1", body),
        "entry2" := TestEntry(["s1"], "v2", body),
        "entry3" := TestEntry(["s3"], "v3", body),
        "entry4" := TestEntry(["s2"], "v4", body)]
  }

  /** trySet of a key known to be absent, seen through its effect on the primary index alone. */
  method Put(c: MtxCache, key: Key, tags: seq<Tag>, body: Bytes, headers: Headers)
    requires c.Valid() && key !in c.data && NoDup(tags)
    modifies c
    ensures c.Valid()
    ensures var e := Entry(200, body, headers, tags, false);
            !(c.max <= |old(c.data)| && old(c.data) != map[]) ==> c.data == old(c.data)[key := e]
    ensures var e := Entry(200, body, headers, tags, false);
            c.max <= |old(c.data)| && old(c.data) != map[] ==> exists v :: v in old(c.data) && c.data == (old(c.data) - {v})[key := e]
  {
    var _ := c.TrySet(key, tags, 200, body, headers, false);
  }

  /** The four inserts of TestCacheEvictBySurrogate into a cache of capacity 100. */
  method PopulateFour(body: Bytes) returns (c: MtxCache, first: (int, Bytes, Headers))
    ensures fresh(c) && c.Valid() && c.max == 100
    ensures c.data == FourEntries(body)
    ensures first == (200, body, map["h1" := "v1"])
  {
    c := new MtxCache(100);
    Put(c, "entry1", ["s1", "s2"], body, map["h1" := "v1"]);
    var s, b, h := c.Get("entry1");
    first := (s, b, h);
    Put(c, "entry2", ["s1"], body, map["h1" := "v2"]);
    Put(c, "entry3", ["s3"], body, map["h1" := "v3"]);
    Put(c, "entry4", ["s2"], body, map["h1" := "v4"]);
  }

  /** Over the four entries, tag s1 carries exactly entry1 and entry2. */
  lemma FourEntriesS1(body: Bytes, index: Index)
    requires Consistent(FourEntries(body), index)
    ensures "s1" in index && index["s1"] == {"entry1", "entry2"}
  {
    var d := FourEntries(body);
    assert "entry1" in d && "s1" in d["entry1"].surrogates;
    assert "entry2" in d && "s1" in d["entry2"].surrogates;
    forall k | k in index["s1"]
      ensures k == "entry1" || k == "entry2"
    {
      assert k in d && "s1" in d[k].surrogates;
    }
  }

  /** After purging s1: entry3 under s3 and entry4 under s2, nothing else. */
  lemma AfterS1Index(body: Bytes, index: Index)
    requires Consistent(FourEntries(body) - {"entry1", "entry2"}, index)
    ensures index == map["s2" := {"entry4"}, "s3" := {"entry3"}]
  {
    var d := FourEntries(body) - {"entry1", "entry2"};
    var want := map["s2" := {"entry4"}, "s3" := {"entry3"}];
    assert d == map["entry3" := TestEntry(["s3"], "v3", body), "entry4" := TestEntry(["s2"], "v4", body)];
    assert Consistent(d, want);
    ConsistentIndexUnique(d, index, want);
  }

  /** After purging s1 and then s2: only entry3 under s3. */
  lemma AfterS2Index(body: Bytes, index: Index)
    requires Consistent(FourEntries(body) - {"entry1", "entry2"} - {"entry4"}, index)
    ensures index == map["s3" := {"entry3"}]
  {
    var d := FourEntries(body) - {"entry1", "entry2"} - {"entry4"};
    var want := map["s3" := {"entry3"}];
    assert d == map["entry3" := TestEntry(["s3"], "v3", body)];
    assert Consistent(d, want);
    ConsistentIndexUnique(d, index, want);
  }

  /** The statuses Get returns for the given keys. */
  method Statuses(c: MtxCache, keys: seq<Key>) returns (r: seq<int>)
    ensures |r| == |keys|
    ensures forall i :: 0 <= i < |keys| ==> r[i] == if keys[i] in c.data then c.data[keys[i]].status else 0
  {
    r := [];
    for i := 0 to |keys|
      invariant |r| == i
      invariant forall j :: 0 <= j < i ==> r[j] == if keys[j] in c.data then c.data[keys[j]].status else 0
    {
      var s, _, _ := c.Get(keys[i]);
      r := r + [s];
    }
  }

  /** The first purge of TestCacheEvictBySurrogate, by tag s1. */
  method PurgeS1(c: MtxCache, ghost body: Bytes)
    requires c.Valid() && c.data == FourEntries(body)
    modifies c
    ensures c.Valid() && c.data == FourEntries(body) - {"entry1", "entry2"}
    ensures c.surrogates == map["s2" := {"entry4"}, "s3" := {"entry3"}]
  {
    FourEntriesS1(body, c.surrogates);
    c.EvictBySurrogate("s1");
    AfterS1Index(body, c.surrogates);
  }

  /** The second purge of TestCacheEvictBySurrogate, by tag s2. */
  method PurgeS2(c: MtxCache, ghost body: Bytes)
    requires c.Valid() && c.data == FourEntries(body) - {"entry1", "entry2"}
    requires c.surrogates == map["s2" := {"entry4"}, "s3" := {"entry3"}]
    modifies c
    ensures c.Valid() && c.data == FourEntries(body) - {"entry1", "entry2"} - {"entry4"}
    ensures c.surrogates == map["s3" := {"entry3"}]
  {
    c.EvictBySurrogate("s2");
    AfterS2Index(body, c.surrogates);
  }

  /**
   * TestCacheEvictBySurrogate: four entries under tags [s1, s2], [s1], [s3], [s2];
   * purging s1 drops the first two and leaves exactly the tags s2 and s3; purging s2
   * then drops the fourth and leaves only s3.
   */
  method EvictBySurrogateScenario(body: Bytes)
    returns (first: (int, Bytes, Headers), before: seq<int>, afterS1: seq<int>, index1: Index,
             afterS2: seq<int>, index2: Index)
    ensures first == (200, body, map["h1" := "v1"])
    ensures before == [200, 200, 200, 0]
    ensures afterS1 == [0, 0, 200, 200]
    ensures index1 == map["s2" := {"entry4"}, "s3" := {"entry3"}]
    ensures afterS2 == [0, 0, 200, 0]
    ensures index2 == map["s3" := {"entry3"}]
  {
    var c;
    c, first := PopulateFour(body);
    before := Statuses(c, ["entry2", "entry3", "entry4", "entry5"]);
    PurgeS1(c, body);
    afterS1 := Statuses(c, ["entry1", "entry2", "entry3", "entry4"]);
    index1 := c.surrogates;
    PurgeS2(c, body);
    afterS2 := Statuses(c, ["entry1", "entry2", "entry3", "entry4"]);
    index2 := c.surrogates;
  }

  /**
   * TestCacheSizeBound, for any duplicate-free key list: after trying to insert every
   * key into a cache of capacity size, it holds min(number of keys, size) entries.
   */
  method SizeBoundScenario(keys: seq<Key>, size: int, body: Bytes) returns (n: int)
    requires NoDup(keys) && 1 <= size
    ensures n == if |keys| < size then |keys| else size
  {
    var c := new MtxCache(size);
    for i := 0 to |keys|
      invariant c.Valid()
      invariant forall k :: k in c.data ==> k in keys[..i]
      invariant |c.data| == if i < size then i else size
    {
      assert keys[i] !in keys[..i];
      var _ := c.TrySet(keys[i], ["s1", "s2"], 200, body, map["h1" := "v1"], false);
      assert forall k :: k in keys[..i] ==> k in keys[..i + 1];
    }
    n := |c.data|;
  }

  /** cacheContains of cache_test.go. */
  predicate CacheContains(c: MtxCache, key: Key)
    reads c
  {
    key in c.data
  }

  /** surrogateReferences of cache_test.go. */
  predicate SurrogateReferences(c: MtxCache, tag: Tag, key: Key)
    reads c
  {
    tag in c.surrogates && key in c.surrogates[tag]
  }

  /** surrogateExists of cache_test.go. */
  predicate SurrogateExists(c: MtxCache, tag: Tag)
    reads c
  {
    tag in c.surrogates
  }

  /** The three inserts of TestRemoveEntryWorksProperly. */
  method PopulateThree(body: Bytes) returns (c: MtxCache)
    ensures fresh(c) && c.Valid()
    ensures c.data == map["entry1" := TestEntry(["s1", "s2"], "v1", body),
                          "entry2" := TestEntry(["s1"], "v1", body),
                          "entry3" := TestEntry(["s2"], "v1", body)]
  {
    c := new MtxCache(100);
    Put(c, "entry1", ["s1", "s2"], body, map["h1" := "v1"]);
    Put(c, "entry2", ["s1"], body, map["h1" := "v1"]);
    Put(c, "entry3", ["s2"], body, map["h1" := "v1"]);
  }

  /**
   * TestRemoveEntryWorksProperly: entries under [s1, s2], [s1] and [s2] are registered
   * under each of their tags; purging s1 removes the first two and the tag s1; purging
   * s2 then removes the third and the tag s2.
   */
  method RemoveEntryScenario(body: Bytes) returns (initially: seq<bool>, afterS1: seq<bool>, afterS2: seq<bool>)
    ensures initially == [true, true, true, true, true, true, true]
    ensures afterS1 == [false, false, false, false, false]
    ensures afterS2 == [false, false, false]
  {
    var c := PopulateThree(body);
    initially := [CacheContains(c, "entry1"), CacheContains(c, "entry2"), CacheContains(c, "entry3"),
                  SurrogateReferences(c, "s1", "entry1"), SurrogateReferences(c, "s2", "entry1"),
                  SurrogateReferences(c, "s1", "entry2"), SurrogateReferences(c, "s2", "entry3")];
    assert "entry1" in c.data && "s1" in c.data["entry1"].surrogates;
    assert "entry2" in c.data && "s1" in c.data["entry2"].surrogates;
    assert "entry3" in c.data && "s2" in c.data["entry3"].surrogates && "s1" !in c.data["entry3"].surrogates;
    c.EvictBySurrogate("s1");
    afterS1 := [CacheContains(c, "entry1"), CacheContains(c, "entry2"),
                SurrogateReferences(c, "s1", "entry1"), SurrogateReferences(c, "s1", "entry2"),
                SurrogateExists(c, "s1")];
    assert "entry3" in c.data && "s2" in c.data["entry3"].surrogates;
    c.EvictBySurrogate("s2");
    afterS2 := [CacheContains(c, "entry3"), SurrogateReferences(c, "s2", "entry3"), SurrogateExists(c, "s2")];
  }

  /**
   * trySet twice with the same key: the first call inserts, the second reports false,
   * and Get still yields the first payload.
   */
  method TrySetTwiceScenario(key: Key, tags: seq<Tag>, status1: int, body1: Bytes, headers1: Headers,
                             status2: int, body2: Bytes, headers2: Headers)
    returns (first: bool, second: bool, status: int, body: Bytes, headers: Headers)
    requires NoDup(tags)
    ensures first && !second
    ensures status == status1 && body == body1 && headers == headers1
  {
    var c := new MtxCache(100);
    first := c.TrySet(key, tags, status1, body1, headers1, false);
    second := c.TrySet(key, tags, status2, body2, headers2, false);
    status, body, headers := c.Get(key);
  }

  /** Replacing one of two keys by a third leaves two keys: the third and exactly one of the first two. */
  lemma ReplaceOneOfTwo(two: Data, v: Key, a: Key, b: Key, k: Key, e: Entry)
    requires two.Keys == {a, b} && v in two
    requires a != b && a != k && b != k
    ensures var d := (two - {v})[k := e];
            |d| == 2 && k in d && (a in d) != (b in d)
  {
    var d := (two - {v})[k := e];
    assert (two - {v}).Keys == two.Keys - {v};
    if v == a {
      assert d.Keys == {b, k};
    } else {
      assert d.Keys == {a, k};
    }
  }

  /**
   * Capacity 2: inserting a third key evicts exactly one of the first two and keeps
   * two entries.
   */
  method CapacityTwoScenario(a: Key, b: Key, k: Key, body: Bytes)
    returns (size: int, keptA: bool, keptB: bool, hasK: bool)
    requires a != b && a != k && b != k
    ensures size == 2 && hasK && keptA != keptB
  {
    var c := new MtxCache(2);
    Put(c, a, [], body, map[]);
    Put(c, b, [], body, map[]);
    ghost var two := c.data;
    assert two.Keys == {a, b};
    Put(c, k, [], body, map[]);
    ghost var v :| v in two && c.data == (two - {v})[k := Entry(200, body, map[], [], false)];
    ReplaceOneOfTwo(two, v, a, b, k, Entry(200, body, map[], [], false));
    size := |c.data|;
    keptA, keptB, hasK := a in c.data, b in c.data, k in c.data;
  }

  /**
   * Stale-reference immunity: insert k under tag s, evict k by key, insert k again
   * under tags without s, then purge s: the new entry for k survives, on any valid cache.
   */
  method StaleReferenceScenario(c: MtxCache, k: Key, s: Tag, tags: seq<Tag>,
                                status: int, body: Bytes, headers: Headers)
    requires c.Valid() && NoDup(tags) && s !in tags
    modifies c
    ensures c.Valid()
    ensures k in c.data && c.data[k] == Entry(status, body, headers, tags, false)
  {
    var _ := c.TrySet(k, [s], 200, body, headers, false);
    c.Evict(k);
    var ok := c.TrySet(k, tags, status, body, headers, false);
    assert ok;
    assert !(s in c.surrogates && k in c.surrogates[s]);
    c.EvictBySurrogate(s);
  }
}
