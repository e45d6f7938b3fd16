/**
 * The tagged response cache mtxCache of cache.go: a bounded map from key to
 * cached response, with a tag ("surrogate") index so that every entry carrying
 * a tag can be evicted at once.
 *
 * Each method body is one atomic step: the read-write lock of the source only
 * serialises calls. Go map iteration order is modelled by `:|` choice.
 */
module Cache {
  import opened TagIndex

  lemma SubsetSize(a: set<Key>, b: set<Key>)
    requires a <= b
    ensures |a| <= |b|
  {
    assert b == a + (b - a);
  }

  class MtxCache {
    /** Capacity bound, fixed at construction. */
    const max: int
    /** Primary index: key to cached entry. */
    var data: Data
    /** Tag index: tag to the keys registered under it. */
    var surrogates: Index

    /** I1 and I2 hold, and no entry lists a tag twice. */
    ghost predicate Valid()
      reads this
    {
      Consistent(data, surrogates) && TagListsDupFree(data)
    }

    /** newMtxCache */
    constructor (size: int)
      ensures max == size && data == map[] && surrogates == map[]
      ensures Valid()
    {
      max := size;
      data := map[];
      surrogates := map[];
    }

    /** Drops every entry and every tag registration. */
    method EvictAll()
      modifies this
      ensures data == map[] && surrogates == map[]
      ensures Valid()
    {
      data := map[];
      surrogates := map[];
    }

    /** Removes one key, if present, with reverse cleanup of its tags. */
    method Evict(key: Key)
      requires Valid()
      modifies this
      ensures Valid()
      ensures data == old(data) - {key}
      ensures key !in old(data) ==> surrogates == old(surrogates)
      ensures key in old(data) ==> surrogates == Purge(old(surrogates), {key})
    {
      RemoveEntry(key);
      if key in old(data) {
        UnregisterIsPurge(old(data), old(surrogates), key);
      }
    }

    /**
     * Removes every key registered under tag, each with reverse cleanup of all its
     * tags, then drops the tag itself.
     */
    method EvictBySurrogate(tag: Tag)
      requires Valid()
      modifies this
      ensures Valid()
      ensures tag !in old(surrogates) ==> data == old(data) && surrogates == old(surrogates)
      ensures tag in old(surrogates) ==> data == old(data) - old(surrogates)[tag]
      ensures tag in old(surrogates) ==> surrogates == Purge(old(surrogates), old(surrogates)[tag])
      ensures tag !in surrogates
    {
      // Go ranges over the live key set of the tag; removeEntry deletes from it only the
      // key being visited, so every key of the set at the start is visited exactly once,
      // in an unspecified order: a snapshot and `:|` choice give the same visits.
      var entries := if tag in surrogates then surrogates[tag] else {};
      var todo := entries;
      while todo != {}
        invariant Valid()
        invariant todo <= entries && todo <= data.Keys
        invariant data == old(data) - (entries - todo)
        decreases todo
      {
        var entry :| entry in todo;
        RemoveEntry(entry);
        todo := todo - {entry};
      }
      if tag in old(surrogates) {
        PurgeKeepsConsistent(old(data), old(surrogates), entries);
        ConsistentIndexUnique(data, surrogates, Purge(old(surrogates), entries));
      } else {
        assert data == old(data);
        ConsistentIndexUnique(data, surrogates, old(surrogates));
      }
      surrogates := surrogates - {tag};
    }

    /**
     * Inserts the entry only when key is absent; at capacity, one entry is evicted
     * first. Returns whether the insert happened.
     */
    method TrySet(key: Key, tags: seq<Tag>, status: int, body: Bytes, headers: Headers, sticky: bool)
      returns (ok: bool)
      requires Valid()
      requires NoDup(tags)
      modifies this
      ensures Valid()
      ensures ok == (key !in old(data))
      ensures !ok ==> data == old(data) && surrogates == old(surrogates)
      ensures ok ==> key in data && data[key] == Entry(status, body, headers, tags, sticky)
      ensures ok ==> forall k :: k in data && k != key ==> k in old(data) && data[k] == old(data)[k]
      ensures ok && !(max <= |old(data)| && old(data) != map[]) ==> data == old(data)[key := Entry(status, body, headers, tags, sticky)]
      ensures ok && max <= |old(data)| && old(data) != map[] ==>
                exists v :: v in old(data) && data == (old(data) - {v})[key := Entry(status, body, headers, tags, sticky)]
      ensures ok ==> |data| == if max <= |old(data)| && old(data) != map[] then |old(data)| else |old(data)| + 1
      ensures ok ==> forall k :: k in old(data) && k !in data && (exists j :: j in old(data) && !old(data)[j].sticky) ==> !old(data)[k].sticky
      ensures 1 <= max && |old(data)| <= max ==> |data| <= max
    {
      if key in data {
        return false;
      }
      Insert(key, Entry(status, body, headers, tags, sticky));
      ok := true;
    }

    /**
     * Installs the entry unconditionally: a present entry for key is first removed with
     * reverse cleanup of its old tags; at capacity, one other entry is evicted.
     */
    method ForceSet(key: Key, tags: seq<Tag>, status: int, body: Bytes, headers: Headers, sticky: bool)
      requires Valid()
      requires NoDup(tags)
      modifies this
      ensures Valid()
      ensures key in data && data[key] == Entry(status, body, headers, tags, sticky)
      ensures forall t :: t in surrogates && key in surrogates[t] <==> t in tags
      ensures forall k :: k in data && k != key ==> k in old(data) && data[k] == old(data)[k]
      ensures var rest, e := old(data) - {key}, Entry(status, body, headers, tags, sticky);
              !(max <= |rest| && rest != map[]) ==> data == rest[key := e]
      ensures var rest, e := old(data) - {key}, Entry(status, body, headers, tags, sticky);
              max <= |rest| && rest != map[] ==> exists v :: v in rest && data == (rest - {v})[key := e]
      ensures var n := |old(data) - {key}|;
              |data| == if max <= n && n != 0 then n else n + 1
      ensures forall k :: k in old(data) && k != key && k !in data && (exists j :: j in old(data) && j != key && !old(data)[j].sticky) ==> !old(data)[k].sticky
      ensures 1 <= max && |old(data)| <= max ==> |data| <= max
    {
      RemoveEntry(key);
      ghost var rest := data;
      Insert(key, Entry(status, body, headers, tags, sticky));
      RegisteredExactlyUnder(data, surrogates, key);
      assert |rest| <= |old(data)| by {
        SubsetSize(rest.Keys, old(data).Keys);
      }
      forall k | k in old(data) && k != key && k !in data && (exists j :: j in old(data) && j != key && !old(data)[j].sticky)
        ensures !old(data)[k].sticky
      {
        var j :| j in old(data) && j != key && !old(data)[j].sticky;
        assert j in rest && !rest[j].sticky;
      }
    }

    /**
     * The insertion shared by trySet and forceSet for a key that is absent: makeRoom
     * when the cache is at capacity, then store the entry and register its tags.
     */
    method Insert(key: Key, e: Entry)
      requires Valid()
      requires key !in data && NoDup(e.surrogates)
      modifies this
      ensures Valid()
      ensures key in data && data[key] == e
      ensures forall k :: k in data && k != key ==> k in old(data) && data[k] == old(data)[k]
      ensures !(max <= |old(data)| && old(data) != map[]) ==> data == old(data)[key := e]
      ensures max <= |old(data)| && old(data) != map[] ==> exists v :: v in old(data) && data == (old(data) - {v})[key := e]
      ensures |data| == if max <= |old(data)| && old(data) != map[] then |old(data)| else |old(data)| + 1
      ensures forall k :: k in old(data) && k !in data && (exists j :: j in old(data) && !old(data)[j].sticky) ==> !old(data)[k].sticky
      ensures 1 <= max && |old(data)| <= max ==> |data| <= max
    {
      ghost var victim: Option<Key> := None;
      if |data| >= max {
        victim := MakeRoom();
      }
      ghost var before, index := data, surrogates;
      data := data[key := e];
      UpdateSurrogates(key, e.surrogates);
      RegisterKeepsConsistent(before, index, key, e);
    }

    /** The cached status, body and headers for key, or (0, empty, empty) when absent. */
    method Get(key: Key) returns (status: int, body: Bytes, headers: Headers)
      ensures key in data ==> status == data[key].status && body == data[key].body && headers == data[key].headers
      ensures key !in data ==> status == 0 && body == [] && headers == map[]
    {
      if key in data {
        var res := data[key];
        return res.status, res.body, res.headers;
      }
      return 0, [], map[];
    }

    /**
     * removeEntry: deletes key from the primary index and runs the reverse-cleanup
     * loop over the tags its entry listed; no effect when key is absent.
     */
    method RemoveEntry(key: Key)
      requires Valid()
      modifies this
      ensures Valid()
      ensures data == old(data) - {key}
      ensures key !in old(data) ==> surrogates == old(surrogates)
      ensures key in old(data) ==> surrogates == Unregister(old(surrogates), key, old(data)[key].surrogates)
      ensures forall t :: t in surrogates ==> key !in surrogates[t]
    {
      if key !in data {
        return;
      }
      var referencing := data[key].surrogates;
      data := data - {key};
      var i := 0;
      while i < |referencing|
        invariant 0 <= i <= |referencing|
        invariant data == old(data) - {key}
        invariant surrogates == Unregister(old(surrogates), key, referencing[..i])
      {
        var referrer := referencing[i];
        if referrer in surrogates {
          var references := surrogates[referrer];
          if |references| == 1 {
            surrogates := surrogates - {referrer};
          } else {
            surrogates := surrogates[referrer := references - {key}];
          }
        }
        assert referencing[..i + 1][..i] == referencing[..i];
        i := i + 1;
      }
      assert referencing[..i] == referencing;
      UnregisterKeepsConsistent(old(data), old(surrogates), key);
    }

    /** updateSurrogates: registers key under each of tags, creating tags as needed. */
    method UpdateSurrogates(key: Key, tags: seq<Tag>)
      modifies this
      ensures data == old(data)
      ensures surrogates == Register(old(surrogates), key, tags)
    {
      var i := 0;
      while i < |tags|
        invariant 0 <= i <= |tags|
        invariant data == old(data)
        invariant surrogates == Register(old(surrogates), key, tags[..i])
      {
        var s := tags[i];
        var current := if s in surrogates then surrogates[s] else {};
        surrogates := surrogates[s := current + {key}];
        assert tags[..i + 1][..i] == tags[..i];
        i := i + 1;
      }
      assert tags[..i] == tags;
    }

    /**
     * makeRoom: evicts one entry of a non-empty cache, a non-sticky one whenever one
     * exists; an empty cache is left as it is.
     */
    method MakeRoom() returns (ghost victim: Option<Key>)
      requires Valid()
      modifies this
      ensures Valid()
      ensures old(data) == map[] ==> victim == None && data == old(data) && surrogates == old(surrogates)
      ensures old(data) != map[] ==> victim.Some? && victim.value in old(data) && data == old(data) - {victim.value}
      ensures victim.Some? ==> surrogates == Unregister(old(surrogates), victim.value, old(data)[victim.value].surrogates)
      ensures victim.Some? && (exists k :: k in old(data) && !old(data)[k].sticky) ==> !old(data)[victim.value].sticky
    {
      var unvisited := data.Keys;
      while unvisited != {}
        invariant unvisited <= data.Keys
        invariant data == old(data) && surrogates == old(surrogates)
        invariant forall k :: k in data && k !in unvisited ==> data[k].sticky
        decreases unvisited
      {
        var k :| k in unvisited;
        if !data[k].sticky {
          RemoveEntry(k);
          victim := Some(k);
          return;
        }
        unvisited := unvisited - {k};
      }
      // No non-sticky entry: evict any.
      if data != map[] {
        var k :| k in data;
        RemoveEntry(k);
        victim := Some(k);
        return;
      }
      victim := None;
    }
  }
}
