# Tagged response cache (gincache `mtxCache`), modelled in Dafny

This project models the in-memory response cache `mtxCache` of the gincache
middleware (cache.go). The cache maps a request key to a cached response:
status, body, headers, the list of surrogate tags the entry carries, and a
sticky flag. Beside this primary index it keeps a tag index, which maps each
surrogate tag to the set of keys carrying it. A whole group of entries can
then be evicted by tag. The capacity bound is enforced by `makeRoom`. It
evicts one entry, and prefers a non-sticky one.

Files:

- `tag_index.dfy`, module `TagIndex`. This is the value-level view. It has
  the `Entry` datatype and the two-index invariant: I1 says a key is in tag
  T's set exactly when T is in that key's tag list; I2 says no tag maps to an
  empty set. It also has a reference definition `IndexOf` of the tag index as
  a function of the primary index. The loops of `removeEntry` and
  `updateSurrogates` are written as folds over the tag list (`Unregister`,
  `Register`). Lemmas say what those folds do and why they keep I1 and I2.
- `cache.dfy`, module `Cache`. Class `MtxCache` has the fields `max`, `data`
  and `surrogates`, and one method per operation of cache.go, in imperative
  form. Its methods loop over the tag list and over a snapshot of a tag's
  key set. `Valid()` is I1, I2, and duplicate-free tag lists. `RemoveEntry`
  and `UpdateSurrogates` are proved to compute the folds `Unregister` and
  `Register`; `Evict` and `EvictBySurrogate` are proved to leave `Purge` of
  the old tag index; `TrySet`, `ForceSet` and `MakeRoom` state the exact new
  `data`, which with `Valid()` fixes the tag index (`ConsistentIndexUnique`).
  Every public method keeps `Valid()`; `UpdateSurrogates` runs in the middle
  of an insertion, so it states only the fold.
- `scenarios.dfy`, module `Scenarios`. These are the tests of cache_test.go
  and scenarios taken from cache.go's comments and code paths, proved from
  the class contracts:
  purge by tag, size bound, reverse cleanup, trySet twice, capacity two, and
  immunity to stale references.

Two behaviours of the code limit what can be proved:

- The capacity bound is honoured only when `max >= 1`. With `max <= 0`,
  every insert calls `makeRoom`. On an empty map `makeRoom` does nothing, so
  such a cache still holds one entry.
- `removeEntry` drops a tag whenever its key set has size 1. It does not
  check that the key being removed is that member. The two-index invariant
  therefore needs duplicate-free tag lists; see `DuplicateTagDropsRegistration`.

## Model

| member | source | states |
|---|---|---|
| TagIndex.ConsistentIffIndexOf | cache.go:20-29 | I1 and I2 hold exactly when the tag index equals the index determined by the primary index alone (`IndexOf`) |
| TagIndex.ConsistentIndexUnique | cache.go:64-69 | two tag indexes that are both consistent with the same primary index are equal, so the cache state is fixed by `data` |
| TagIndex.UnregisterEffect | cache.go:159-171 | the cleanup loop removes only `key`, and only from the listed tags; it drops a listed tag whose set had size 1; it keeps every unlisted tag; with a duplicate-free list it keeps every other listed tag |
| TagIndex.RegisterEffect | cache.go:174-183 | registration adds `key` to the set of each listed tag and creates missing tags; every other tag and set is unchanged |
| TagIndex.PurgeKeepsConsistent | cache.go:92-103 | removing a set of keys from the primary index, and those keys from every tag set (dropping emptied tags), keeps I1 and I2 |
| TagIndex.UnregisterIsPurge | cache.go:148-172 | on a consistent index, with a duplicate-free tag list, the cleanup loop for a present key equals removing that one key from every tag set and dropping emptied tags |
| TagIndex.UnregisterKeepsConsistent | cache.go:148-172 | deleting a present key and running its cleanup loop keeps I1 and I2, and leaves the key in no tag set |
| TagIndex.RegisterKeepsConsistent | cache.go:117-118 | storing an entry under an absent key and registering it under the entry's tags keeps I1 and I2 |
| TagIndex.DuplicateTagDropsRegistration | cache.go:162-166 | with tag t listed twice by key a and once by key b, removing a deletes t altogether, so I1 fails for b |
| Cache.MtxCache.constructor | cache.go:71-77 | a new cache has the given capacity, two empty maps, and satisfies the invariant |
| Cache.MtxCache.EvictAll | cache.go:79-84 | both maps become empty, and the invariant holds |
| Cache.MtxCache.Evict | cache.go:86-90 | the key is gone from `data` and from every tag set, and emptied tags are dropped; an absent key changes nothing |
| Cache.MtxCache.EvictBySurrogate | cache.go:92-103 | every key that was in the tag's set is removed, and every other entry stays; each other tag loses exactly those keys; the tag is gone; an unknown tag changes nothing; the invariant is kept |
| Cache.MtxCache.TrySet | cache.go:105-120 | on a present key: returns false and changes nothing; on an absent key: returns true and stores the entry; other entries stay unchanged unless one was evicted at capacity; the evicted entry is non-sticky if any was; `max >= 1` and `|data| <= max` before imply `|data| <= max` after; the invariant is kept |
| Cache.MtxCache.ForceSet | cache.go:122-135 | the old entry for the key is fully removed first; the new entry is stored and registered under exactly its new tags and no other tag (cache.go:24-29); other entries stay unless one was evicted at capacity, non-sticky if possible; the capacity bound holds; the invariant is kept |
| Cache.MtxCache.Insert | cache.go:113-118 | shared insertion step of trySet and forceSet: makeRoom at capacity, then store and register; states the exact new `data` and the entry count, and keeps the invariant |
| Cache.MtxCache.Get | cache.go:137-144 | returns the stored status, body and headers of a present key, else `(0, empty, empty)`; changes nothing |
| Cache.MtxCache.RemoveEntry | cache.go:148-172 | the key is deleted from `data`; the tag index becomes the cleanup fold over the old entry's tags; an absent key changes nothing; the invariant is kept |
| Cache.MtxCache.UpdateSurrogates | cache.go:174-183 | the tag index becomes the registration fold over the given tags, and `data` is unchanged |
| Cache.MtxCache.MakeRoom | cache.go:185-200 | on a non-empty cache, exactly one entry is removed with full cleanup, and it is non-sticky whenever a non-sticky entry exists; an empty cache is unchanged |
| Scenarios.EvictBySurrogateScenario | cache_test.go:10-82 | after four inserts, Get returns the first payload and status 200 for each; purging s1 leaves exactly `{s2 -> {entry4}, s3 -> {entry3}}`; purging s2 then leaves exactly `{s3 -> {entry3}}` |
| Scenarios.SizeBoundScenario | cache_test.go:84-92 | inserting any duplicate-free list of keys into a cache of capacity `size >= 1` leaves `min(count, size)` entries |
| Scenarios.RemoveEntryScenario | cache_test.go:94-140 | each entry is registered under each of its tags; purging s1 removes entry1, entry2 and tag s1; purging s2 then removes entry3 and tag s2 |
| Scenarios.TrySetTwiceScenario | cache.go:109-111 | trySet twice with one key returns true, then false; Get yields the first payload |
| Scenarios.CapacityTwoScenario | cache.go:113-117 | with capacity 2, a third insert evicts exactly one of the first two keys; two entries remain, the new one among them |
| Scenarios.StaleReferenceScenario | cache.go:24-29 | insert k under s, evict k by key, re-insert k under tags without s, then purge s: on any valid cache, the new entry for k survives |

## Left out

- The `sync.RWMutex` and its lock/unlock calls are not modelled. Each method body is one atomic step, because the lock only serialises calls.
- The Go interface `cache` (cache.go:55-62) is not modelled separately. `MtxCache` is its only implementation.
- handler.go, writer.go and mocks/mocks.go are not part of this model. They are HTTP middleware glue, a response-writer wrapper and a test mock. Keys, tags, bodies and headers reach the cache as plain parameters.
- `TestMemoryGrowth` and its helpers in cache_test.go are not modelled. They measure garbage-collector memory with floating-point tolerances.
- Cache.MtxCache.TrySet: requires a duplicate-free tag list. With a repeated tag, a later removal can drop another key's registration (`DuplicateTagDropsRegistration`), so the invariant cannot be promised.
- Cache.MtxCache.ForceSet: requires a duplicate-free tag list, for the same reason as TrySet.
- Cache.MtxCache.MakeRoom: which entry is evicted is a nondeterministic choice. Go map iteration order is unspecified, so only "exactly one, non-sticky when possible" is proved.
- Cache.MtxCache.Get: Go's nil body and nil header map for an absent key are modelled as the empty sequence and the empty map. Go's nil/empty distinction is not kept.
- Bodies, headers and tag lists are values. Aliasing of the caller's byte slices and maps is not modelled.
- Cache.MtxCache.constructor: the size argument of `newMtxCache` is also passed to Go's `make` as an allocation hint. Only its role as the capacity bound is modelled.
