/**
 * Value-level view of the two indexes kept by the tagged response cache of
 * cache.go: the primary index, from key to cached entry, and the tag index
 * ("surrogates"), from tag to the set of keys registered under it.
 *
 * The loops of removeEntry and updateSurrogates are given here as folds over
 * the entry's tag list (Unregister, Register); the cache methods RemoveEntry and
 * UpdateSurrogates are proved to compute exactly these folds, and the lemmas
 * below say what the folds do to the two-index invariant.
 */
module TagIndex {

  type Key = string
  type Tag = string
  type Headers = map<string, string>
  type Bytes = seq<bv8>

  datatype Option<T> = None | Some(value: T)

  /** A cached response with the tags it is registered under (cacheEntry). */
  datatype Entry = Entry(status: int, body: Bytes, headers: Headers, surrogates: seq<Tag>, sticky: bool)

  /** The primary index. */
  type Data = map<Key, Entry>

  /** The tag index. */
  type Index = map<Tag, set<Key>>

  predicate NoDup<T(==)>(s: seq<T>)
  {
    forall i, j :: 0 <= i < j < |s| ==> s[i] != s[j]
  }

  /** I1: a key is in a tag's key set exactly when that tag is in the key's entry's tag list. */
  ghost predicate Bidirectional(data: Data, index: Index)
  {
    && (forall t, k :: t in index && k in index[t] ==> k in data && t in data[k].surrogates)
    && (forall k, t :: k in data && t in data[k].surrogates ==> t in index && k in index[t])
  }

  /** I2: no tag is registered with an empty key set. */
  ghost predicate NoOrphans(index: Index)
  {
    forall t :: t in index ==> index[t] != {}
  }

  ghost predicate Consistent(data: Data, index: Index)
  {
    Bidirectional(data, index) && NoOrphans(index)
  }

  ghost predicate TagListsDupFree(data: Data)
  {
    forall k :: k in data ==> NoDup(data[k].surrogates)
  }

  /** The keys whose entries list tag t. */
  ghost function TaggedWith(data: Data, t: Tag): (r: set<Key>)
  {
    set k | k in data && t in data[k].surrogates
  }

  /** Every tag listed by some entry. */
  ghost function AllTags(data: Data): (r: set<Tag>)
  {
    set k, t | k in data && t in data[k].surrogates :: t
  }

  /** Reference definition: the tag index that the primary index alone determines. */
  ghost function IndexOf(data: Data): (r: Index)
  {
    map t | t in AllTags(data) :: TaggedWith(data, t)
  }

  lemma TagListed(data: Data, k: Key, t: Tag)
    requires k in data && t in data[k].surrogates
    ensures t in AllTags(data)
  {
  }

  /** I1 and I2 together hold exactly when the tag index is the one the primary index determines. */
  lemma ConsistentIffIndexOf(data: Data, index: Index)
    ensures Consistent(data, index) <==> index == IndexOf(data)
  {
    var ref := IndexOf(data);
    if Consistent(data, index) {
      forall t | t in index
        ensures t in ref && index[t] == ref[t]
      {
        var k :| k in index[t];
        TagListed(data, k, t);
      }
      forall t | t in ref
        ensures t in index
      {
        var k, t' :| k in data && t' in data[k].surrogates && t' == t;
      }
      assert index == ref;
    }
    if index == ref {
      forall t | t in index
        ensures index[t] != {}
      {
        var k, t' :| k in data && t' in data[k].surrogates && t' == t;
        assert k in index[t];
      }
      forall k, t | k in data && t in data[k].surrogates
        ensures t in index && k in index[t]
      {
        TagListed(data, k, t);
      }
    }
  }

  /** Under I1, a present key is registered under exactly the tags of its entry. */
  lemma RegisteredExactlyUnder(data: Data, index: Index, key: Key)
    requires Bidirectional(data, index) && key in data
    ensures forall t :: t in index && key in index[t] <==> t in data[key].surrogates
  {
  }

  /** The tag index is a function of the primary index. */
  lemma ConsistentIndexUnique(data: Data, a: Index, b: Index)
    requires Consistent(data, a) && Consistent(data, b)
    ensures a == b
  {
    ConsistentIffIndexOf(data, a);
    ConsistentIffIndexOf(data, b);
  }

  /** One pass of the reverse-cleanup loop of removeEntry for tag t (cache.go:160-170). */
  function UnregisterStep(index: Index, key: Key, t: Tag): (r: Index)
  {
    if t !in index then index
    else if |index[t]| == 1 then index - {t}
    else index[t := index[t] - {key}]
  }

  /** The reverse-cleanup loop of removeEntry over the removed entry's tags, in list order. */
  function Unregister(index: Index, key: Key, tags: seq<Tag>): (r: Index)
    decreases |tags|
  {
    if tags == [] then index
    else UnregisterStep(Unregister(index, key, tags[..|tags| - 1]), key, tags[|tags| - 1])
  }

  lemma SplitLast(tags: seq<Tag>)
    requires tags != []
    ensures forall t :: t in tags <==> t in tags[..|tags| - 1] || t == tags[|tags| - 1]
    ensures NoDup(tags) ==> NoDup(tags[..|tags| - 1]) && tags[|tags| - 1] !in tags[..|tags| - 1]
  {
  }

  /**
   * What the cleanup loop does to each tag: a surviving tag lost only key, and only if
   * it was listed; unlisted tags survive; a listed tag whose key set had size 1 is
   * dropped; with a duplicate-free list, every other listed tag survives.
   */
  lemma {:induction false} UnregisterEffect(index: Index, key: Key, tags: seq<Tag>)
    ensures var r := Unregister(index, key, tags);
            forall t :: t in r ==> t in index && r[t] == (if t in tags then index[t] - {key} else index[t])
    ensures var r := Unregister(index, key, tags);
            forall t :: t in index && t !in tags ==> t in r
    ensures var r := Unregister(index, key, tags);
            forall t :: t in index && t in tags && |index[t]| == 1 ==> t !in r
    ensures var r := Unregister(index, key, tags);
            NoDup(tags) ==> forall t :: t in index && t in tags && |index[t]| != 1 ==> t in r
    decreases |tags|
  {
    if tags != [] {
      SplitLast(tags);
      UnregisterEffect(index, key, tags[..|tags| - 1]);
    }
  }

  /** The registration loop of updateSurrogates (cache.go:174-183). */
  function RegisterStep(index: Index, key: Key, t: Tag): (r: Index)
  {
    index[t := (if t in index then index[t] else {}) + {key}]
  }

  /** updateSurrogates over a tag list, in list order. */
  function Register(index: Index, key: Key, tags: seq<Tag>): (r: Index)
    decreases |tags|
  {
    if tags == [] then index
    else RegisterStep(Register(index, key, tags[..|tags| - 1]), key, tags[|tags| - 1])
  }

  /** Registration adds key to the key set of each listed tag, creating missing tags, and changes nothing else. */
  lemma {:induction false} RegisterEffect(index: Index, key: Key, tags: seq<Tag>)
    ensures var r := Register(index, key, tags);
            forall t :: t in r <==> t in index || t in tags
    ensures var r := Register(index, key, tags);
            forall t :: t in r ==> r[t] == (if t in index then index[t] else {}) + (if t in tags then {key} else {})
    decreases |tags|
  {
    if tags != [] {
      SplitLast(tags);
      RegisterEffect(index, key, tags[..|tags| - 1]);
    }
  }

  /** The tag index with the keys in gone taken out of every key set and emptied tags dropped. */
  function Purge(index: Index, gone: set<Key>): (r: Index)
  {
    map t | t in index && index[t] - gone != {} :: index[t] - gone
  }

  /** Removing keys from both indexes, with Purge on the tag index, keeps I1 and I2. */
  lemma PurgeKeepsConsistent(data: Data, index: Index, gone: set<Key>)
    requires Consistent(data, index)
    ensures Consistent(data - gone, Purge(index, gone))
  {
    var d, p := data - gone, Purge(index, gone);
    forall k, t | k in d && t in d[k].surrogates
      ensures t in p && k in p[t]
    {
      assert k in index[t] - gone;
    }
  }

  /**
   * On a consistent index, the cleanup loop over a present entry's duplicate-free tag
   * list removes exactly that key: it equals Purge of the key.
   */
  lemma UnregisterIsPurge(data: Data, index: Index, key: Key)
    requires Consistent(data, index)
    requires key in data && NoDup(data[key].surrogates)
    ensures Unregister(index, key, data[key].surrogates) == Purge(index, {key})
  {
    var tags := data[key].surrogates;
    var u, p := Unregister(index, key, tags), Purge(index, {key});
    UnregisterEffect(index, key, tags);
    forall t | t in index && t in tags
      ensures t in p <==> |index[t]| != 1
      ensures t in p ==> p[t] == index[t] - {key}
    {
      assert key in index[t];
      if |index[t]| == 1 {
        assert index[t] - {key} == {} by {
          assert |index[t] - {key}| == |index[t]| - |{key}|;
        }
      } else {
        assert |index[t] - {key}| == |index[t]| - 1;
      }
    }
    forall t | t in index && t !in tags
      ensures key !in index[t]
    {
    }
    assert u.Keys == p.Keys;
    forall t | t in u
      ensures u[t] == p[t]
    {
    }
  }

  /** Removing a present entry with removeEntry's loop keeps I1 and I2. */
  lemma UnregisterKeepsConsistent(data: Data, index: Index, key: Key)
    requires Consistent(data, index)
    requires key in data && NoDup(data[key].surrogates)
    ensures Consistent(data - {key}, Unregister(index, key, data[key].surrogates))
    ensures forall t :: t in Unregister(index, key, data[key].surrogates) ==> key !in Unregister(index, key, data[key].surrogates)[t]
  {
    UnregisterIsPurge(data, index, key);
    PurgeKeepsConsistent(data, index, {key});
  }

  /** Inserting an absent key and registering it under its entry's tags keeps I1 and I2. */
  lemma RegisterKeepsConsistent(data: Data, index: Index, key: Key, e: Entry)
    requires Consistent(data, index)
    requires key !in data
    ensures Consistent(data[key := e], Register(index, key, e.surrogates))
  {
    var d, r := data[key := e], Register(index, key, e.surrogates);
    RegisterEffect(index, key, e.surrogates);
    forall t, k | t in r && k in r[t]
      ensures k in d && t in d[k].surrogates
    {
      if k != key {
        assert t in index && k in index[t];
      }
    }
    forall k, t | k in d && t in d[k].surrogates
      ensures t in r && k in r[t]
    {
    }
  }

  /**
   * Why tag lists must be duplicate-free: with tag t listed twice by key a and once by
   * key b, the cleanup of a shrinks t's key set to {b} on the first pass and deletes t
   * on the second, so b is no longer found under t.
   */
  lemma DuplicateTagDropsRegistration()
    ensures var e := Entry(200, [], map[], ["t", "t"], false);
            var f := Entry(200, [], map[], ["t"], false);
            var data := map["a" := e, "b" := f];
            var index := map["t" := {"a", "b"}];
            && Consistent(data, index)
            && "t" !in Unregister(index, "a", e.surrogates)
            && !Consistent(data - {"a"}, Unregister(index, "a", e.surrogates))
  {
    var e := Entry(200, [], map[], ["t", "t"], false);
    var f := Entry(200, [], map[], ["t"], false);
    var data := map["a" := e, "b" := f];
    var index := map["t" := {"a", "b"}];
    assert "a" != "b";
    assert index["t"] - {"a"} == {"b"};
    var once := Unregister(index, "a", ["t"]);
    assert ["t", "t"][..1] == ["t"];
    assert once == map["t" := {"b"}];
    assert Unregister(index, "a", ["t", "t"]) == UnregisterStep(once, "a", "t");
    assert "b" in data - {"a"};
  }
}
