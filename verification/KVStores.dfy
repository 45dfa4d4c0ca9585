/** The stores that a stack is built from: mounted stores (at the bottom), write buffers
    (store/cachekv/store.go) and parts under a prefix (store/prefix/store.go), in any order and to any depth. */
module KVStores {
  import opened Basics
  import opened ByteOrder
  import opened Listing
  import opened MergeSpec
  import opened PrefixSpec
  import opened Iterators
  import opened MountedStores
  import opened CacheKV

  /** A store of any kind. */
  datatype KVStore = Mounted(mounted: MountedStore) | Wrapped(store: Store) | Prefixed(part: PrefixStore) {
    ghost function Repr(): set<object> {
      match this
      case Mounted(m) => {m}
      case Wrapped(s) => s.Repr
      case Prefixed(p) => p.Repr
    }

    ghost predicate Sound()
      reads Repr()
      decreases Repr(), 4
    {
      match this
      case Mounted(_) => true
      case Wrapped(s) => s in s.Repr && s.Sound()
      case Prefixed(p) => p in p.Repr && p.Sound()
    }

    /** The contents of this store, followed by everything it stands on that it does not show: what is outside
        a prefix, and what is under a write buffer. */
    ghost function Levels(): (levels: seq<Contents>)
      requires Sound()
      reads Repr()
      ensures |levels| > 0
      decreases Repr(), 5
    {
      match this
      case Mounted(m) => [m.data]
      case Wrapped(s) => s.Levels()
      case Prefixed(p) => p.Levels()
    }

    ghost function View(): Contents
      requires Sound()
      reads Repr()
    {
      Levels()[0]
    }

    method Get(key: Bytes) returns (value: Option<Bytes>)
      requires Sound()
      modifies Repr()
      ensures Sound() && Levels() == old(Levels())
      ensures value == Lookup(View(), key)
      decreases Repr(), 2
    {
      hide Store.Levels, Store.Sound, PrefixStore.Levels, PrefixStore.Sound;
      match this {
        case Mounted(m) => value := m.Get(key);
        case Wrapped(s) => value := s.Get(key);
        case Prefixed(p) => value := p.Get(key);
      }
    }

    method Set(key: Bytes, value: Bytes)
      requires Sound()
      modifies Repr()
      ensures Sound() && Levels() == old(Levels())[0 := old(View())[key := value]]
      decreases Repr(), 2
    {
      hide Store.Levels, Store.Sound, PrefixStore.Levels, PrefixStore.Sound;
      match this {
        case Mounted(m) => m.Set(key, value);
        case Wrapped(s) => s.Set(key, value);
        case Prefixed(p) => p.Set(key, value);
      }
    }

    method Delete(key: Bytes)
      requires Sound()
      modifies Repr()
      ensures Sound() && Levels() == old(Levels())[0 := old(View()) - {key}]
      decreases Repr(), 2
    {
      hide Store.Levels, Store.Sound, PrefixStore.Levels, PrefixStore.Sound;
      match this {
        case Mounted(m) => m.Delete(key);
        case Wrapped(s) => s.Delete(key);
        case Prefixed(p) => p.Delete(key);
      }
    }

    method Iterator(start: Bytes, end: Option<Bytes>, ascending: bool) returns (it: Source)
      requires Sound()
      modifies Repr()
      ensures Sound() && Levels() == old(Levels())
      ensures fresh(it.Repr()) && it.Sound()
      ensures it.Remaining() == Listed(Window(View(), start, end), ascending)
      decreases Repr(), 2
    {
      hide Store.Levels, Store.Sound, PrefixStore.Levels, PrefixStore.Sound, Listed, Window;
      hide MergeIterator.Remaining, MergeIterator.Sound, PrefixIterator.Remaining, PrefixIterator.Sound;
      match this {
        case Mounted(m) =>
          var db := m.Iterator(start, end, ascending);
          it := Db(db);
        case Wrapped(s) =>
          var merge := s.Iterator(start, end, ascending);
          it := Merged(merge);
        case Prefixed(p) =>
          var part := p.Iterator(start, end, ascending);
          it := Part(part);
      }
    }
  }

  /** The part of a store under a prefix. */
  class PrefixStore {
    const parent: KVStore
    const prefix: Bytes
    ghost const Repr: set<object>

    ghost predicate Sound()
      reads this, Repr
      ensures Sound() ==> this in Repr
      decreases Repr, 0
    {
      this in Repr && parent.Repr() == Repr - {this} && parent.Sound()
    }

    /** What is under the prefix, what is outside it, and what the parent stands on. */
    ghost function Levels(): (levels: seq<Contents>)
      requires Sound()
      reads this, Repr
      ensures |levels| > 1
      decreases Repr, 3
    {
      var below := parent.Levels();
      [Under(prefix, below[0]), Outside(prefix, below[0])] + below[1..]
    }

    /** What is seen through this store. */
    ghost function View(): Contents
      requires Sound()
      reads this, Repr
    {
      Levels()[0]
    }

    constructor (parent: KVStore, prefix: Bytes)
      requires parent.Sound()
      ensures this.parent == parent && this.prefix == prefix && Repr == {this} + parent.Repr() && Sound()
      ensures View() == Under(prefix, parent.View())
    {
      hide KVStore.Levels, KVStore.Sound;
      this.parent, this.prefix := parent, prefix;
      this.Repr := {this} + parent.Repr();
    }

    method Get(key: Bytes) returns (value: Option<Bytes>)
      requires Sound()
      modifies Repr
      ensures Sound() && Levels() == old(Levels())
      ensures value == Lookup(View(), key)
      decreases Repr, 1
    {
      hide KVStore.Levels, KVStore.Sound, Under, Outside;
      UnderBinds(prefix, parent.View(), key);
      value := parent.Get(prefix + key);
    }

    /** What is under the prefix changes at the key, and nothing else that the parent shows or stands on. */
    method Set(key: Bytes, value: Bytes)
      requires Sound()
      modifies Repr
      ensures Sound() && Levels() == old(Levels())[0 := old(View())[key := value]]
      decreases Repr, 1
    {
      hide KVStore.Levels, KVStore.Sound, Under, Outside;
      UnderPut(prefix, parent.View(), key, value);
      parent.Set(prefix + key, value);
    }

    method Delete(key: Bytes)
      requires Sound()
      modifies Repr
      ensures Sound() && Levels() == old(Levels())[0 := old(View()) - {key}]
      decreases Repr, 1
    {
      hide KVStore.Levels, KVStore.Sound, Under, Outside;
      UnderDelete(prefix, parent.View(), key);
      parent.Delete(prefix + key);
    }

    /** The iterator yields the range of what is under the prefix, in either direction. */
    method Iterator(start: Bytes, end: Option<Bytes>, ascending: bool) returns (it: PrefixIterator)
      requires Sound()
      modifies Repr
      ensures Sound() && Levels() == old(Levels())
      ensures fresh(it.Repr) && it.Sound()
      ensures it.Remaining() == Listed(Window(View(), start, end), ascending)
      decreases Repr, 1
    {
      hide KVStore.Levels, KVStore.Sound, Listed, Under, Outside, Window, Leading;
      hide Source.Remaining, Source.Sound, PrefixIterator.Sound;
      var newEnd;
      if end.None? {
        newEnd := PrefixEndBytes(prefix);
      } else {
        newEnd := Some(prefix + end.value);
      }
      StrippedRange(prefix, parent.View(), start, end, newEnd, ascending);
      LeadingIsAll(prefix, Listed(Window(parent.View(), prefix + start, newEnd), ascending));
      var iter := parent.Iterator(prefix + start, newEnd, ascending);
      it := new PrefixIterator(prefix, iter);
    }
  }

  /** A write buffer over a parent store. */
  class Store {
    var cache: Cache
    var unsortedCache: set<Bytes>
    var sortedCache: seq<Pair<Option<Bytes>>>
    const parent: KVStore
    ghost const Repr: set<object>

    /** The parent is sound and does not depend on this buffer. */
    ghost predicate Linked()
      reads this, Repr
      ensures Linked() ==> this in Repr
      decreases Repr, 0
    {
      this in Repr && parent.Repr() == Repr - {this} && parent.Sound()
    }

    ghost predicate Sound()
      reads this, Repr
      ensures Sound() ==> Linked() && this in Repr
      decreases Repr, 2
    {
      Linked() && Coherent(cache, unsortedCache, sortedCache, Below()[0])
    }

    /** The contents of the parent and of everything under it. */
    ghost function Below(): (levels: seq<Contents>)
      requires Linked()
      reads this, Repr
      ensures |levels| > 0
      decreases Repr, 1
    {
      parent.Levels()
    }

    /** The contents seen through this buffer, followed by those of everything under it. */
    ghost function Levels(): (levels: seq<Contents>)
      requires Sound()
      reads this, Repr
      ensures |levels| > 1 && levels[1..] == Below()
      decreases Repr, 3
    {
      [Overlay(Below()[0], Dirty(cache))] + Below()
    }

    /** The contents seen through this buffer. */
    ghost function View(): Contents
      requires Sound()
      reads this, Repr
    {
      Levels()[0]
    }

    constructor (parent: KVStore)
      requires parent.Sound()
      ensures Sound() && this.parent == parent && Repr == {this} + parent.Repr()
      ensures Levels() == [parent.View()] + parent.Levels()
    {
      this.parent := parent;
      this.cache := map[];
      this.unsortedCache := {};
      this.sortedCache := [];
      this.Repr := {this} + parent.Repr();
      new;
      hide KVStore.Levels, KVStore.Sound;
      assert Overlay(Below()[0], Dirty(cache)) == Below()[0];
    }

    // Calls through the parent's KVStore interface. They leave this buffer alone.

    method ParentGet(key: Bytes) returns (value: Option<Bytes>)
      requires Linked()
      modifies Repr - {this}
      ensures Linked() && Below() == old(Below())
      ensures value == Lookup(Below()[0], key)
      decreases Repr, 0
    {
      hide KVStore.Levels, KVStore.Sound;
      value := parent.Get(key);
    }

    method ParentSet(key: Bytes, value: Bytes)
      requires Linked()
      modifies Repr - {this}
      ensures Linked() && Below() == old(Below())[0 := old(Below())[0][key := value]]
      decreases Repr, 0
    {
      hide KVStore.Levels, KVStore.Sound;
      parent.Set(key, value);
    }

    method ParentDelete(key: Bytes)
      requires Linked()
      modifies Repr - {this}
      ensures Linked() && Below() == old(Below())[0 := old(Below())[0] - {key}]
      decreases Repr, 0
    {
      hide KVStore.Levels, KVStore.Sound;
      parent.Delete(key);
    }

    method ParentIterator(start: Bytes, end: Option<Bytes>, ascending: bool) returns (source: Source)
      requires Linked()
      modifies Repr - {this}
      ensures Linked() && Below() == old(Below())
      ensures fresh(source.Repr()) && source.Sound()
      ensures source.Remaining() == Listed(Window(Below()[0], start, end), ascending)
      decreases Repr, 0
    {
      hide KVStore.Levels, KVStore.Sound, Source.Remaining, Source.Sound, Listed, Window;
      source := parent.Iterator(start, end, ascending);
    }

    method SetCacheValue(key: Bytes, value: Option<Bytes>, deleted: bool, dirty: bool)
      requires Linked()
      modifies this
      ensures Linked() && Below() == old(Below())
      ensures cache == old(cache)[key := CValue(value, deleted, dirty)]
      ensures unsortedCache == old(unsortedCache) + if dirty then {key} else {}
      ensures sortedCache == old(sortedCache)
    {
      cache := cache[key := CValue(value, deleted, dirty)];
      if dirty {
        unsortedCache := unsortedCache + {key};
      }
    }

    method ReplaceBuffer(cache: Cache, unsorted: set<Bytes>, sorted: seq<Pair<Option<Bytes>>>)
      requires Linked()
      modifies this
      ensures Linked() && Below() == old(Below())
      ensures this.cache == cache && unsortedCache == unsorted && sortedCache == sorted
    {
      this.cache := cache;
      unsortedCache := unsorted;
      sortedCache := sorted;
    }

    /** Reads through the buffer and remembers what the parent answered. */
    method Get(key: Bytes) returns (value: Option<Bytes>)
      requires Sound()
      modifies Repr
      ensures Sound() && Levels() == old(Levels())
      ensures value == Lookup(View(), key)
      decreases Repr, 1
    {
      hide Coherent, Linked, Below, Overlay, Lookup, Dirty;
      assert CacheAgrees(cache, Below()[0]) by { CoherentCache(cache, unsortedCache, sortedCache, Below()[0]); }
      CachedAnswer(cache, Below()[0], key);
      if key !in cache {
        value := ParentGet(key);
        BufferRead(cache, unsortedCache, sortedCache, Below()[0], key);
        SetCacheValue(key, value, false, false);
        assert unsortedCache == old(unsortedCache);
      } else {
        value := cache[key].value;
      }
    }

    /** Buffers a write; the parent is not touched. */
    method Set(key: Bytes, value: Bytes)
      requires Sound()
      modifies this
      ensures Sound() && Levels() == old(Levels())[0 := old(View())[key := value]]
    {
      hide Coherent, Linked, Below, Overlay, Dirty;
      BufferWrite(cache, unsortedCache, sortedCache, Below()[0], key, Some(value));
      SetCacheValue(key, Some(value), false, true);
    }

    /** Buffers a deletion; the parent is not touched. */
    method Delete(key: Bytes)
      requires Sound()
      modifies this
      ensures Sound() && Levels() == old(Levels())[0 := old(View()) - {key}]
    {
      hide Coherent, Linked, Below, Overlay, Dirty;
      BufferWrite(cache, unsortedCache, sortedCache, Below()[0], key, None);
      SetCacheValue(key, None, true, true);
    }

    /** Moves the waiting keys of a range into the sorted list. */
    method DirtyItems(start: Bytes, end: Option<Bytes>)
      requires Sound()
      modifies this
      ensures Sound() && Levels() == old(Levels())
      ensures Ordered(sortedCache, true)
      ensures Window(Bindings(sortedCache), start, end) == Window(Dirty(cache), start, end)
    {
      hide Linked, Below, Bindings, CacheAgrees, Overlay, Ordered, Window;
      var news, rest := CollectUnsorted(cache, unsortedCache, start, end);
      var unsorted := SortByKey(news);
      var sorted := MergeSorted(sortedCache, unsorted);
      SortRange(Dirty(cache), unsortedCache, sortedCache, sorted, start, end);
      ReplaceBuffer(cache, rest, sorted);
    }

    /** The iterator yields the range of the contents seen through the buffer, in order. */
    method Iterator(start: Bytes, end: Option<Bytes>, ascending: bool) returns (it: MergeIterator)
      requires Sound()
      modifies Repr
      ensures Sound() && Levels() == old(Levels())
      ensures fresh(it.Repr) && it.Sound() && it.ascending == ascending
      ensures it.Remaining() == Listed(Window(View(), start, end), ascending)
      decreases Repr, 1
    {
      hide Bindings, Coherent, Below, Dirty, Linked, Listed, Merge, Ordered, Overlay, Window;
      hide MemIterator.Rest, MergeIterator.Below, MergeIterator.Remaining, MergeIterator.Sound;
      hide Source.Remaining, Source.Sound;
      var source := ParentIterator(start, end, ascending);
      DirtyItems(start, end);
      var mem := new MemIterator(start, end, sortedCache, ascending);
      ListedOrdered(Window(Dirty(cache), start, end), ascending);
      ListedOrdered(Window(Below()[0], start, end), ascending);
      it := new MergeIterator(source, mem, ascending);
      MergeOfWindows(Below()[0], Dirty(cache), start, end, ascending);
    }

    /** Writes the buffer into the parent and empties it: the view stays and becomes the parent's. */
    method Write()
      requires Sound()
      modifies Repr
      ensures Sound() && Levels() == old(Levels())[1 := old(View())]
      ensures cache == map[] && unsortedCache == {} && sortedCache == []
    {
      hide Before, Bindings, CacheAgrees, Linked, Lookup, Below, Overlay, Ordered, SortedAgrees;
      var keys := SortByKey(Dirty(cache));
      ghost var below := Below()[0];
      NothingBuffered(below);
      for n := 0 to |keys|
        invariant Linked() && cache == old(cache)
        invariant Below() == old(Below())[0 := Overlay(below, Bindings(keys[..n]))]
      {
        var key := keys[n].key;
        WriteOne(cache, below, keys, n);
        var cacheValue := cache[key];
        if cacheValue.deleted {
          ParentDelete(key);
        } else if cacheValue.value.Some? {
          ParentSet(key, cacheValue.value.value);
        }
      }
      assert keys[..|keys|] == keys;
      ReplaceBuffer(map[], {}, []);
      NothingBuffered(Below()[0]);
    }
  }
}
