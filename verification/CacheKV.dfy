/** store/cachekv/store.go: what a write buffer holds, and how its writes are sorted. */
module CacheKV {
  import opened Basics
  import opened ByteOrder
  import opened Listing
  import opened MergeSpec

  /** A cached value; a clean entry repeats what the parent answered. */
  datatype CValue = CValue(value: Option<Bytes>, deleted: bool, dirty: bool)

  type Cache = map<Bytes, CValue>

  /** The writes buffered in a cache. */
  function Dirty(cache: Cache): Writes {
    map k | k in cache && cache[k].dirty :: cache[k].value
  }

  /** What every reachable write buffer keeps, relative to the contents of its parent. */
  ghost predicate Coherent(cache: Cache, unsorted: set<Bytes>, sorted: seq<Pair<Option<Bytes>>>, below: Contents) {
    && CacheAgrees(cache, below)
    && SortedAgrees(Dirty(cache), unsorted, sorted)
  }

  /** Clean entries equal the parent, and a dirty entry without a value is a deletion. */
  ghost predicate CacheAgrees(cache: Cache, below: Contents) {
    forall k :: k in cache ==>
      if cache[k].dirty then cache[k].deleted == cache[k].value.None?
      else !cache[k].deleted && cache[k].value == Lookup(below, k)
  }

  /** The sorted list ascends and holds only dirty keys; a dirty key that is not waiting to be sorted
      is in the list with its current value. */
  ghost predicate SortedAgrees(dirty: Writes, unsorted: set<Bytes>, sorted: seq<Pair<Option<Bytes>>>) {
    && Ordered(sorted, true)
    && unsorted <= dirty.Keys
    && Bindings(sorted).Keys <= dirty.Keys
    && (forall k :: k in dirty && k !in unsorted ==> k in Bindings(sorted) && Bindings(sorted)[k] == dirty[k])
  }

  /** Buffering a write keeps the invariant and shows through. */
  lemma BufferWrite(cache: Cache, unsorted: set<Bytes>, sorted: seq<Pair<Option<Bytes>>>, below: Contents,
                    key: Bytes, value: Option<Bytes>)
    requires Coherent(cache, unsorted, sorted, below)
    ensures var c := cache[key := CValue(value, value.None?, true)];
            && Coherent(c, unsorted + {key}, sorted, below)
            && Overlay(below, Dirty(c)) == Put(Overlay(below, Dirty(cache)), key, value)
  {
    hide Bindings, Ordered, Overlay;
    assert Dirty(cache[key := CValue(value, value.None?, true)]) == Dirty(cache)[key := value];
    OverlayPut(below, Dirty(cache), key, value);
  }

  /** Remembering a parent answer keeps the invariant and changes nothing. */
  lemma BufferRead(cache: Cache, unsorted: set<Bytes>, sorted: seq<Pair<Option<Bytes>>>, below: Contents, key: Bytes)
    requires Coherent(cache, unsorted, sorted, below) && key !in cache
    ensures var c := cache[key := CValue(Lookup(below, key), false, false)];
            Coherent(c, unsorted, sorted, below) && Dirty(c) == Dirty(cache)
  {
    hide Bindings, Ordered;
    assert Dirty(cache[key := CValue(Lookup(below, key), false, false)]) == Dirty(cache);
  }

  lemma CoherentCache(cache: Cache, unsorted: set<Bytes>, sorted: seq<Pair<Option<Bytes>>>, below: Contents)
    requires Coherent(cache, unsorted, sorted, below)
    ensures CacheAgrees(cache, below)
  {
  }

  /** What a lookup in the cache means for the overlay. */
  lemma CachedAnswer(cache: Cache, below: Contents, key: Bytes)
    requires CacheAgrees(cache, below)
    ensures Lookup(Overlay(below, Dirty(cache)), key) == if key in cache then cache[key].value else Lookup(below, key)
  {
    OverlayLookup(below, Dirty(cache), key);
  }

  /** The keys before index e of the sorted list lie below all of the news. */
  ghost predicate Passed(sorted: seq<Pair<Option<Bytes>>>, e: nat, news: seq<Pair<Option<Bytes>>>) {
    && e <= |sorted| && Ordered(sorted, true) && Ordered(news, true)
    && (news != [] ==> forall j :: 0 <= j < e ==> Before(true, sorted[j].key, news[0].key))
  }

  /** The merge loop of dirtyItems: sorted list and sorted news, walked together. */
  method MergeSorted(list: seq<Pair<Option<Bytes>>>, news: seq<Pair<Option<Bytes>>>)
    returns (sorted: seq<Pair<Option<Bytes>>>)
    requires Ordered(list, true) && Ordered(news, true)
    ensures Ordered(sorted, true) && Bindings(sorted) == Bindings(list) + Bindings(news)
  {
    sorted := list;
    var unsorted := news;
    var e := 0;
    assert Passed(sorted, e, unsorted) && Bindings<Option<Bytes>>([]) == map[];
    hide Before, Bindings, Ordered, Passed;
    while e < |sorted| && |unsorted| != 0
      invariant 0 <= e <= |sorted| && Passed(sorted, e, unsorted)
      invariant Bindings(sorted) + Bindings(unsorted) == Bindings(list) + Bindings(news)
      decreases 2 * |unsorted| + |sorted| - e
    {
      var uitem, sitem := unsorted[0], sorted[e];
      if Before(true, uitem.key, sitem.key) {
        TakeFirst(sorted, e, unsorted);
        sorted := InsertAt(sorted, e, uitem);
        unsorted := unsorted[1..];
      } else if !Before(true, sitem.key, uitem.key) {
        TakeEqual(sorted, e, unsorted);
        sorted := sorted[e := uitem];
        unsorted := unsorted[1..];
      } else {
        PassOne(sorted, e, unsorted);
      }
      e := e + 1;
    }
    while unsorted != []
      invariant Passed(sorted, |sorted|, unsorted)
      invariant Bindings(sorted) + Bindings(unsorted) == Bindings(list) + Bindings(news)
      decreases |unsorted|
    {
      TakeFirst(sorted, |sorted|, unsorted);
      assert sorted + [unsorted[0]] == InsertAt(sorted, |sorted|, unsorted[0]);
      sorted := sorted + [unsorted[0]];
      unsorted := unsorted[1..];
    }
    PassedOrdered(sorted, unsorted);
  }

  lemma PassedOrdered(sorted: seq<Pair<Option<Bytes>>>, news: seq<Pair<Option<Bytes>>>)
    requires Passed(sorted, |sorted|, news)
    ensures Ordered(sorted, true)
  {
  }

  lemma PassOne(sorted: seq<Pair<Option<Bytes>>>, e: nat, news: seq<Pair<Option<Bytes>>>)
    requires Passed(sorted, e, news) && e < |sorted| && news != []
    requires Before(true, sorted[e].key, news[0].key)
    ensures Passed(sorted, e + 1, news)
  {
    hide Before, Ordered;
  }

  /** Inserting the first of the news before index e. */
  lemma TakeFirst(sorted: seq<Pair<Option<Bytes>>>, e: nat, news: seq<Pair<Option<Bytes>>>)
    requires Passed(sorted, e, news) && news != []
    requires e < |sorted| ==> Before(true, news[0].key, sorted[e].key)
    ensures var s := InsertAt(sorted, e, news[0]);
            && Passed(s, e + 1, news[1..])
            && Bindings(s) + Bindings(news[1..]) == Bindings(sorted) + Bindings(news)
  {
    hide Before, Bindings, Ordered;
    SplitHere(sorted, e, news[0].key);
    InsertBinds(sorted, e, news[0]);
    NextIsLater(sorted, e, news);
    TailBindings(news, true);
    MoveBinding(Bindings(sorted), Bindings(news), news[0].key);
  }

  /** Replacing the entry at index e by the first of the news. */
  lemma TakeEqual(sorted: seq<Pair<Option<Bytes>>>, e: nat, news: seq<Pair<Option<Bytes>>>)
    requires Passed(sorted, e, news) && news != [] && e < |sorted|
    requires !Before(true, news[0].key, sorted[e].key) && !Before(true, sorted[e].key, news[0].key)
    ensures var s := sorted[e := news[0]];
            && Passed(s, e + 1, news[1..])
            && Bindings(s) + Bindings(news[1..]) == Bindings(sorted) + Bindings(news)
  {
    hide Before, Bindings, Ordered;
    BeforeTotal(news[0].key, sorted[e].key, true);
    ReplaceBinds(sorted, e, news[0]);
    NextIsLater(sorted, e, news);
    TailBindings(news, true);
    MoveBinding(Bindings(sorted), Bindings(news), news[0].key);
  }

  lemma SplitHere<V>(s: seq<Pair<V>>, e: nat, key: Bytes)
    requires e <= |s| && Ordered(s, true) && (e < |s| ==> Before(true, key, s[e].key))
    requires forall j :: 0 <= j < e ==> Before(true, s[j].key, key)
    ensures SplitsAt(s, e, key)
  {
    hide Before;
    forall j | e < j < |s|
      ensures Before(true, key, s[j].key)
    {
      BeforeTransitive(key, s[e].key, s[j].key, true);
    }
  }

  /** What lies below the first of the news lies below the second. */
  lemma NextIsLater<V>(s: seq<Pair<V>>, e: nat, news: seq<Pair<V>>)
    requires e <= |s| && Ordered(news, true) && news != []
    requires forall j :: 0 <= j < e ==> Before(true, s[j].key, news[0].key)
    ensures |news| > 1 ==> Before(true, news[0].key, news[1].key)
    ensures |news| > 1 ==> forall j :: 0 <= j < e ==> Before(true, s[j].key, news[1].key)
  {
    hide Before;
    if |news| > 1 {
      forall j | 0 <= j < e
        ensures Before(true, s[j].key, news[1].key)
      {
        BeforeTransitive(s[j].key, news[0].key, news[1].key, true);
      }
    }
  }

  /** The first loop of dirtyItems: takes the waiting keys of the range, in any order. */
  method CollectUnsorted(cache: Cache, unsorted: set<Bytes>, start: Bytes, end: Option<Bytes>)
    returns (news: Writes, rest: set<Bytes>)
    requires unsorted <= cache.Keys
    ensures news == map k | k in unsorted && InDomain(k, start, end) :: cache[k].value
    ensures rest == set k | k in unsorted && !InDomain(k, start, end)
  {
    hide InDomain;
    news, rest := map[], unsorted;
    var todo := unsorted;
    while todo != {}
      invariant todo <= rest <= unsorted && news.Keys == unsorted - rest
      invariant forall k :: k in unsorted - todo ==> (k in rest <==> !InDomain(k, start, end))
      invariant forall k :: k in news ==> news[k] == cache[k].value
      decreases |todo|
    {
      var key :| key in todo;
      todo := todo - {key};
      if InDomain(key, start, end) {
        news := news[key := cache[key].value];
        rest := rest - {key};
      }
    }
  }

  /** After merging the waiting keys of a range, the sorted list is current on that range. */
  lemma SortRange(dirty: Writes, unsorted: set<Bytes>, sorted: seq<Pair<Option<Bytes>>>,
                  merged: seq<Pair<Option<Bytes>>>, start: Bytes, end: Option<Bytes>)
    requires SortedAgrees(dirty, unsorted, sorted) && Ordered(merged, true)
    requires Bindings(merged)
          == Bindings(sorted) + map k | k in unsorted && InDomain(k, start, end) :: dirty[k]
    ensures SortedAgrees(dirty, (set k | k in unsorted && !InDomain(k, start, end)), merged)
    ensures Window(Bindings(merged), start, end) == Window(dirty, start, end)
  {
    hide Bindings, InDomain, Ordered;
  }

  /** An empty buffer is coherent and transparent. */
  lemma NothingBuffered(below: Contents)
    ensures Coherent(map[], {}, [], below)
    ensures Overlay(below, Dirty(map[])) == below == Overlay(below, Bindings([]))
  {
    assert Dirty(map[]) == map[];
  }

  /** Writing the next of the sorted dirty keys extends what has reached the parent. */
  lemma WriteOne(cache: Cache, below: Contents, keys: seq<Pair<Option<Bytes>>>, n: nat)
    requires CacheAgrees(cache, below) && n < |keys| && Ordered(keys, true) && Bindings(keys) == Dirty(cache)
    ensures var key := keys[n].key;
            && key in cache && cache[key].dirty && cache[key].deleted == cache[key].value.None?
            && Overlay(below, Bindings(keys[..n + 1]))
               == Put(Overlay(below, Bindings(keys[..n])), key, cache[key].value)
  {
    hide Before, Lookup, Ordered, Overlay;
    BindingsBind(keys, true);
    assert keys[n].key in Dirty(cache);
    assert keys[..n + 1][..n] == keys[..n];
    OverlayPut(below, Bindings(keys[..n]), keys[n].key, keys[n].value);
  }
}
