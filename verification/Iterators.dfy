/** The iterators of the store stack: the cursor of an underlying database, the cursor over buffered
    writes, the merge of a parent iterator with buffered writes, and the part of a parent iterator under a
    prefix, nested to any depth. */
module Iterators {
  import opened Basics
  import opened ByteOrder
  import opened Listing
  import opened MergeSpec
  import opened PrefixSpec

  /** The iterator of an underlying ordered database, given by the pairs it has still to produce. */
  class DbIterator {
    var items: seq<Pair<Bytes>>

    constructor (items: seq<Pair<Bytes>>)
      ensures this.items == items
    {
      this.items := items;
    }
  }

  /** store/cachekv/memiterator.go: a two-ended cursor over buffered writes. */
  class MemIterator {
    var items: seq<Pair<Option<Bytes>>>
    const ascending: bool

    /** The writes still to come, in the direction of the iteration. */
    ghost function Rest(): seq<Pair<Option<Bytes>>>
      reads this
    {
      if ascending then items else Reverse(items)
    }

    /** Keeps the part of an ascending list that lies in the range. */
    constructor (start: Bytes, end: Option<Bytes>, list: seq<Pair<Option<Bytes>>>, ascending: bool)
      requires Ordered(list, true)
      ensures this.ascending == ascending
      ensures Rest() == Listed(Window(Bindings(list), start, end), ascending)
    {
      var inDomain := KeepInDomain(start, end, list);
      this.items := inDomain;
      this.ascending := ascending;
      BindingsBind(list, true);
      KeptListsWindow(list, Bindings(list), start, end);
    }

    method Valid() returns (b: bool)
      ensures b <==> Rest() != []
    {
      b := |items| > 0;
    }

    /** Advances; a false result stands for the panic on an exhausted cursor. */
    method Next() returns (ok: bool)
      modifies this
      ensures ok <==> old(Rest()) != []
      ensures Rest() == if ok then old(Rest())[1..] else old(Rest())
    {
      if |items| == 0 {
        return false;
      }
      if ascending {
        items := items[1..];
      } else {
        items := items[..|items| - 1];
      }
      ok := true;
    }

    /** The current write; None stands for the panic on an exhausted cursor. */
    method Current() returns (item: Option<Pair<Option<Bytes>>>)
      ensures item == if Rest() == [] then None else Some(Rest()[0])
    {
      if |items| == 0 {
        return None;
      }
      item := Some(if ascending then items[0] else items[|items| - 1]);
    }

    /** Skips deletions before the given key, or all leading deletions if there is none. The skipped
        entries contribute nothing to a merge with a parent that starts at that key. */
    method SkipDeletes(until: Option<Bytes>, ghost below: seq<Pair<Bytes>>)
      requires Ordered(Rest(), ascending)
      requires until == if below == [] then None else Some(below[0].key)
      modifies this
      ensures Ordered(Rest(), ascending)
      ensures Merge(below, Rest(), ascending) == old(Merge(below, Rest(), ascending))
      ensures DeletesSkipped(old(Rest()), Rest(), until, ascending)
    {
      hide Before, Merge, Ordered, Reverse;
      while true
        invariant Ordered(Rest(), ascending)
        invariant Merge(below, Rest(), ascending) == old(Merge(below, Rest(), ascending))
        invariant Rest() == old(Rest()) || |Rest()| < |old(Rest())|
        decreases |Rest()|
      {
        var item := Current();
        if item.None? || !Skippable(item.value, until, ascending) {
          return;
        }
        SkipDeletion(below, Rest(), ascending);
        TailOrdered(Rest(), ascending);
        var ok := Next();
      }
    }
  }

  /** No deletion before the limit is left at the front of after. */
  ghost predicate DeletesSkipped(before: seq<Pair<Option<Bytes>>>, after: seq<Pair<Option<Bytes>>>,
                                 until: Option<Bytes>, ascending: bool)
  {
    && |after| <= |before|
    && (after == [] || !Skippable(after[0], until, ascending))
    && (before != [] && Skippable(before[0], until, ascending) ==> |after| < |before|)
  }

  predicate Skippable(item: Pair<Option<Bytes>>, until: Option<Bytes>, ascending: bool) {
    item.value.None? && (until.None? || Before(ascending, item.key, until.value))
  }

  /** The scan of newMemIterator, which stops at the first item past the range. */
  method KeepInDomain(start: Bytes, end: Option<Bytes>, list: seq<Pair<Option<Bytes>>>)
    returns (inDomain: seq<Pair<Option<Bytes>>>)
    requires Ordered(list, true)
    ensures inDomain == Kept(list, start, end)
  {
    inDomain := [];
    var entered := false;
    var e := 0;
    while e < |list|
      invariant 0 <= e <= |list|
      invariant entered <==> inDomain != []
      invariant inDomain == Kept(list[..e], start, end)
    {
      var item := list[e];
      assert list[..e + 1] == list[..e] + [item];
      if !InDomain(item.key, start, end) {
        if entered {
          break;
        }
        e := e + 1;
        continue;
      }
      inDomain := inDomain + [item];
      entered := true;
      e := e + 1;
    }
    KeptStops(list, e, start, end);
  }

  /** The items of a list whose keys lie in the range. */
  ghost function Kept<V>(s: seq<Pair<V>>, start: Bytes, end: Option<Bytes>): seq<Pair<V>> {
    if s == [] then
      []
    else
      var last := s[|s| - 1];
      Kept(s[..|s| - 1], start, end) + if InDomain(last.key, start, end) then [last] else []
  }

  lemma {:induction false} KeptItems<V>(s: seq<Pair<V>>, start: Bytes, end: Option<Bytes>)
    ensures var k := Kept(s, start, end);
            && (forall i :: 0 <= i < |k| ==> k[i] in s && InDomain(k[i].key, start, end))
            && (forall i :: 0 <= i < |s| && InDomain(s[i].key, start, end) ==> s[i] in k)
  {
    hide InDomain;
    if s != [] {
      var front, last := s[..|s| - 1], s[|s| - 1];
      KeptItems(front, start, end);
      assert s == front + [last];
      var k := Kept(s, start, end);
      forall i | 0 <= i < |s| && InDomain(s[i].key, start, end)
        ensures s[i] in k
      {
        assert i < |front| ==> front[i] == s[i];
        assert i < |front| ==> s[i] in Kept(front, start, end);
      }
      forall i | 0 <= i < |k|
        ensures k[i] in s && InDomain(k[i].key, start, end)
      {
        if i < |Kept(front, start, end)| {
          assert k[i] == Kept(front, start, end)[i];
        }
      }
    }
  }

  lemma {:induction false} KeptOrdered<V>(s: seq<Pair<V>>, start: Bytes, end: Option<Bytes>)
    requires Ordered(s, true)
    ensures Ordered(Kept(s, start, end), true)
  {
    if s != [] {
      var front := s[..|s| - 1];
      KeptItems(front, start, end);
      KeptOrdered(front, start, end);
    }
  }

  /** Once a sorted list has left the range it never comes back. */
  lemma {:induction false} KeptStops<V>(s: seq<Pair<V>>, e: nat, start: Bytes, end: Option<Bytes>)
    requires Ordered(s, true) && e <= |s|
    requires e < |s| ==> !InDomain(s[e].key, start, end) && Kept(s[..e], start, end) != []
    ensures Kept(s, start, end) == Kept(s[..e], start, end)
  {
    if e < |s| {
      var last := s[|s| - 1];
      KeptItems(s[..e], start, end);
      var x := Kept(s[..e], start, end)[0];
      assert !InDomain(last.key, start, end) by {
        LeavesRange(x.key, s[e].key, last.key, start, end);
      }
      var front := s[..|s| - 1];
      assert front[..e] == s[..e];
      assert e < |front| ==> front[e] == s[e];
      KeptStops(front, e, start, end);
    } else {
      assert s[..e] == s;
    }
  }

  lemma LeavesRange(inside: Bytes, outside: Bytes, later: Bytes, start: Bytes, end: Option<Bytes>)
    requires InDomain(inside, start, end) && !InDomain(outside, start, end)
    requires Before(true, inside, outside) && (outside == later || Before(true, outside, later))
    ensures !InDomain(later, start, end)
  {
    if outside != later {
      LessTransitive(inside, outside, later);
    }
    if Less(outside, start) {
      LessTransitive(inside, outside, start);
    } else if Less(later, end.value) && outside != later {
      LessTransitive(outside, later, end.value);
    }
  }

  lemma KeptListsWindow<V>(s: seq<Pair<V>>, m: map<Bytes, V>, start: Bytes, end: Option<Bytes>)
    requires Ordered(s, true) && Binds(s, m)
    ensures Kept(s, start, end) == Listed(Window(m, start, end), true)
    ensures Reverse(Kept(s, start, end)) == Listed(Window(m, start, end), false)
  {
    KeptItems(s, start, end);
    KeptOrdered(s, start, end);
    var k, w := Kept(s, start, end), Window(m, start, end);
    hide Kept, Listed, Ordered, InDomain, Reverse;
    forall i | 0 <= i < |k|
      ensures k[i].key in w && w[k[i].key] == k[i].value
    {
      var j :| 0 <= j < |s| && s[j] == k[i];
    }
    forall key | key in w
      ensures Pair(key, w[key]) in k
    {
      assert Pair(key, m[key]) in s;
      var j :| 0 <= j < |s| && s[j] == Pair(key, m[key]);
    }
    hide Window;
    ListedUnique(k, w, true);
    ReverseListed(k, w);
  }

  /** An iterator of any kind of store. */
  datatype Source = Db(db: DbIterator) | Merged(merge: MergeIterator) | Part(part: PrefixIterator) {
    ghost function Repr(): set<object> {
      match this
      case Db(db) => {db}
      case Merged(m) => m.Repr
      case Part(p) => p.Repr
    }

    ghost predicate Sound()
      reads Repr()
      decreases Repr(), 2
    {
      match this
      case Db(_) => true
      case Merged(m) => m in m.Repr && m.Sound()
      case Part(p) => p in p.Repr && p.Sound()
    }

    /** The pairs still to come. */
    ghost function Remaining(): seq<Pair<Bytes>>
      requires Sound()
      reads Repr()
      decreases Repr(), 3
    {
      match this
      case Db(db) => db.items
      case Merged(m) => m.Remaining()
      case Part(p) => p.Remaining()
    }

    method Valid() returns (b: bool)
      requires Sound()
      modifies Repr()
      ensures Sound() && Remaining() == old(Remaining())
      ensures b <==> Remaining() != []
      decreases Repr(), 5
    {
      match this {
        case Db(db) => b := db.items != [];
        case Merged(m) => b := m.Valid();
        case Part(p) => b := p.Valid();
      }
    }

    /** Drops the first pair; a false result stands for the panic on an exhausted iterator. */
    method Next() returns (ok: bool)
      requires Sound()
      modifies Repr()
      ensures Sound()
      ensures ok <==> old(Remaining()) != []
      ensures Remaining() == if ok then old(Remaining())[1..] else old(Remaining())
      decreases Repr(), 5
    {
      match this {
        case Db(db) =>
          ok := db.items != [];
          if ok {
            db.items := db.items[1..];
          }
        case Merged(m) => ok := m.Next();
        case Part(p) => ok := p.Next();
      }
    }

    /** The first key; None stands for the panic on an exhausted iterator. */
    method Key() returns (k: Option<Bytes>)
      requires Sound()
      modifies Repr()
      ensures Sound() && Remaining() == old(Remaining())
      ensures k == if Remaining() == [] then None else Some(Remaining()[0].key)
      decreases Repr(), 5
    {
      match this {
        case Db(db) => k := if db.items == [] then None else Some(db.items[0].key);
        case Merged(m) => k := m.Key();
        case Part(p) => k := p.Key();
      }
    }

    method Value() returns (v: Option<Bytes>)
      requires Sound()
      modifies Repr()
      ensures Sound() && Remaining() == old(Remaining())
      ensures v == if Remaining() == [] then None else Some(Remaining()[0].value)
      decreases Repr(), 5
    {
      match this {
        case Db(db) => v := if db.items == [] then None else Some(db.items[0].value);
        case Merged(m) => v := m.Value();
        case Part(p) => v := p.Value();
      }
    }
  }

  /** store/cachekv/mergeiterator.go: a parent iterator merged with a cursor over buffered writes.
      Valid, Key and Value move the two cursors past deletions without changing what remains. */
  class MergeIterator {
    const parent: Source
    const cache: MemIterator
    const ascending: bool
    ghost const Repr: set<object>

    ghost predicate Sound()
      reads this, Repr
      ensures Sound() ==> this in Repr && cache in Repr
      decreases Repr, 0
    {
      && this in Repr && cache in Repr && parent.Repr() == Repr - {this, cache}
      && cache.ascending == ascending
      && Ordered(cache.Rest(), ascending)
      && parent.Sound()
      && Ordered(parent.Remaining(), ascending)
    }

    /** The parent pairs still to come. */
    ghost function Below(): seq<Pair<Bytes>>
      requires Sound()
      reads this, Repr
      decreases Repr, 1
    {
      parent.Remaining()
    }

    /** The pairs still to come. */
    ghost function Remaining(): seq<Pair<Bytes>>
      requires Sound()
      reads this, Repr
      decreases Repr, 2
    {
      Merge(Below(), cache.Rest(), ascending)
    }

    constructor (parent: Source, cache: MemIterator, ascending: bool)
      requires cache.ascending == ascending && Ordered(cache.Rest(), ascending)
      requires parent.Sound() && cache !in parent.Repr() && Ordered(parent.Remaining(), ascending)
      ensures Sound() && this.parent == parent && this.cache == cache && this.ascending == ascending
      ensures Repr == {this, cache} + parent.Repr()
      ensures Remaining() == Merge(parent.Remaining(), cache.Rest(), ascending)
    {
      this.parent := parent;
      this.cache := cache;
      this.ascending := ascending;
      this.Repr := {this, cache} + parent.Repr();
    }

    // Calls through the parent's Iterator interface.

    method ParentValid() returns (b: bool)
      requires Sound()
      modifies Repr
      ensures Sound() && Below() == old(Below()) && cache.Rest() == old(cache.Rest())
      ensures b <==> Below() != []
      decreases Repr, 0
    {
      hide Source.Remaining, Source.Sound, Ordered;
      b := parent.Valid();
    }

    method ParentNext()
      requires Sound() && Below() != []
      modifies Repr
      ensures Sound() && Below() == old(Below())[1..] && cache.Rest() == old(cache.Rest())
      decreases Repr, 0
    {
      hide Source.Remaining, Source.Sound, Ordered;
      TailOrdered(parent.Remaining(), ascending);
      var ok := parent.Next();
    }

    method ParentCurrent() returns (item: Pair<Bytes>)
      requires Sound() && Below() != []
      modifies Repr
      ensures Sound() && Below() == old(Below()) && cache.Rest() == old(cache.Rest())
      ensures item == Below()[0]
      decreases Repr, 0
    {
      hide Source.Remaining, Source.Sound, Ordered;
      var k := parent.Key();
      var v := parent.Value();
      item := Pair(k.value, v.value);
    }

    method CacheNext()
      requires Sound() && cache.Rest() != []
      modifies cache
      ensures Sound() && Below() == old(Below()) && cache.Rest() == old(cache.Rest())[1..]
    {
      hide Before, Merge, Reverse;
      TailOrdered(cache.Rest(), ascending);
      var ok := cache.Next();
    }

    method SkipCacheDeletes(until: Option<Bytes>)
      requires Sound()
      requires until == if Below() == [] then None else Some(Below()[0].key)
      modifies cache
      ensures Sound() && Below() == old(Below()) && Remaining() == old(Remaining())
      ensures DeletesSkipped(old(cache.Rest()), cache.Rest(), until, ascending)
    {
      hide Before, Merge, Reverse, DeletesSkipped;
      cache.SkipDeletes(until, Below());
    }

    /** One round of the skip loop with both cursors valid: the next entry exists, or a deletion has
        been skipped. */
    method SkipDeletedHead() returns (live: bool)
      requires Sound() && Below() != [] && cache.Rest() != []
      modifies Repr
      ensures Sound() && Remaining() == old(Remaining())
      ensures live ==> Settled(Below(), cache.Rest(), ascending) && Below() != []
      ensures !live ==> |Below()| + |cache.Rest()| < old(|Below()| + |cache.Rest()|)
      decreases Repr, 1
    {
      hide Before, Below, Merge, MemIterator.Rest, Sound;
      var p := ParentCurrent();
      var c := cache.Current();
      if Before(ascending, p.key, c.value.key) || c.value.value.Some? {
        return true;
      }
      BeforeTotal(p.key, c.value.key, ascending);
      live := false;
      if p.key == c.value.key {
        SkipDeletion(Below(), cache.Rest(), ascending);
        ParentNext();
        CacheNext();
      } else {
        SkipCacheDeletes(Some(p.key));
      }
    }

    /** Moves both cursors to the next live entry and tells whether there is one. */
    method SkipUntilExistsOrInvalid() returns (b: bool)
      requires Sound()
      modifies Repr
      ensures Sound() && Remaining() == old(Remaining())
      ensures Settled(Below(), cache.Rest(), ascending)
      ensures b <==> Remaining() != []
      decreases Repr, 2
    {
      hide Before, Below, Merge, MemIterator.Rest, Sound;
      while true
        invariant Sound() && Remaining() == old(Remaining())
        decreases |Below()| + |cache.Rest()|
      {
        var pv := ParentValid();
        if !pv {
          SkipCacheDeletes(None);
          SettledHead(Below(), cache.Rest(), ascending);
          b := cache.Valid();
          return;
        }
        var cv := cache.Valid();
        if !cv {
          SettledHead(Below(), cache.Rest(), ascending);
          return true;
        }
        b := SkipDeletedHead();
        if b {
          SettledHead(Below(), cache.Rest(), ascending);
          return;
        }
      }
    }

    /** Settles the cursors and reads the entry under each. */
    method Heads() returns (valid: bool, p: Option<Pair<Bytes>>, c: Option<Pair<Option<Bytes>>>)
      requires Sound()
      modifies Repr
      ensures Sound() && Remaining() == old(Remaining())
      ensures Settled(Below(), cache.Rest(), ascending)
      ensures valid <==> Remaining() != []
      ensures p == if Below() == [] then None else Some(Below()[0])
      ensures c == if cache.Rest() == [] then None else Some(cache.Rest()[0])
      decreases Repr, 3
    {
      hide Before, Below, Merge, MemIterator.Rest, Sound;
      valid := SkipUntilExistsOrInvalid();
      p := None;
      var pv := ParentValid();
      if pv {
        var head := ParentCurrent();
        p := Some(head);
      }
      c := cache.Current();
    }

    /** Valid may move the cursors, but not what remains. */
    method Valid() returns (b: bool)
      requires Sound()
      modifies Repr
      ensures Sound() && Remaining() == old(Remaining())
      ensures b <==> Remaining() != []
      decreases Repr, 4
    {
      b := SkipUntilExistsOrInvalid();
    }

    /** Drops the first remaining pair; a false result stands for the panic on an exhausted iterator. */
    method Next() returns (ok: bool)
      requires Sound()
      modifies Repr
      ensures Sound()
      ensures ok <==> old(Remaining()) != []
      ensures Remaining() == if ok then old(Remaining())[1..] else old(Remaining())
      decreases Repr, 4
    {
      hide Before, Below, Merge, MemIterator.Rest, Sound;
      var p, c;
      ok, p, c := Heads();
      if !ok {
        return;
      }
      SettledHead(Below(), cache.Rest(), ascending);
      if p.None? {
        CacheNext();
      } else if c.None? {
        ParentNext();
        SettledHead(Below(), cache.Rest(), ascending);
      } else if Before(ascending, p.value.key, c.value.key) {
        ParentNext();
      } else if p.value.key == c.value.key {
        ParentNext();
        CacheNext();
      } else {
        CacheNext();
      }
    }

    /** The first remaining key; None stands for the panic on an exhausted iterator. */
    method Key() returns (k: Option<Bytes>)
      requires Sound()
      modifies Repr
      ensures Sound() && Remaining() == old(Remaining())
      ensures k == if Remaining() == [] then None else Some(Remaining()[0].key)
      decreases Repr, 4
    {
      hide Before, Below, Merge, MemIterator.Rest, Sound;
      var ok, p, c := Heads();
      if !ok {
        return None;
      }
      SettledHead(Below(), cache.Rest(), ascending);
      if p.None? {
        return Some(c.value.key);
      } else if c.None? || Before(ascending, p.value.key, c.value.key) || p.value.key == c.value.key {
        return Some(p.value.key);
      } else {
        return Some(c.value.key);
      }
    }

    /** The first remaining value; None stands for the panic on an exhausted iterator. */
    method Value() returns (v: Option<Bytes>)
      requires Sound()
      modifies Repr
      ensures Sound() && Remaining() == old(Remaining())
      ensures v == if Remaining() == [] then None else Some(Remaining()[0].value)
      decreases Repr, 4
    {
      hide Before, Below, Merge, MemIterator.Rest, Sound;
      var ok, p, c := Heads();
      if !ok {
        return None;
      }
      SettledHead(Below(), cache.Rest(), ascending);
      if p.None? {
        return c.value.value;
      } else if c.None? || Before(ascending, p.value.key, c.value.key) {
        return Some(p.value.value);
      } else {
        return c.value.value;
      }
    }
  }

  /** store/prefix/store.go, prefixIterator: the pairs of a parent iterator as long as their keys have the
      prefix, which is stripped. */
  class PrefixIterator {
    const prefix: Bytes
    const iter: Source
    var valid: bool
    ghost const Repr: set<object>

    ghost predicate Linked()
      reads this, Repr
      ensures Linked() ==> this in Repr
      decreases Repr, 0
    {
      this in Repr && iter.Repr() == Repr - {this} && iter.Sound()
    }

    ghost predicate Sound()
      reads this, Repr
      ensures Sound() ==> Linked() && this in Repr
      decreases Repr, 1
    {
      Linked() && (valid <==> iter.Remaining() != [] && prefix <= iter.Remaining()[0].key)
    }

    /** The pairs still to come. */
    ghost function Remaining(): seq<Pair<Bytes>>
      requires Sound()
      reads this, Repr
      decreases Repr, 2
    {
      Leading(prefix, iter.Remaining())
    }

    constructor (prefix: Bytes, iter: Source)
      requires iter.Sound()
      modifies iter.Repr()
      ensures this.prefix == prefix && this.iter == iter && Repr == {this} + iter.Repr() && Sound()
      ensures Remaining() == Leading(prefix, old(iter.Remaining()))
    {
      hide Leading, Source.Remaining, Source.Sound;
      this.prefix := prefix;
      this.iter := iter;
      this.Repr := {this} + iter.Repr();
      new;
      Revalidate();
    }

    /** Looks at the parent's entry: it counts only if it exists and has the prefix. */
    method Revalidate()
      requires Linked()
      modifies Repr
      ensures Sound() && iter.Remaining() == old(iter.Remaining())
      decreases Repr, 3
    {
      hide Source.Remaining, Source.Sound;
      var v := iter.Valid();
      valid := false;
      if v {
        var k := iter.Key();
        valid := prefix <= k.value;
      }
    }

    method Valid() returns (b: bool)
      requires Sound()
      modifies Repr
      ensures Sound() && Remaining() == old(Remaining())
      ensures b <==> Remaining() != []
      decreases Repr, 4
    {
      hide Source.Remaining, Source.Sound;
      b := false;
      if valid {
        b := iter.Valid();
      }
    }

    /** Drops the first pair; a false result stands for the panic on an exhausted iterator. */
    method Next() returns (ok: bool)
      requires Sound()
      modifies Repr
      ensures Sound()
      ensures ok <==> old(Remaining()) != []
      ensures Remaining() == if ok then old(Remaining())[1..] else old(Remaining())
      decreases Repr, 4
    {
      hide Source.Remaining, Source.Sound;
      if !valid {
        return false;
      }
      ok := iter.Next();
      Revalidate();
    }

    /** The first key without the prefix; None stands for the panic on an exhausted iterator. */
    method Key() returns (k: Option<Bytes>)
      requires Sound()
      modifies Repr
      ensures Sound() && Remaining() == old(Remaining())
      ensures k == if Remaining() == [] then None else Some(Remaining()[0].key)
      decreases Repr, 4
    {
      hide Source.Remaining, Source.Sound;
      if !valid {
        return None;
      }
      var key := iter.Key();
      k := Some(key.value[|prefix|..]);
    }

    method Value() returns (v: Option<Bytes>)
      requires Sound()
      modifies Repr
      ensures Sound() && Remaining() == old(Remaining())
      ensures v == if Remaining() == [] then None else Some(Remaining()[0].value)
      decreases Repr, 4
    {
      hide Source.Remaining, Source.Sound;
      if !valid {
        return None;
      }
      v := iter.Value();
    }
  }
}
