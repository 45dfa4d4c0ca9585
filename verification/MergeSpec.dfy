/** What a cache overlay means: the plain-map view and the merge of two ordered listings. */
module MergeSpec {
  import opened Basics
  import opened ByteOrder
  import opened Listing

  type Contents = map<Bytes, Bytes>

  function Lookup(m: Contents, key: Bytes): Option<Bytes> {
    if key in m then Some(m[key]) else None
  }

  /** Buffered writes by key; a missing value is a deletion. */
  type Writes = map<Bytes, Option<Bytes>>

  /** The contents seen through a set of buffered writes. */
  function Overlay(below: Contents, writes: Writes): Contents {
    map k | k in below.Keys + writes.Keys && (k in writes ==> writes[k].Some?) ::
      if k in writes then writes[k].value else below[k]
  }

  /** One buffered write applied to plain contents. */
  function Put(m: Contents, key: Bytes, value: Option<Bytes>): Contents {
    if value.Some? then m[key := value.value] else m - {key}
  }

  /** Buffering one more write is seen as applying it. */
  lemma OverlayPut(below: Contents, writes: Writes, key: Bytes, value: Option<Bytes>)
    ensures Overlay(below, writes[key := value]) == Put(Overlay(below, writes), key, value)
  {
  }

  /** Looking through an overlay: the buffered write if there is one, else the entry below. */
  lemma OverlayLookup(below: Contents, writes: Writes, key: Bytes)
    ensures Lookup(Overlay(below, writes), key) == if key in writes then writes[key] else Lookup(below, key)
  {
  }

  /** Cutting a range out of an overlay cuts it out of both layers. */
  lemma OverlayWindow(below: Contents, writes: Writes, start: Bytes, end: Option<Bytes>)
    ensures Window(Overlay(below, writes), start, end)
         == Overlay(Window(below, start, end), Window(writes, start, end))
  {
    hide InDomain;
  }

  function Live(entry: Pair<Option<Bytes>>): seq<Pair<Bytes>> {
    if entry.value.Some? then [Pair(entry.key, entry.value.value)] else []
  }

  /** Merge of a parent listing with a listing of buffered writes: equal keys are shadowed by the
      write and deletions are left out. */
  function Merge(p: seq<Pair<Bytes>>, c: seq<Pair<Option<Bytes>>>, ascending: bool): seq<Pair<Bytes>>
    decreases |p| + |c|
  {
    if c == [] then
      p
    else if p == [] || Before(ascending, c[0].key, p[0].key) then
      Live(c[0]) + Merge(p, c[1..], ascending)
    else if p[0].key == c[0].key then
      Live(c[0]) + Merge(p[1..], c[1..], ascending)
    else
      [p[0]] + Merge(p[1..], c, ascending)
  }

  /** Forgetting a key on both sides of an overlay forgets just that key. */
  lemma OverlayWithout(below: Contents, writes: Writes, k: Bytes)
    ensures Overlay(below - {k}, writes - {k}) == Overlay(below, writes) - {k}
  {
  }

  /** Taking a write off the front of the overlay, when its key comes first. */
  lemma OverlayFirstWrite(below: Contents, writes: Writes, k: Bytes, ascending: bool)
    requires IsFirst(k, writes.Keys, ascending)
    requires forall j :: j in below && j != k ==> Before(ascending, k, j)
    ensures Listed(Overlay(below, writes), ascending)
         == Live(Pair(k, writes[k])) + Listed(Overlay(below - {k}, writes - {k}), ascending)
  {
    var m := Overlay(below, writes);
    OverlayWithout(below, writes, k);
    if writes[k].Some? {
      ListedCons(m, k, ascending);
    } else {
      assert k !in m;
      assert m - {k} == m;
    }
  }

  /** Taking an unshadowed entry off the front, when its key comes first. */
  lemma OverlayFirstBelow(below: Contents, writes: Writes, k: Bytes, ascending: bool)
    requires IsFirst(k, below.Keys, ascending) && k !in writes
    requires forall j :: j in writes ==> Before(ascending, k, j)
    ensures Listed(Overlay(below, writes), ascending)
         == [Pair(k, below[k])] + Listed(Overlay(below - {k}, writes), ascending)
  {
    var m := Overlay(below, writes);
    assert m - {k} == Overlay(below - {k}, writes);
    ListedCons(m, k, ascending);
  }

  /** A key before the first of a set comes before all of the set. */
  lemma BeforeFirst(k: Bytes, first: Bytes, keys: set<Bytes>, ascending: bool)
    requires IsFirst(first, keys, ascending) && Before(ascending, k, first)
    ensures k !in keys && forall j :: j in keys ==> Before(ascending, k, j)
  {
    OrderLaws(ascending);
  }

  /** Merging two listings lists the overlay of their maps, in either direction. */
  lemma {:induction false} MergeListsOverlay(p: seq<Pair<Bytes>>, c: seq<Pair<Option<Bytes>>>,
                                             below: Contents, writes: Writes, ascending: bool)
    requires Ordered(p, ascending) && Binds(p, below)
    requires Ordered(c, ascending) && Binds(c, writes)
    ensures Merge(p, c, ascending) == Listed(Overlay(below, writes), ascending)
    decreases |p| + |c|
  {
    if c == [] {
      assert writes == map[];
      assert Overlay(below, writes) == below;
      ListedUnique(p, below, ascending);
      return;
    }
    TailBinds(c, writes, ascending);
    var kc := c[0].key;
    if p == [] {
      assert below == map[] == below - {kc};
      OverlayFirstWrite(below, writes, kc, ascending);
      MergeListsOverlay(p, c[1..], below, writes - {kc}, ascending);
      return;
    }
    TailBinds(p, below, ascending);
    var kp := p[0].key;
    if Before(ascending, kc, kp) {
      BeforeFirst(kc, kp, below.Keys, ascending);
      assert below - {kc} == below;
      OverlayFirstWrite(below, writes, kc, ascending);
      MergeListsOverlay(p, c[1..], below, writes - {kc}, ascending);
    } else if kp == kc {
      OverlayFirstWrite(below, writes, kc, ascending);
      MergeListsOverlay(p[1..], c[1..], below - {kc}, writes - {kc}, ascending);
    } else {
      assert Before(ascending, kp, kc) by { OrderLaws(ascending); }
      BeforeFirst(kp, kc, writes.Keys, ascending);
      OverlayFirstBelow(below, writes, kp, ascending);
      MergeListsOverlay(p[1..], c, below - {kp}, writes, ascending);
    }
  }

  /** The leading write is not a deletion that still has to be skipped. */
  predicate Settled(p: seq<Pair<Bytes>>, c: seq<Pair<Option<Bytes>>>, ascending: bool) {
    c != [] && (p == [] || !Before(ascending, p[0].key, c[0].key)) ==> c[0].value.Some?
  }

  /** The pair produced next from settled cursors: the write unless the parent key comes strictly first. */
  lemma SettledHead(p: seq<Pair<Bytes>>, c: seq<Pair<Option<Bytes>>>, ascending: bool)
    requires Settled(p, c, ascending)
    ensures c == [] ==> Merge(p, c, ascending) == p
    ensures p == [] && c != [] ==>
              Merge(p, c, ascending) == [Pair(c[0].key, c[0].value.value)] + Merge(p, c[1..], ascending)
    ensures p != [] && c != [] ==>
              Merge(p, c, ascending) == (
                if Before(ascending, p[0].key, c[0].key) then
                  [p[0]] + Merge(p[1..], c, ascending)
                else if p[0].key == c[0].key then
                  [Pair(c[0].key, c[0].value.value)] + Merge(p[1..], c[1..], ascending)
                else
                  [Pair(c[0].key, c[0].value.value)] + Merge(p, c[1..], ascending))
  {
    if p != [] && c != [] {
      CompareFlips(p[0].key, c[0].key);
    }
  }

  /** A leading deletion in front of the parent, or at its key, contributes nothing. */
  lemma SkipDeletion(p: seq<Pair<Bytes>>, c: seq<Pair<Option<Bytes>>>, ascending: bool)
    requires c != [] && c[0].value.None?
    ensures p == [] || Before(ascending, c[0].key, p[0].key) ==>
              Merge(p, c, ascending) == Merge(p, c[1..], ascending)
    ensures p != [] && p[0].key == c[0].key ==>
              Merge(p, c, ascending) == Merge(p[1..], c[1..], ascending)
  {
    if p != [] {
      CompareFlips(p[0].key, c[0].key);
    }
  }

  /** Iterating over a range of an overlay is merging the same range of both layers. */
  lemma MergeOfWindows(below: Contents, writes: Writes, start: Bytes, end: Option<Bytes>, ascending: bool)
    ensures Merge(Listed(Window(below, start, end), ascending),
                  Listed(Window(writes, start, end), ascending), ascending)
         == Listed(Window(Overlay(below, writes), start, end), ascending)
  {
    hide Binds, InDomain, Listed, Merge, Ordered, Overlay, Window;
    ListedOrdered(Window(below, start, end), ascending);
    ListedOrdered(Window(writes, start, end), ascending);
    OverlayWindow(below, writes, start, end);
    MergeListsOverlay(Listed(Window(below, start, end), ascending), Listed(Window(writes, start, end), ascending),
                      Window(below, start, end), Window(writes, start, end), ascending);
  }
}
