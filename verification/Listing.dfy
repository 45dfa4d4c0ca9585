/** Ordered listings of maps: the reference that every iterator of the store stack is compared with. */
module Listing {
  import opened Basics
  import opened ByteOrder

  datatype Pair<+V> = Pair(key: Bytes, value: V)

  /** Keys strictly advance in the given direction, so no key occurs twice. */
  ghost predicate Ordered<V>(s: seq<Pair<V>>, ascending: bool) {
    forall i, j :: 0 <= i < j < |s| ==> Before(ascending, s[i].key, s[j].key)
  }

  lemma TailOrdered<V>(s: seq<Pair<V>>, ascending: bool)
    requires Ordered(s, ascending)
    ensures s != [] ==> Ordered(s[1..], ascending)
  {
  }

  /** s holds exactly the bindings of m. */
  ghost predicate Binds<V>(s: seq<Pair<V>>, m: map<Bytes, V>) {
    && (forall i :: 0 <= i < |s| ==> s[i].key in m && m[s[i].key] == s[i].value)
    && (forall k :: k in m ==> Pair(k, m[k]) in s)
  }

  /** The map held by an ordered sequence. */
  ghost function Bindings<V>(s: seq<Pair<V>>): map<Bytes, V> {
    if s == [] then
      map[]
    else
      var last := s[|s| - 1];
      Bindings(s[..|s| - 1])[last.key := last.value]
  }

  lemma SnocBinds<V>(s: seq<Pair<V>>, item: Pair<V>, m: map<Bytes, V>)
    requires Binds(s, m) && item.key !in m
    ensures Binds(s + [item], m[item.key := item.value])
  {
    var t, n := s + [item], m[item.key := item.value];
    forall k | k in n
      ensures Pair(k, n[k]) in t
    {
      if k == item.key {
        assert t[|s|] == Pair(k, n[k]);
      } else {
        assert Pair(k, m[k]) in s;
      }
    }
  }

  lemma LastIsNew<V>(s: seq<Pair<V>>, m: map<Bytes, V>, ascending: bool)
    requires s != [] && Ordered(s, ascending) && Binds(s[..|s| - 1], m)
    ensures s[|s| - 1].key !in m
  {
    hide Before;
    var front, last := s[..|s| - 1], s[|s| - 1];
    if last.key in m {
      assert Pair(last.key, m[last.key]) in front;
      var i :| 0 <= i < |front| && front[i] == Pair(last.key, m[last.key]);
      BeforeStrict(s[i].key, last.key, ascending);
    }
  }

  lemma {:induction false} BindingsBind<V>(s: seq<Pair<V>>, ascending: bool)
    requires Ordered(s, ascending)
    ensures Binds(s, Bindings(s))
  {
    if s != [] {
      var front, last := s[..|s| - 1], s[|s| - 1];
      assert Ordered(front, ascending);
      hide Before, Binds, Ordered;
      BindingsBind(front, ascending);
      LastIsNew(s, Bindings(front), ascending);
      SnocBinds(front, last, Bindings(front));
      assert s == front + [last];
    }
  }

  lemma BindingsUnique<V>(s: seq<Pair<V>>, m: map<Bytes, V>, ascending: bool)
    requires Ordered(s, ascending) && Binds(s, m)
    ensures m == Bindings(s)
  {
    BindingsBind(s, ascending);
    forall k | k in m
      ensures k in Bindings(s) && Bindings(s)[k] == m[k]
    {
      assert Pair(k, m[k]) in s;
    }
    forall k | k in Bindings(s)
      ensures k in m
    {
      assert Pair(k, Bindings(s)[k]) in s;
    }
  }

  /** The bindings of m whose key lies in [start, end). */
  ghost function Window<V>(m: map<Bytes, V>, start: Bytes, end: Option<Bytes>): map<Bytes, V> {
    map k | k in m && InDomain(k, start, end) :: m[k]
  }

  /** k comes first among the given keys. */
  ghost predicate IsFirst(k: Bytes, keys: set<Bytes>, ascending: bool) {
    k in keys && forall j :: j in keys && j != k ==> Before(ascending, k, j)
  }

  lemma {:induction false} FirstExists(keys: set<Bytes>, ascending: bool)
    requires keys != {}
    ensures exists k :: IsFirst(k, keys, ascending)
    decreases keys
  {
    OrderLaws(ascending);
    var x :| x in keys;
    if keys == {x} {
      assert IsFirst(x, keys, ascending);
    } else {
      FirstExists(keys - {x}, ascending);
      var y :| IsFirst(y, keys - {x}, ascending);
      if Before(ascending, x, y) {
        assert IsFirst(x, keys, ascending);
      } else {
        assert IsFirst(y, keys, ascending);
      }
    }
  }

  lemma {:induction false} ListingExists<V>(m: map<Bytes, V>, ascending: bool)
    ensures exists s :: Ordered(s, ascending) && Binds(s, m)
    decreases m.Keys
  {
    if m == map[] {
      assert Ordered<V>([], ascending) && Binds([], m);
    } else {
      FirstExists(m.Keys, ascending);
      var k :| IsFirst(k, m.Keys, ascending);
      var rest := m - {k};
      assert rest.Keys == m.Keys - {k};
      ListingExists(rest, ascending);
      var r :| Ordered(r, ascending) && Binds(r, rest);
      ConsBinds(m, k, r, ascending);
    }
  }

  /** The bindings of m in key order. */
  ghost function Listed<V>(m: map<Bytes, V>, ascending: bool): seq<Pair<V>> {
    ListingExists(m, ascending);
    var s :| Ordered(s, ascending) && Binds(s, m);
    s
  }

  lemma ListedOrdered<V>(m: map<Bytes, V>, ascending: bool)
    ensures Ordered(Listed(m, ascending), ascending) && Binds(Listed(m, ascending), m)
  {
    ListingExists(m, ascending);
  }

  /** Putting the first key in front of an ordered listing of the other keys. */
  lemma ConsBinds<V>(m: map<Bytes, V>, k: Bytes, r: seq<Pair<V>>, ascending: bool)
    requires IsFirst(k, m.Keys, ascending)
    requires Ordered(r, ascending) && Binds(r, m - {k})
    ensures Ordered([Pair(k, m[k])] + r, ascending) && Binds([Pair(k, m[k])] + r, m)
  {
    hide Before;
    forall j | j in m
      ensures Pair(j, m[j]) in [Pair(k, m[k])] + r
    {
      assert j == k || Pair(j, (m - {k})[j]) in r;
    }
  }

  /** Dropping the first entry of an ordered sequence drops exactly its key. */
  lemma TailBinds<V>(s: seq<Pair<V>>, m: map<Bytes, V>, ascending: bool)
    requires Ordered(s, ascending) && Binds(s, m) && s != []
    ensures Ordered(s[1..], ascending) && Binds(s[1..], m - {s[0].key})
    ensures IsFirst(s[0].key, m.Keys, ascending) && s[0] == Pair(s[0].key, m[s[0].key])
  {
    hide Before;
    forall i | 0 < i < |s|
      ensures s[i].key != s[0].key
    {
      BeforeStrict(s[0].key, s[i].key, ascending);
    }
    forall j | j in m && j != s[0].key
      ensures Pair(j, m[j]) in s[1..] && Before(ascending, s[0].key, j)
    {
      var i :| 0 <= i < |s| && s[i] == Pair(j, m[j]);
      assert s[1..][i - 1] == s[i];
    }
  }

  lemma FirstUnique(k: Bytes, l: Bytes, keys: set<Bytes>, ascending: bool)
    requires IsFirst(k, keys, ascending) && IsFirst(l, keys, ascending)
    ensures k == l
  {
    BeforeStrict(k, l, ascending);
  }

  lemma EmptyBinds<V>(s: seq<Pair<V>>, m: map<Bytes, V>)
    requires Binds(s, m)
    ensures s == [] <==> m == map[]
  {
    if s != [] {
      assert s[0].key in m;
    }
  }

  lemma {:induction false} SameBindings<V>(s: seq<Pair<V>>, t: seq<Pair<V>>, m: map<Bytes, V>, ascending: bool)
    requires Ordered(s, ascending) && Binds(s, m)
    requires Ordered(t, ascending) && Binds(t, m)
    ensures s == t
    decreases |s|
  {
    hide Before, Binds, IsFirst, Ordered;
    EmptyBinds(s, m);
    EmptyBinds(t, m);
    if s != [] {
      TailBinds(s, m, ascending);
      TailBinds(t, m, ascending);
      FirstUnique(s[0].key, t[0].key, m.Keys, ascending);
      SameBindings(s[1..], t[1..], m - {s[0].key}, ascending);
      assert s == [s[0]] + s[1..] && t == [t[0]] + t[1..];
    }
  }

  /** An ordered sequence with the bindings of m is the listing of m. */
  lemma ListedUnique<V>(s: seq<Pair<V>>, m: map<Bytes, V>, ascending: bool)
    requires Ordered(s, ascending) && Binds(s, m)
    ensures s == Listed(m, ascending)
  {
    ListingExists(m, ascending);
    SameBindings(s, Listed(m, ascending), m, ascending);
  }

  /** The listing of m starts with its first key and goes on with the listing of the rest. */
  lemma ListedCons<V>(m: map<Bytes, V>, k: Bytes, ascending: bool)
    requires IsFirst(k, m.Keys, ascending)
    ensures Listed(m, ascending) == [Pair(k, m[k])] + Listed(m - {k}, ascending)
  {
    ListingExists(m - {k}, ascending);
    ConsBinds(m, k, Listed(m - {k}, ascending), ascending);
    ListedUnique([Pair(k, m[k])] + Listed(m - {k}, ascending), m, ascending);
  }

  /** Dropping the first entry of an ordered list drops its key from the map it holds. */
  lemma TailBindings<V>(s: seq<Pair<V>>, ascending: bool)
    requires s != [] && Ordered(s, ascending)
    ensures Ordered(s[1..], ascending) && Bindings(s[1..]) == Bindings(s) - {s[0].key}
    ensures s[0].key in Bindings(s) && Bindings(s)[s[0].key] == s[0].value
  {
    hide Before, Binds, Bindings, Ordered;
    BindingsBind(s, ascending);
    TailBinds(s, Bindings(s), ascending);
    BindingsUnique(s[1..], Bindings(s) - {s[0].key}, ascending);
  }

  function Reverse<T>(s: seq<T>): (r: seq<T>)
    ensures |r| == |s|
    ensures forall i :: 0 <= i < |s| ==> r[i] == s[|s| - 1 - i]
  {
    if s == [] then [] else [s[|s| - 1]] + Reverse(s[..|s| - 1])
  }

  /** The descending listing is the ascending one read backwards. */
  lemma ReverseListed<V>(s: seq<Pair<V>>, m: map<Bytes, V>)
    requires s == Listed(m, true)
    ensures Reverse(s) == Listed(m, false)
  {
    ListingExists(m, true);
    var r := Reverse(s);
    forall k | k in m
      ensures Pair(k, m[k]) in r
    {
      var i :| 0 <= i < |s| && s[i] == Pair(k, m[k]);
      assert r[|s| - 1 - i] == s[i];
    }
    ListedUnique(r, m, false);
  }

  /** The list with an item put in at index i. */
  function InsertAt<V>(s: seq<Pair<V>>, i: nat, item: Pair<V>): seq<Pair<V>>
    requires i <= |s|
  {
    s[..i] + [item] + s[i..]
  }

  /** Every key before index i is below the key, every key from i on is above it. */
  ghost predicate SplitsAt<V>(s: seq<Pair<V>>, i: nat, key: Bytes)
    requires i <= |s|
  {
    && (forall j :: 0 <= j < i ==> Before(true, s[j].key, key))
    && (forall j :: i <= j < |s| ==> Before(true, key, s[j].key))
  }

  lemma InsertOrdered<V>(s: seq<Pair<V>>, i: nat, item: Pair<V>)
    requires Ordered(s, true) && i <= |s| && SplitsAt(s, i, item.key)
    ensures Ordered(InsertAt(s, i, item), true)
    ensures forall j :: 0 <= j < |s| ==> s[j].key != item.key
  {
    hide Before;
    forall j | 0 <= j < |s|
      ensures s[j].key != item.key
    {
      BeforeStrict(s[j].key, item.key, true);
      BeforeStrict(item.key, s[j].key, true);
    }
  }

  lemma InsertBinds<V>(s: seq<Pair<V>>, i: nat, item: Pair<V>)
    requires Ordered(s, true) && i <= |s| && SplitsAt(s, i, item.key)
    ensures Ordered(InsertAt(s, i, item), true)
    ensures Bindings(InsertAt(s, i, item)) == Bindings(s)[item.key := item.value]
  {
    hide Before, Bindings, Ordered, SplitsAt;
    BindingsBind(s, true);
    InsertOrdered(s, i, item);
    var t, m := InsertAt(s, i, item), Bindings(s)[item.key := item.value];
    forall k | k in m
      ensures Pair(k, m[k]) in t
    {
      if k == item.key {
        assert t[i] == item;
      } else {
        assert Pair(k, Bindings(s)[k]) in s;
      }
    }
    BindingsUnique(t, m, true);
  }

  lemma ReplaceBinds<V>(s: seq<Pair<V>>, i: nat, item: Pair<V>)
    requires Ordered(s, true) && i < |s| && s[i].key == item.key
    ensures Ordered(s[i := item], true)
    ensures Bindings(s[i := item]) == Bindings(s)[item.key := item.value]
  {
    hide Before, Bindings;
    BindingsBind(s, true);
    var t, m := s[i := item], Bindings(s)[item.key := item.value];
    assert Ordered(t, true);
    forall k | k in m
      ensures Pair(k, m[k]) in t
    {
      if k == item.key {
        assert t[i] == item;
      } else {
        var j :| 0 <= j < |s| && s[j] == Pair(k, Bindings(s)[k]);
        assert t[j] == s[j];
      }
    }
    forall j | 0 <= j < |s| && j != i
      ensures s[j].key != item.key
    {
      BeforeStrict(s[j].key, item.key, true);
      BeforeStrict(item.key, s[j].key, true);
    }
    BindingsUnique(t, m, true);
  }

  /** The scan for the place of a new key ends where the list splits. */
  lemma SplitPoint<V>(s: seq<Pair<V>>, i: nat, key: Bytes)
    requires Ordered(s, true) && i <= |s| && key !in Bindings(s)
    requires forall j :: 0 <= j < i ==> Before(true, s[j].key, key)
    requires i < |s| ==> !Before(true, s[i].key, key)
    ensures SplitsAt(s, i, key)
  {
    hide Before, Bindings;
    BindingsBind(s, true);
    forall j | i <= j < |s|
      ensures Before(true, key, s[j].key)
    {
      BeforeTotal(key, s[i].key, true);
      if i < j {
        BeforeTransitive(key, s[i].key, s[j].key, true);
      }
    }
  }

  /** Moving a binding from the right map of a union to the left keeps the union. */
  lemma MoveBinding<V>(a: map<Bytes, V>, b: map<Bytes, V>, k: Bytes)
    requires k in b
    ensures a[k := b[k]] + (b - {k}) == a + b
  {
  }

  method FindPlace<V>(s: seq<Pair<V>>, key: Bytes) returns (i: nat)
    requires Ordered(s, true) && key !in Bindings(s)
    ensures i <= |s| && SplitsAt(s, i, key)
  {
    hide Before, Bindings, Ordered;
    i := 0;
    while i < |s| && Before(true, s[i].key, key)
      invariant 0 <= i <= |s|
      invariant forall j :: 0 <= j < i ==> Before(true, s[j].key, key)
    {
      i := i + 1;
    }
    SplitPoint(s, i, key);
  }

  /** The bindings of a map sorted by key, as sort.Slice and sort.Strings leave them. */
  method SortByKey<V>(m: map<Bytes, V>) returns (s: seq<Pair<V>>)
    ensures Ordered(s, true) && Bindings(s) == m
    ensures s == Listed(m, true)
  {
    s := [];
    var todo := m;
    assert Ordered(s, true) && Bindings(s) == map[];
    hide Binds, Bindings, InsertAt, Listed, Ordered, SplitsAt;
    while todo.Keys != {}
      invariant Ordered(s, true) && Bindings(s).Keys !! todo.Keys
      invariant Bindings(s) + todo == m
      decreases |todo|
    {
      var k :| k in todo.Keys;
      var i := FindPlace(s, k);
      InsertBinds(s, i, Pair(k, todo[k]));
      MoveBinding(Bindings(s), todo, k);
      s := InsertAt(s, i, Pair(k, todo[k]));
      todo := todo - {k};
    }
    BindingsBind(s, true);
    ListedUnique(s, m, true);
  }
}
