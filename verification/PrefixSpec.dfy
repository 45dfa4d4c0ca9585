/** The contents of a store under a key prefix, and the ranges of keys that have it (store/types/utils.go and
    store/prefix/store.go). */
module PrefixSpec {
  import opened Basics
  import opened ByteOrder
  import opened Listing
  import opened MergeSpec

  // The range of keys with a prefix

  /** If every byte of the prefix is 255, the keys with the prefix have no upper bound. */
  lemma {:induction false} MaxPrefix(prefix: Bytes, key: Bytes)
    requires forall i :: 0 <= i < |prefix| ==> prefix[i] == 255
    ensures prefix <= key <==> !Less(key, prefix)
  {
    if prefix != [] && key != [] && key[0] == 255 {
      MaxPrefix(prefix[1..], key[1..]);
      HeadPrefix(prefix, key);
    }
  }

  lemma HeadPrefix(prefix: Bytes, key: Bytes)
    requires prefix != [] && key != []
    ensures prefix <= key <==> prefix[0] == key[0] && prefix[1..] <= key[1..]
  {
    if prefix[0] == key[0] && prefix[1..] <= key[1..] {
      assert prefix == [prefix[0]] + prefix[1..] && key == [key[0]] + key[1..];
    }
  }

  /** The last byte below 255, incremented, ends the range of the keys with the prefix. */
  lemma {:induction false} PrefixBounds(prefix: Bytes, n: nat, key: Bytes)
    requires 0 < n <= |prefix| && prefix[n - 1] < 255
    requires forall i :: n <= i < |prefix| ==> prefix[i] == 255
    ensures prefix <= key <==> InDomain(key, prefix, Some(prefix[..n - 1] + [prefix[n - 1] + 1]))
    decreases n
  {
    var end := prefix[..n - 1] + [prefix[n - 1] + 1];
    if key != [] {
      HeadPrefix(prefix, key);
      if n == 1 {
        assert end[0] == prefix[0] + 1 && end[1..] == [] && !Less(key[1..], end[1..]);
        MaxPrefix(prefix[1..], key[1..]);
      } else if key[0] == prefix[0] {
        PrefixBounds(prefix[1..], n - 1, key[1..]);
        assert prefix[1..][..n - 2] + [prefix[1..][n - 2] + 1] == end[1..];
      }
    }
  }

  /** A key has the prefix exactly if it lies between the prefix and its end bytes; no end is unbounded. */
  method PrefixEndBytes(prefix: Bytes) returns (end: Option<Bytes>)
    ensures forall key: Bytes :: prefix <= key <==> InDomain(key, prefix, end)
  {
    hide Less;
    var n := |prefix|;
    while n > 0 && prefix[n - 1] == 255
      invariant 0 <= n <= |prefix|
      invariant forall i :: n <= i < |prefix| ==> prefix[i] == 255
    {
      n := n - 1;
    }
    if n == 0 {
      end := None;
      forall key: Bytes
        ensures prefix <= key <==> InDomain(key, prefix, end)
      {
        MaxPrefix(prefix, key);
      }
    } else {
      end := Some(prefix[..n - 1] + [prefix[n - 1] + 1]);
      forall key: Bytes
        ensures prefix <= key <==> InDomain(key, prefix, end)
      {
        PrefixBounds(prefix, n, key);
      }
    }
  }

  // The contents under a prefix

  /** What a map holds under a prefix, with the prefix removed from the keys. */
  ghost function Under(prefix: Bytes, m: Contents): Contents {
    map s | s in (set k | k in m && prefix <= k :: k[|prefix|..]) && prefix + s in m :: m[prefix + s]
  }

  /** What a map holds outside a prefix. */
  ghost function Outside(prefix: Bytes, m: Contents): Contents {
    map k | k in m && !(prefix <= k) :: m[k]
  }

  lemma UnderBinds(prefix: Bytes, m: Contents, s: Bytes)
    ensures s in Under(prefix, m) <==> prefix + s in m
    ensures s in Under(prefix, m) ==> Under(prefix, m)[s] == m[prefix + s]
  {
    var k := prefix + s;
    assert k[|prefix|..] == s;
    if k in m {
      assert prefix <= k;
      assert s in set k | k in m && prefix <= k :: k[|prefix|..];
    }
  }

  lemma SameSuffix(prefix: Bytes, r: Bytes, s: Bytes)
    ensures prefix + r == prefix + s <==> r == s
  {
    assert (prefix + r)[|prefix|..] == r && (prefix + s)[|prefix|..] == s;
  }

  lemma UnderPut(prefix: Bytes, m: Contents, s: Bytes, v: Bytes)
    ensures Under(prefix, m[prefix + s := v]) == Under(prefix, m)[s := v]
    ensures Outside(prefix, m[prefix + s := v]) == Outside(prefix, m)
  {
    hide Under;
    var after, expected := Under(prefix, m[prefix + s := v]), Under(prefix, m)[s := v];
    forall r: Bytes
      ensures r in after <==> r in expected
      ensures r in after ==> after[r] == expected[r]
    {
      SameSuffix(prefix, r, s);
      UnderBinds(prefix, m, r);
      UnderBinds(prefix, m[prefix + s := v], r);
    }
  }

  lemma UnderDelete(prefix: Bytes, m: Contents, s: Bytes)
    ensures Under(prefix, m - {prefix + s}) == Under(prefix, m) - {s}
    ensures Outside(prefix, m - {prefix + s}) == Outside(prefix, m)
  {
    hide Under;
    var after, expected := Under(prefix, m - {prefix + s}), Under(prefix, m) - {s};
    forall r: Bytes
      ensures r in after <==> r in expected
      ensures r in after ==> after[r] == expected[r]
    {
      SameSuffix(prefix, r, s);
      UnderBinds(prefix, m, r);
      UnderBinds(prefix, m - {prefix + s}, r);
    }
  }

  lemma PrefixesNest(p: Bytes, q: Bytes, k: Bytes)
    requires p <= k && q <= k
    ensures p <= q || q <= p
  {
  }

  /** Stores under prefixes of which neither extends the other do not affect each other: what is
      outside one holds everything under the other. */
  lemma Incomparable(p: Bytes, q: Bytes, m: Contents, n: Contents)
    requires !(p <= q) && !(q <= p) && Outside(p, m) == Outside(p, n)
    ensures Under(q, m) == Under(q, n)
  {
    hide Under;
    forall s: Bytes
      ensures s in Under(q, m) <==> s in Under(q, n)
      ensures s in Under(q, m) ==> Under(q, m)[s] == Under(q, n)[s]
    {
      UnderBinds(q, m, s);
      UnderBinds(q, n, s);
      if p <= q + s {
        PrefixesNest(p, q, q + s);
      }
      assert q + s in m <==> q + s in Outside(p, m);
      assert q + s in n <==> q + s in Outside(p, n);
    }
  }

  // The range of an iteration under a prefix

  /** The end of the parent's range. */
  ghost predicate EndsAt(prefix: Bytes, end: Option<Bytes>, newEnd: Option<Bytes>) {
    match end
    case Some(e) => newEnd == Some(prefix + e)
    case None => forall key: Bytes :: prefix <= key <==> InDomain(key, prefix, newEnd)
  }

  lemma {:induction false} NotBelowPrefix(prefix: Bytes, s: Bytes)
    ensures !Less(prefix + s, prefix)
  {
    assert prefix + [] == prefix;
    CompareCommonPrefix(prefix, s, []);
  }

  /** A key with the prefix is in the parent's range exactly if the rest of it is in the range. */
  lemma SuffixInRange(prefix: Bytes, start: Bytes, end: Option<Bytes>, newEnd: Option<Bytes>, s: Bytes)
    requires EndsAt(prefix, end, newEnd)
    ensures InDomain(prefix + s, prefix + start, newEnd) <==> InDomain(s, start, end)
  {
    CompareCommonPrefix(prefix, s, start);
    match end {
      case Some(e) => CompareCommonPrefix(prefix, s, e);
      case None => assert prefix <= prefix + s <==> InDomain(prefix + s, prefix, newEnd);
    }
  }

  lemma AtLeastPrefix(prefix: Bytes, start: Bytes, key: Bytes)
    requires !Less(key, prefix + start)
    ensures !Less(key, prefix)
  {
    hide Compare;
    NotBelowPrefix(prefix, start);
    if Less(key, prefix) {
      CompareFlips(prefix + start, prefix);
      if prefix + start != prefix {
        LessTransitive(key, prefix, prefix + start);
      }
    }
  }

  lemma {:induction false} BelowExtension(prefix: Bytes, e: Bytes, key: Bytes)
    requires !Less(key, prefix) && Less(key, prefix + e)
    ensures prefix <= key
  {
    if prefix != [] && key != [] {
      assert (prefix + e)[1..] == prefix[1..] + e;
      BelowExtension(prefix[1..], e, key[1..]);
      HeadPrefix(prefix, key);
    }
  }

  /** The parent's range holds only keys with the prefix. */
  lemma RangeHasPrefix(prefix: Bytes, start: Bytes, end: Option<Bytes>, newEnd: Option<Bytes>, key: Bytes)
    requires EndsAt(prefix, end, newEnd) && InDomain(key, prefix + start, newEnd)
    ensures prefix <= key
  {
    hide Less;
    AtLeastPrefix(prefix, start, key);
    match end {
      case Some(e) => BelowExtension(prefix, e, key);
      case None => assert InDomain(key, prefix, newEnd);
    }
  }

  ghost predicate AllUnder<V>(prefix: Bytes, pairs: seq<Pair<V>>) {
    forall i :: 0 <= i < |pairs| ==> prefix <= pairs[i].key
  }

  function Stripped<V>(prefix: Bytes, pairs: seq<Pair<V>>): seq<Pair<V>>
    requires AllUnder(prefix, pairs)
  {
    seq(|pairs|, i requires 0 <= i < |pairs| => Pair(pairs[i].key[|prefix|..], pairs[i].value))
  }

  lemma StripOrdered<V>(prefix: Bytes, pairs: seq<Pair<V>>, ascending: bool)
    requires AllUnder(prefix, pairs) && Ordered(pairs, ascending)
    ensures Ordered(Stripped(prefix, pairs), ascending)
  {
    var r := Stripped(prefix, pairs);
    forall i, j | 0 <= i < j < |r|
      ensures Before(ascending, r[i].key, r[j].key)
    {
      assert pairs[i].key == prefix + r[i].key && pairs[j].key == prefix + r[j].key;
      CompareCommonPrefix(prefix, r[i].key, r[j].key);
      CompareCommonPrefix(prefix, r[j].key, r[i].key);
      assert Before(ascending, pairs[i].key, pairs[j].key);
    }
  }

  /** The parent's range, stripped, is the range of what is under the prefix. */
  lemma StrippedRange(prefix: Bytes, m: Contents, start: Bytes, end: Option<Bytes>, newEnd: Option<Bytes>,
                      ascending: bool)
    requires EndsAt(prefix, end, newEnd)
    ensures var pairs := Listed(Window(m, prefix + start, newEnd), ascending);
            && AllUnder(prefix, pairs)
            && Stripped(prefix, pairs) == Listed(Window(Under(prefix, m), start, end), ascending)
  {
    hide Before, EndsAt, InDomain, Listed, Ordered, Under;
    var w, u := Window(m, prefix + start, newEnd), Window(Under(prefix, m), start, end);
    var pairs := Listed(w, ascending);
    ListedOrdered(w, ascending);
    forall i | 0 <= i < |pairs|
      ensures prefix <= pairs[i].key
    {
      RangeHasPrefix(prefix, start, end, newEnd, pairs[i].key);
    }
    StripOrdered(prefix, pairs, ascending);
    StripBinds(prefix, m, start, end, newEnd, pairs);
    ListedUnique(Stripped(prefix, pairs), u, ascending);
  }

  lemma StripBinds(prefix: Bytes, m: Contents, start: Bytes, end: Option<Bytes>, newEnd: Option<Bytes>,
                   pairs: seq<Pair<Bytes>>)
    requires EndsAt(prefix, end, newEnd) && AllUnder(prefix, pairs)
    requires Binds(pairs, Window(m, prefix + start, newEnd))
    ensures Binds(Stripped(prefix, pairs), Window(Under(prefix, m), start, end))
  {
    hide EndsAt, InDomain, Under;
    var w, u, r := Window(m, prefix + start, newEnd), Window(Under(prefix, m), start, end), Stripped(prefix, pairs);
    forall i | 0 <= i < |r|
      ensures r[i].key in u && u[r[i].key] == r[i].value
    {
      var s := r[i].key;
      assert pairs[i].key == prefix + s;
      UnderBinds(prefix, m, s);
      SuffixInRange(prefix, start, end, newEnd, s);
    }
    forall s | s in u
      ensures Pair(s, u[s]) in r
    {
      UnderBinds(prefix, m, s);
      SuffixInRange(prefix, start, end, newEnd, s);
      var i :| 0 <= i < |pairs| && pairs[i] == Pair(prefix + s, w[prefix + s]);
      assert r[i] == Pair(s, u[s]);
    }
  }

  /** The pairs of a list up to the first key without the prefix, stripped. */
  function Leading<V>(prefix: Bytes, pairs: seq<Pair<V>>): seq<Pair<V>> {
    if pairs == [] || !(prefix <= pairs[0].key) then []
    else [Pair(pairs[0].key[|prefix|..], pairs[0].value)] + Leading(prefix, pairs[1..])
  }

  lemma {:induction false} LeadingIsAll<V>(prefix: Bytes, pairs: seq<Pair<V>>)
    requires AllUnder(prefix, pairs)
    ensures Leading(prefix, pairs) == Stripped(prefix, pairs)
  {
    if pairs != [] {
      LeadingIsAll(prefix, pairs[1..]);
    }
  }

  /** Prefixes compose: what lies under one prefix in what lies under another lies under both together. */
  lemma UnderUnder(p: Bytes, q: Bytes, m: Contents)
    ensures Under(p, Under(q, m)) == Under(q + p, m)
  {
    hide Under;
    forall s: Bytes
      ensures s in Under(p, Under(q, m)) <==> s in Under(q + p, m)
      ensures s in Under(p, Under(q, m)) ==> Under(p, Under(q, m))[s] == Under(q + p, m)[s]
    {
      UnderBinds(p, Under(q, m), s);
      UnderBinds(q, m, p + s);
      UnderBinds(q + p, m, s);
      assert q + (p + s) == q + p + s;
    }
  }
}
