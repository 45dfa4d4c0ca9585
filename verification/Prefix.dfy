/** store/prefix/store.go and store/types/utils.go: stores under prefixes of the same store. */
module Prefix {
  import opened Basics
  import opened ByteOrder
  import opened Listing
  import opened MergeSpec
  import opened PrefixSpec
  import opened Iterators
  import opened KVStores
  import opened Nesting

  /** Any program on one of two stores under incomparable prefixes of the same parent is invisible to the other,
      whatever wraps it opens. */
  method Beside(a: PrefixStore, b: PrefixStore, p: Program) returns (answers: seq<Answer>)
    requires a.parent == b.parent && a.Sound() && b.Sound() && !(a.prefix <= b.prefix) && !(b.prefix <= a.prefix)
    modifies a.Repr
    ensures a.Sound() && answers == Replies(old(a.View()), p) && a.View() == Replay(old(a.View()), p)
    ensures b.Sound() && b.View() == old(b.View())
  {
    hide KVStore.Levels, KVStore.Sound, Outside, Under, Replay, Replies;
    ghost var before := a.parent.View();
    answers := RunOn(a, p);
    Incomparable(a.prefix, b.prefix, before, a.parent.View());
  }

  method RunOn(a: PrefixStore, p: Program) returns (answers: seq<Answer>)
    requires a.Sound()
    modifies a.Repr
    ensures a.Sound() && answers == Replies(old(a.View()), p) && a.View() == Replay(old(a.View()), p)
    ensures Outside(a.prefix, a.parent.View()) == old(Outside(a.prefix, a.parent.View()))
  {
    hide Outside, Under, Replay, Replies;
    var store := Prefixed(a);
    assert store.Levels()[1] == Outside(a.prefix, a.parent.View());
    answers := Run(store, p);
    assert store.Levels()[1] == Outside(a.prefix, a.parent.View());
  }

  /** The part under p of the part under q is the part under both. */
  method PartOfPart(parent: KVStore, q: Bytes, p: Bytes) returns (part: PrefixStore)
    requires parent.Sound()
    ensures fresh(part) && part.Sound() && part.View() == Under(q + p, parent.View())
  {
    hide KVStore.Levels, KVStore.Sound, Under, Outside;
    var outer := new PrefixStore(parent, q);
    UnderUnder(p, q, parent.View());
    part := Inside(outer, p);
  }

  method Inside(outer: PrefixStore, p: Bytes) returns (part: PrefixStore)
    requires outer.Sound()
    ensures fresh(part) && part.Sound() && part.View() == Under(p, outer.View())
  {
    hide Under, Outside, PrefixStore.Levels, PrefixStore.Sound;
    part := new PrefixStore(Prefixed(outer), p);
  }

  /** The bindings of a map whose keys have the prefix. */
  ghost function With(prefix: Bytes, m: Contents): Contents {
    map k | k in m && prefix <= k :: m[k]
  }

  /** KVStorePrefixIterator and KVStoreReversePrefixIterator: all keys with the prefix, in order. */
  method KVStorePrefixIterator(s: KVStore, prefix: Bytes, ascending: bool) returns (it: Source)
    requires s.Sound()
    modifies s.Repr()
    ensures s.Sound() && s.Levels() == old(s.Levels())
    ensures fresh(it.Repr()) && it.Sound() && it.Remaining() == Listed(With(prefix, s.View()), ascending)
  {
    hide KVStore.Levels, KVStore.Sound, Listed, InDomain, Source.Remaining, Source.Sound;
    var end := PrefixEndBytes(prefix);
    assert Window(s.View(), prefix, end) == With(prefix, s.View());
    it := s.Iterator(prefix, end, ascending);
  }
}
