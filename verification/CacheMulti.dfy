/** store/cachemulti/store.go: one write buffer per mounted store. */
module CacheMulti {
  import opened Basics
  import opened ByteOrder
  import opened Listing
  import opened MergeSpec
  import opened MountedStores
  import opened CacheKV
  import opened KVStores
  import opened Nesting

  /** The key a store is mounted under. */
  type StoreKey = string

  /** The contents of every store. */
  type MultiView = map<StoreKey, Contents>

  /** One call on the store with the given key. */
  datatype MultiOp = MultiOp(store: StoreKey, op: Op)

  /** What a call does to plain contents. A call on a store that is not mounted panics. */
  function AppliedTo(view: MultiView, op: MultiOp): Result<MultiView> {
    if op.store in view then Ok(view[op.store := Applied(view[op.store], op.op)]) else Panic
  }

  /** Calls in order up to the first panic; the flag tells that there was none. */
  function Performed(view: MultiView, ops: seq<MultiOp>): (MultiView, bool)
    decreases |ops|
  {
    if ops == [] then
      (view, true)
    else
      match AppliedTo(view, ops[0])
      case Ok(next) => Performed(next, ops[1..])
      case Panic => (view, false)
  }

  /** The calls that go to one store, in order. */
  function OpsOn(ops: seq<MultiOp>, k: StoreKey): seq<Op> {
    if ops == [] then []
    else (if ops[0].store == k then [ops[0].op] else []) + OpsOn(ops[1..], k)
  }

  /** Calls complete exactly if every one goes to a mounted store. */
  lemma {:induction false} PerformedCompletes(view: MultiView, ops: seq<MultiOp>)
    ensures Performed(view, ops).1 <==> forall i :: 0 <= i < |ops| ==> ops[i].store in view
    ensures Performed(view, ops).0.Keys == view.Keys
    decreases |ops|
  {
    hide Applied;
    if ops != [] && ops[0].store in view {
      PerformedCompletes(view[ops[0].store := Applied(view[ops[0].store], ops[0].op)], ops[1..]);
      assert forall i :: 0 < i < |ops| ==> ops[i] == ops[1..][i - 1];
    }
  }

  /** Each store then holds what its own calls, in order, make of it. */
  lemma {:induction false} PerformedPerStore(view: MultiView, ops: seq<MultiOp>, k: StoreKey)
    requires k in view && Performed(view, ops).1
    ensures k in Performed(view, ops).0 && Performed(view, ops).0[k] == ApplyAll(view[k], OpsOn(ops, k))
    decreases |ops|
  {
    hide Applied;
    if ops != [] {
      PerformedPerStore(view[ops[0].store := Applied(view[ops[0].store], ops[0].op)], ops[1..], k);
      assert ops[0].store == k ==> OpsOn(ops, k)[1..] == OpsOn(ops[1..], k);
      assert ops[0].store != k ==> OpsOn(ops, k) == OpsOn(ops[1..], k);
    }
  }

  method OverMounted(m: MountedStore) returns (s: Store)
    ensures fresh(s) && WrapsMounted(s, m)
  {
    hide Store.Below, Store.Levels, Store.Linked, Store.Sound;
    s := new Store(Mounted(m));
  }

  method OverStore(p: Store) returns (s: Store)
    requires p.Sound()
    ensures fresh(s) && WrapsStore(s, p)
  {
    hide Store.Below, Store.Levels, Store.Linked, Store.Sound;
    s := new Store(Wrapped(p));
  }

  method DoOn(s: Store, op: Op)
    requires s.Sound()
    modifies s.Repr
    ensures s.Sound() && s.Levels() == old(s.Levels())[0 := Applied(old(s.View()), op)]
  {
    hide Store.Below, Store.Levels, Store.Linked, Store.Sound, Applied, Answered;
    var answer := Do(Wrapped(s), op);
  }

  /** A new, empty buffer over each store at the bottom of the stack. */
  method WrapMounted(mounts: map<StoreKey, MountedStore>) returns (stores: map<StoreKey, Store>)
    ensures stores.Keys == mounts.Keys
    ensures forall k :: k in stores ==> fresh(stores[k]) && WrapsMounted(stores[k], mounts[k])
  {
    hide WrapsMounted;
    stores := map[];
    var todo := mounts.Keys;
    while todo != {}
      invariant todo <= mounts.Keys && stores.Keys == mounts.Keys - todo
      invariant forall k :: k in stores ==> fresh(stores[k]) && WrapsMounted(stores[k], mounts[k])
      decreases |todo|
    {
      var key :| key in todo;
      var store := OverMounted(mounts[key]);
      stores := stores[key := store];
      todo := todo - {key};
    }
  }

  ghost predicate WrapsMounted(s: Store, m: MountedStore)
    reads s, s.Repr, m
  {
    && s.Repr == {s, m} && s.parent == Mounted(m) && s.Sound()
    && s.Levels() == [m.data, m.data]
  }

  /** A new, empty buffer over each buffer. */
  method WrapStores(parents: map<StoreKey, Store>) returns (stores: map<StoreKey, Store>)
    requires forall k :: k in parents ==> parents[k].Sound()
    ensures stores.Keys == parents.Keys
    ensures forall k :: k in stores ==> fresh(stores[k]) && WrapsStore(stores[k], parents[k])
  {
    hide Store.Sound, WrapsStore;
    stores := map[];
    var todo := parents.Keys;
    while todo != {}
      invariant todo <= parents.Keys && stores.Keys == parents.Keys - todo
      invariant forall k :: k in todo ==> parents[k].Sound()
      invariant forall k :: k in stores ==> fresh(stores[k]) && WrapsStore(stores[k], parents[k])
      decreases |todo|
    {
      var key :| key in todo;
      var store := OverStore(parents[key]);
      stores := stores[key := store];
      todo := todo - {key};
    }
  }

  ghost predicate WrapsStore(s: Store, p: Store)
    reads s, s.Repr, p, p.Repr
  {
    && s.Repr == {s} + p.Repr && s.parent == Wrapped(p) && s.Sound() && p.Sound()
    && s.Levels() == [p.View()] + p.Levels()
  }

  /** Per store, the contents of every level of its stack, the top first. */
  type Stacks = map<StoreKey, seq<Contents>>

  ghost predicate Deep(f: Stacks) {
    forall k :: k in f ==> |f[k]| > 1
  }

  ghost function Tops(f: Stacks): (view: MultiView)
    requires Deep(f)
    ensures view.Keys == f.Keys
  {
    map k | k in f :: f[k][0]
  }

  ghost function Unders(f: Stacks): (lower: Stacks)
    requires Deep(f)
    ensures lower.Keys == f.Keys
  {
    map k | k in f :: f[k][1..]
  }

  /** The stacks after writing the top level of those in done into the one below it. */
  ghost function WriteAfter(f: Stacks, done: set<StoreKey>): (after: Stacks)
    requires Deep(f)
    ensures after.Keys == f.Keys && Deep(after)
  {
    map k | k in f :: if k in done then f[k][1 := f[k][0]] else f[k]
  }

  lemma WriteStep(f: Stacks, done: set<StoreKey>, k: StoreKey)
    requires Deep(f) && k in f && k !in done
    ensures WriteAfter(f, done)[k] == f[k]
    ensures WriteAfter(f, done + {k}) == WriteAfter(f, done)[k := f[k][1 := f[k][0]]]
  {
  }

  /** The levels under the top after writing the view into the first of them. */
  ghost function WrittenDown(view: MultiView, lower: Stacks): Stacks
    requires lower.Keys <= view.Keys && forall k :: k in lower ==> lower[k] != []
  {
    map k | k in lower :: lower[k][0 := view[k]]
  }

  /** After a write the levels below start with the view, and what was under them is untouched. */
  lemma WrittenTops(view: MultiView, lower: Stacks)
    requires lower.Keys == view.Keys && Deep(lower)
    ensures var w := WrittenDown(view, lower);
            Deep(w) && Tops(w) == view && Unders(w) == Unders(lower)
  {
    var w := WrittenDown(view, lower);
    assert forall k :: k in lower ==> w[k][1..] == lower[k][1..];
  }

  lemma WriteEnds(f: Stacks)
    requires Deep(f)
    ensures WriteAfter(f, {}) == f
    ensures Tops(WriteAfter(f, f.Keys)) == Tops(f)
    ensures forall k :: k in Unders(f) ==> Unders(f)[k] != []
    ensures Unders(WriteAfter(f, f.Keys)) == WrittenDown(Tops(f), Unders(f))
  {
  }

  /** Changing the top of one stack changes the view there and nothing below. */
  lemma SetTop(f: Stacks, k: StoreKey, top: Contents)
    requires Deep(f) && k in f
    ensures var g := f[k := f[k][0 := top]];
            Deep(g) && Tops(g) == Tops(f)[k := top] && Unders(g) == Unders(f)
  {
    var g := f[k := f[k][0 := top]];
    assert Unders(g)[k] == Unders(f)[k];
  }

  class MultiStore {
    const stores: map<StoreKey, Store>

    ghost function Objects(): set<object> {
      set k, o | k in stores && o in stores[k].Repr :: o
    }

    ghost predicate Sound()
      reads Objects()
    {
      && (forall k :: k in stores ==> stores[k] in stores[k].Repr && stores[k].Sound())
      && (forall j, k :: j in stores && k in stores && j != k ==> stores[j].Repr !! stores[k].Repr)
    }

    ghost function Full(): (f: Stacks)
      requires Sound()
      reads Objects()
      ensures f.Keys == stores.Keys && Deep(f)
    {
      map k | k in stores :: stores[k].Levels()
    }

    /** The contents seen through the buffers. */
    ghost function View(): (view: MultiView)
      requires Sound()
      reads Objects()
      ensures view.Keys == stores.Keys
    {
      Tops(Full())
    }

    /** The contents of every level under the buffers. */
    ghost function Lower(): (lower: Stacks)
      requires Sound()
      reads Objects()
      ensures lower.Keys == stores.Keys && forall k :: k in lower ==> lower[k] != []
    {
      Unders(Full())
    }

    /** Each buffer stands on the mounted store of the same key. */
    ghost predicate OnMounts(mounts: map<StoreKey, MountedStore>) {
      && stores.Keys == mounts.Keys
      && (forall k :: k in stores ==>
            stores[k].parent == Mounted(mounts[k]) && stores[k].Repr == {stores[k], mounts[k]})
      && (forall j, k :: j in mounts && k in mounts && j != k ==> mounts[j] != mounts[k])
    }

    /** Each buffer stands on the buffer of the same key. */
    ghost predicate OnMulti(parent: MultiStore) {
      && stores.Keys == parent.stores.Keys
      && (forall k :: k in stores ==>
            && stores[k].parent == Wrapped(parent.stores[k])
            && stores[k].Repr == {stores[k]} + parent.stores[k].Repr)
      && (forall j, k :: j in stores && k in stores && j != k ==> parent.stores[j].Repr !! parent.stores[k].Repr)
    }

    /** rootmulti's CacheMultiStore: a buffer over every mounted store. */
    constructor OfMounts(mounts: map<StoreKey, MountedStore>)
      requires forall j, k :: j in mounts && k in mounts && j != k ==> mounts[j] != mounts[k]
      ensures forall k :: k in stores ==> fresh(stores[k])
      ensures OnMounts(mounts) && Sound()
      ensures Full() == map k | k in mounts :: [mounts[k].data, mounts[k].data]
    {
      hide Full, OnMounts, Sound, WrapsMounted;
      var wraps := WrapMounted(mounts);
      stores := wraps;
      new;
      MountsWrapped(this, mounts);
    }

    /** cachemulti's CacheMultiStore: a buffer over every buffer. */
    constructor OfMulti(parent: MultiStore)
      requires parent.Sound()
      ensures forall k :: k in stores ==> fresh(stores[k])
      ensures OnMulti(parent) && Sound()
      ensures View() == old(parent.View()) && Lower() == old(parent.Full())
      ensures forall o :: o in Objects() ==> o in parent.Objects() || fresh(o)
    {
      hide WrapsStore, Full, OnMulti, Store.Below, Store.Levels, Store.Linked, Store.Sound;
      ghost var f := parent.Full();
      FullMeans(parent, f);
      var wraps := WrapStores(parent.stores);
      stores := wraps;
      new;
      assert parent.Sound() && forall k :: k in f ==> parent.stores[k].Levels() == f[k];
      FullMeans(parent, f);
      hide Objects, Sound;
      StoresWrapped(this, parent);
      WrapObjects(this, parent);
    }

    method WriteOne(key: StoreKey)
      requires Sound() && key in stores
      modifies stores[key].Repr
      ensures Sound() && Full() == old(Full()[key := Full()[key][1 := Full()[key][0]]])
    {
      hide Store.Below, Store.Levels, Store.Linked, Store.Sound;
      stores[key].Write();
    }

    method DoOne(op: MultiOp)
      requires Sound() && op.store in stores
      modifies stores[op.store].Repr
      ensures Sound() && Full() == old(Full()[op.store := Full()[op.store][0 := Applied(Full()[op.store][0], op.op)]])
    {
      hide Store.Below, Store.Levels, Store.Linked, Store.Sound, Applied, Answered;
      DoOn(stores[op.store], op.op);
    }

    method ReadOne(key: StoreKey) returns (m: Contents)
      requires Sound() && key in stores
      modifies stores[key].Repr
      ensures Sound() && Full() == old(Full()) && m == Full()[key][0]
    {
      hide Store.Below, Store.Levels, Store.Linked, Store.Sound;
      m := ReadAll(Wrapped(stores[key]));
    }

    /** Everything that can be read through the buffers. */
    method Snapshot() returns (view: MultiView)
      requires Sound()
      modifies Objects()
      ensures Sound() && Full() == old(Full()) && view == View()
    {
      hide Deep, Full, Restricted, Sound, Tops;
      hide Store.Below, Store.Levels, Store.Linked, Store.Sound;
      view := map[];
      RestrictedEnds(View());
      var done := {};
      while done != stores.Keys
        invariant done <= stores.Keys && Sound() && Full() == old(Full())
        invariant view == Restricted(View(), done)
        decreases |stores.Keys - done|
      {
        var key :| key in stores && key !in done;
        OneLess(stores.Keys, done, key);
        TopAt(Full(), key);
        RestrictedStep(View(), done, key);
        var m := ReadOne(key);
        view := view[key := m];
        done := done + {key};
      }
    }

    /** Writes every buffer into its parent. */
    method Write()
      requires Sound()
      modifies Objects()
      ensures Sound() && View() == old(View()) && Lower() == WrittenDown(old(View()), old(Lower()))
    {
      hide Deep, Full, Sound, Tops, Unders, WriteAfter, WrittenDown;
      hide Store.Below, Store.Levels, Store.Linked, Store.Sound;
      ghost var f := Full();
      WriteEnds(f);
      var done := {};
      while done != stores.Keys
        invariant done <= stores.Keys && Sound() && Full() == WriteAfter(f, done)
        decreases |stores.Keys - done|
      {
        var key :| key in stores && key !in done;
        OneLess(stores.Keys, done, key);
        WriteStep(f, done, key);
        WriteOne(key);
        done := done + {key};
      }
    }

    /** Performs calls in order; the flag is false if one of them panicked. Nothing below the buffers changes. */
    method Perform(ops: seq<MultiOp>) returns (ok: bool)
      requires Sound()
      modifies Objects()
      ensures Sound()
      ensures (View(), ok) == Performed(old(View()), ops) && Lower() == old(Lower())
    {
      hide Applied, Deep, Full, Sound, Tops, Unders;
      hide Store.Below, Store.Levels, Store.Linked, Store.Sound;
      ok := true;
      var n := 0;
      while n < |ops| && ok
        invariant 0 <= n <= |ops| && Sound() && Lower() == old(Lower())
        invariant (if ok then Performed(View(), ops[n..]) else (View(), false)) == Performed(old(View()), ops)
        decreases ok, |ops| - n
      {
        assert ops[n..][0] == ops[n] && ops[n..][1..] == ops[n + 1..];
        if ops[n].store !in stores {
          ok := false;
        } else {
          SetTop(Full(), ops[n].store, Applied(View()[ops[n].store], ops[n].op));
          TopAt(Full(), ops[n].store);
          DoOne(ops[n]);
          n := n + 1;
        }
      }
    }
  }

  function Restricted(view: MultiView, keys: set<StoreKey>): MultiView {
    map k | k in view && k in keys :: view[k]
  }

  lemma RestrictedEnds(view: MultiView)
    ensures Restricted(view, {}) == map[] && Restricted(view, view.Keys) == view
  {
  }

  lemma RestrictedStep(view: MultiView, keys: set<StoreKey>, k: StoreKey)
    requires k in view
    ensures Restricted(view, keys + {k}) == Restricted(view, keys)[k := view[k]]
  {
  }

  lemma TopAt(f: Stacks, k: StoreKey)
    requires Deep(f) && k in f
    ensures |f[k]| > 1 && Tops(f)[k] == f[k][0]
  {
  }

  lemma MountsWrapped(ms: MultiStore, mounts: map<StoreKey, MountedStore>)
    requires ms.stores.Keys == mounts.Keys
    requires forall j, k :: j in mounts && k in mounts && j != k ==> mounts[j] != mounts[k]
    requires forall k :: k in mounts ==> WrapsMounted(ms.stores[k], mounts[k])
    ensures ms.OnMounts(mounts) && ms.Sound()
    ensures ms.Full() == map k | k in mounts :: [mounts[k].data, mounts[k].data]
  {
    hide Store.Below, Store.Levels, Store.Linked, Store.Sound;
    forall j, k | j in mounts && k in mounts && j != k
      ensures ms.stores[j].Repr !! ms.stores[k].Repr
    {
      assert mounts[j] != mounts[k];
      assert ms.stores[j].parent != ms.stores[k].parent;
    }
  }

  lemma StoresWrapped(ms: MultiStore, parent: MultiStore)
    requires ms.stores.Keys == parent.stores.Keys && parent.Sound()
    requires forall k :: k in parent.stores ==> WrapsStore(ms.stores[k], parent.stores[k])
    requires forall j, k :: j in parent.stores && k in parent.stores ==> ms.stores[j] !in parent.stores[k].Repr
    ensures ms.OnMulti(parent) && ms.Sound()
    ensures ms.View() == parent.View() && ms.Lower() == parent.Full()
  {
    hide Store.Below, Store.Levels, Store.Linked, Store.Sound;
    WrapsDisjoint(ms, parent);
    var f, g := ms.Full(), parent.Full();
    assert forall k :: k in g ==> f[k] == [g[k][0]] + g[k];
    assert Tops(f) == Tops(g) && Unders(f) == g by {
      hide *;
      WrapLevels(f, g);
    }
  }

  lemma WrapLevels(f: Stacks, g: Stacks)
    requires Deep(g) && f.Keys == g.Keys && forall k :: k in g ==> f[k] == [g[k][0]] + g[k]
    ensures Deep(f) && Tops(f) == Tops(g) && Unders(f) == g
  {
  }

  lemma WrapsDisjoint(ms: MultiStore, parent: MultiStore)
    requires ms.stores.Keys == parent.stores.Keys && parent.Sound()
    requires forall k :: k in parent.stores ==> WrapsStore(ms.stores[k], parent.stores[k])
    requires forall j, k :: j in parent.stores && k in parent.stores ==> ms.stores[j] !in parent.stores[k].Repr
    ensures ms.OnMulti(parent) && ms.Sound()
  {
    hide Store.Below, Store.Levels, Store.Linked, Store.Sound;
    forall j, k | j in parent.stores && k in parent.stores && j != k
      ensures ms.stores[j].Repr !! ms.stores[k].Repr
    {
      assert parent.stores[j] in parent.stores[j].Repr && parent.stores[j] !in parent.stores[k].Repr;
      assert ms.stores[j].parent != ms.stores[k].parent;
    }
  }

  lemma FullMeans(ms: MultiStore, f: Stacks)
    requires ms.Sound()
    ensures f == ms.Full() <==> f.Keys == ms.stores.Keys && forall k :: k in f ==> f[k] == ms.stores[k].Levels()
  {
  }

  lemma WrapObjects(ms: MultiStore, parent: MultiStore)
    requires ms.OnMulti(parent)
    ensures forall o :: o in ms.Objects() ==> o in parent.Objects() || exists k :: k in ms.stores && o == ms.stores[k]
  {
  }

  /** What lies under a buffer over a multi-store is that multi-store. */
  lemma UnderMulti(ms: MultiStore, parent: MultiStore)
    requires ms.OnMulti(parent) && ms.Sound()
    ensures parent.Sound() && parent.Full() == ms.Lower()
  {
    hide Store.Below, Store.Levels, Store.Linked, Store.Sound;
    forall k | k in parent.stores
      ensures parent.stores[k].Sound() && parent.stores[k].Levels() == ms.stores[k].Levels()[1..]
    {
      assert ms.stores[k].Sound();
      OnBuffer(ms.stores[k], parent.stores[k]);
    }
  }

  // A multi-store over the mounted stores depends on its own buffers and the mounted contents only.

  datatype Buffer = Buffer(cache: Cache, unsorted: set<Bytes>, sorted: seq<Pair<Option<Bytes>>>)

  ghost function Buffers(ms: MultiStore): (b: map<StoreKey, Buffer>)
    reads set k | k in ms.stores :: ms.stores[k]
    ensures b.Keys == ms.stores.Keys
  {
    map k | k in ms.stores :: Buffer(ms.stores[k].cache, ms.stores[k].unsortedCache, ms.stores[k].sortedCache)
  }

  ghost function Data(mounts: map<StoreKey, MountedStore>): (d: MultiView)
    reads set k | k in mounts :: mounts[k]
    ensures d.Keys == mounts.Keys
  {
    map k | k in mounts :: mounts[k].data
  }

  ghost predicate AllCoherent(b: map<StoreKey, Buffer>, d: MultiView)
    requires b.Keys == d.Keys
  {
    forall k :: k in b ==> Coherent(b[k].cache, b[k].unsorted, b[k].sorted, d[k])
  }

  ghost function AllLevels(b: map<StoreKey, Buffer>, d: MultiView): (f: Stacks)
    requires b.Keys == d.Keys
    ensures f.Keys == d.Keys && Deep(f)
  {
    map k | k in b :: [Overlay(d[k], Dirty(b[k].cache)), d[k]]
  }

  /** The lower level determines the mounted contents. */
  lemma LevelsShowData(b: map<StoreKey, Buffer>, d: MultiView, b': map<StoreKey, Buffer>, d': MultiView)
    requires b.Keys == d.Keys && b'.Keys == d'.Keys
    requires Unders(AllLevels(b, d)) == Unders(AllLevels(b', d'))
    ensures d == d'
  {
    assert d.Keys == Unders(AllLevels(b, d)).Keys;
    forall k | k in d
      ensures k in d' && d[k] == d'[k]
    {
      assert Unders(AllLevels(b, d))[k] == [d[k]];
      assert Unders(AllLevels(b', d'))[k] == [d'[k]];
    }
  }

  lemma StoreOnMounted(s: Store, m: MountedStore)
    requires s.parent == Mounted(m) && s.Repr == {s, m}
    ensures s.Sound() <==> Coherent(s.cache, s.unsortedCache, s.sortedCache, m.data)
    ensures s.Sound() ==> s.Levels() == [Overlay(m.data, Dirty(s.cache)), m.data]
  {
    hide Coherent;
    assert s as object != m as object;
    assert s.parent.Repr() == {m} == s.Repr - {s};
    assert s.Linked() && s.Below() == [m.data];
  }

  lemma MultiOnMounts(ms: MultiStore, mounts: map<StoreKey, MountedStore>)
    requires ms.OnMounts(mounts)
    ensures ms.Sound() <==> AllCoherent(Buffers(ms), Data(mounts))
    ensures ms.Sound() ==> ms.Full() == AllLevels(Buffers(ms), Data(mounts))
  {
    hide Coherent, Dirty, Overlay, Store.Below, Store.Levels, Store.Linked, Store.Sound;
    forall k | k in mounts
      ensures var s := ms.stores[k];
              && (s.Sound() <==> Coherent(s.cache, s.unsortedCache, s.sortedCache, mounts[k].data))
              && (s.Sound() ==> s.Levels() == [Overlay(mounts[k].data, Dirty(s.cache)), mounts[k].data])
    {
      StoreOnMounted(ms.stores[k], mounts[k]);
    }
    forall j, k | j in mounts && k in mounts && j != k
      ensures ms.stores[j].Repr !! ms.stores[k].Repr
    {
      assert ms.stores[j].parent != ms.stores[k].parent;
    }
  }
}
