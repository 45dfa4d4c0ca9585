/** store/rootmulti/store.go: the mounted stores, committed together, and what is persisted about them. */
module RootMulti {
  import opened Basics
  import opened MergeSpec
  import opened MountedStores
  import opened CacheMulti
  import opened Pruning
  import opened Iavl

  /** A mounted store is versioned, emptied at every commit, or a plain database. */
  datatype Kind = Tree | Transient | Database

  /** Per store, the version recorded in a commit info; a plain database records -1. */
  type CommitInfo = map<StoreKey, int>

  function InfoAt(kinds: map<StoreKey, Kind>, version: nat): CommitInfo {
    map k | k in kinds && !kinds[k].Transient? :: if kinds[k].Tree? then version else -1
  }

  /** Every store that is not transient is reported: a tree with the version, a database with -1. */
  ghost predicate Reports(kinds: map<StoreKey, Kind>, version: nat, info: CommitInfo) {
    && (forall k :: k in info <==> k in kinds && !kinds[k].Transient?)
    && (forall k :: k in info && k in kinds && kinds[k].Tree? ==> info[k] == version)
    && (forall k :: k in info && k in kinds && kinds[k].Database? ==> info[k] == -1)
  }

  lemma InfoReports(kinds: map<StoreKey, Kind>, version: nat)
    ensures Reports(kinds, version, InfoAt(kinds, version))
  {
  }

  /** Every tree has saved the given number of versions and holds the retained ones. */
  ghost predicate TreesHold(po: PruningOptions, trees: map<StoreKey, Versions>, version: nat)
    requires IsValid(po)
  {
    forall k :: k in trees ==> |trees[k].history| == version && Holds(po, trees[k].disk, trees[k].history)
  }

  // The effect of committing the stores in done, out of all.

  function ViewAfter(kinds: map<StoreKey, Kind>, view: MultiView, done: set<StoreKey>): (after: MultiView)
    ensures after.Keys == view.Keys
  {
    map k | k in view :: if k in done && k in kinds && kinds[k].Transient? then map[] else view[k]
  }

  function TreesAfter(po: PruningOptions, trees: map<StoreKey, Versions>, view: MultiView, done: set<StoreKey>)
    : (after: map<StoreKey, Versions>)
    requires trees.Keys <= view.Keys
    ensures after.Keys == trees.Keys
  {
    map k | k in trees :: if k in done then Saved(po, trees[k], view[k]) else trees[k]
  }

  function InfoAfter(kinds: map<StoreKey, Kind>, version: nat, done: set<StoreKey>): CommitInfo {
    map k | k in kinds && k in done && !kinds[k].Transient? :: if kinds[k].Tree? then version else -1
  }

  lemma NothingDone(po: PruningOptions, kinds: map<StoreKey, Kind>, trees: map<StoreKey, Versions>, view: MultiView,
                    version: nat)
    requires trees.Keys <= view.Keys
    ensures ViewAfter(kinds, view, {}) == view && TreesAfter(po, trees, view, {}) == trees
    ensures InfoAfter(kinds, version, {}) == map[]
  {
  }

  lemma AllSaved(po: PruningOptions, trees: map<StoreKey, Versions>, view: MultiView, keys: set<StoreKey>, version: nat)
    requires IsValid(po) && trees.Keys <= keys && trees.Keys <= view.Keys && TreesHold(po, trees, version)
    ensures TreesHold(po, TreesAfter(po, trees, view, keys), version + 1)
  {
    hide Committed, Holds, IsValid;
    forall k | k in trees
      ensures var s := Saved(po, trees[k], view[k]);
              |s.history| == version + 1 && Holds(po, s.disk, s.history)
    {
      CommitHolds(po, trees[k].disk, trees[k].history, view[k]);
    }
  }

  /** Of every tree the contents have become the next version, which is on disk if its height is flushed. Of
      every other store nothing is saved. */
  ghost predicate TreesCommitted(po: PruningOptions, trees: map<StoreKey, Versions>, view: MultiView,
                                 after: map<StoreKey, Versions>)
    requires trees.Keys <= view.Keys
  {
    && after.Keys == trees.Keys
    && forall k :: k in trees ==>
         var n := |trees[k].history| + 1;
         && after[k].history == trees[k].history + [view[k]]
         && (FlushVersion(po, n) ==> n in after[k].disk && after[k].disk[n] == view[k])
         && (!FlushVersion(po, n) ==> after[k].disk == trees[k].disk)
  }

  /** Transient stores are empty, all others hold what they held. */
  ghost predicate OthersKept(kinds: map<StoreKey, Kind>, view: MultiView, after: MultiView) {
    && after.Keys == view.Keys
    && forall k :: k in view && k in kinds ==> after[k] == if kinds[k].Transient? then map[] else view[k]
  }

  lemma AllCommitted(po: PruningOptions, kinds: map<StoreKey, Kind>, trees: map<StoreKey, Versions>, view: MultiView)
    requires IsValid(po) && trees.Keys <= view.Keys
    ensures TreesCommitted(po, trees, view, TreesAfter(po, trees, view, view.Keys))
    ensures OthersKept(kinds, view, ViewAfter(kinds, view, view.Keys))
  {
    hide Saved, IsValid;
    forall k | k in trees
      ensures var after, n := TreesAfter(po, trees, view, view.Keys)[k], |trees[k].history| + 1;
              && after.history == trees[k].history + [view[k]]
              && (FlushVersion(po, n) ==> n in after.disk && after.disk[n] == view[k])
              && (!FlushVersion(po, n) ==> after.disk == trees[k].disk)
    {
      SavedMeans(po, trees[k], view[k]);
    }
  }

  lemma AllReported(kinds: map<StoreKey, Kind>, version: nat)
    ensures InfoAfter(kinds, version, kinds.Keys) == InfoAt(kinds, version)
  {
  }

  lemma ViewStep(kinds: map<StoreKey, Kind>, view: MultiView, done: set<StoreKey>, k: StoreKey)
    requires k in view && k in kinds && k !in done
    ensures ViewAfter(kinds, view, done)[k] == view[k]
    ensures ViewAfter(kinds, view, done + {k})
         == ViewAfter(kinds, view, done)[k := if kinds[k].Transient? then map[] else view[k]]
  {
  }

  lemma TreesStep(po: PruningOptions, trees: map<StoreKey, Versions>, view: MultiView, done: set<StoreKey>, k: StoreKey)
    requires trees.Keys <= view.Keys && k !in done
    ensures k in trees ==> TreesAfter(po, trees, view, done)[k] == trees[k]
    ensures TreesAfter(po, trees, view, done + {k})
         == if k in trees then TreesAfter(po, trees, view, done)[k := Saved(po, trees[k], view[k])]
            else TreesAfter(po, trees, view, done)
  {
    hide Saved;
  }

  lemma InfoStep(kinds: map<StoreKey, Kind>, version: nat, done: set<StoreKey>, k: StoreKey)
    requires k in kinds && k !in done
    ensures InfoAfter(kinds, version, done + {k})
         == if kinds[k].Transient? then InfoAfter(kinds, version, done)
            else InfoAfter(kinds, version, done)[k := if kinds[k].Tree? then version else -1]
  {
  }

  // The effect of reloading the stores in done at a height.

  /** A tree after loading a height. */
  function Truncated(v: Versions, height: nat): Versions {
    if height <= |v.history| then v.(history := v.history[..height]) else v
  }

  /** What a store holds after loading a height. */
  function Reloaded(kind: Kind, v: Option<Versions>, data: Contents, height: nat): Contents {
    match kind
    case Tree => if v.Some? && height in v.value.disk then v.value.disk[height] else map[]
    case Transient => map[]
    case Database => data
  }

  function VersionsOf(trees: map<StoreKey, Versions>, k: StoreKey): Option<Versions> {
    if k in trees then Some(trees[k]) else None
  }

  function ViewLoaded(kinds: map<StoreKey, Kind>, trees: map<StoreKey, Versions>, view: MultiView, height: nat,
                      done: set<StoreKey>): (after: MultiView)
    ensures after.Keys == view.Keys
  {
    map k | k in view ::
      if k in done && k in kinds then Reloaded(kinds[k], VersionsOf(trees, k), view[k], height) else view[k]
  }

  function TreesLoaded(trees: map<StoreKey, Versions>, height: nat, done: set<StoreKey>)
    : (after: map<StoreKey, Versions>)
    ensures after.Keys == trees.Keys
  {
    map k | k in trees :: if k in done then Truncated(trees[k], height) else trees[k]
  }

  lemma NothingLoaded(kinds: map<StoreKey, Kind>, trees: map<StoreKey, Versions>, view: MultiView, height: nat)
    ensures ViewLoaded(kinds, trees, view, height, {}) == view && TreesLoaded(trees, height, {}) == trees
  {
  }

  lemma LoadStep(kinds: map<StoreKey, Kind>, trees: map<StoreKey, Versions>, view: MultiView, height: nat,
                 done: set<StoreKey>, k: StoreKey)
    requires k in view && k in kinds && k !in done
    ensures ViewLoaded(kinds, trees, view, height, done)[k] == view[k]
    ensures ViewLoaded(kinds, trees, view, height, done + {k})
         == ViewLoaded(kinds, trees, view, height, done)[
              k := Reloaded(kinds[k], VersionsOf(trees, k), view[k], height)]
    ensures VersionsOf(TreesLoaded(trees, height, done), k) == VersionsOf(trees, k)
    ensures TreesLoaded(trees, height, done + {k})
         == if k in trees then TreesLoaded(trees, height, done)[k := Truncated(trees[k], height)]
            else TreesLoaded(trees, height, done)
  {
    hide Reloaded, Truncated;
  }

  /** The height is on disk with the contents committed at it; height 0 stands for a disk without versions. */
  ghost predicate Loadable(v: Versions, height: nat) {
    && height <= |v.history|
    && (height > 0 ==> height in v.disk && v.disk[height] == v.history[height - 1])
    && (height == 0 ==> v.disk == map[])
  }

  /** The height recorded for every tree at the last flush is on its disk, and going back to it keeps
      the disk as required. */
  lemma LatestLoads(po: PruningOptions, trees: map<StoreKey, Versions>, keys: set<StoreKey>, version: nat)
    requires IsValid(po) && trees.Keys <= keys && TreesHold(po, trees, version)
    ensures var latest := LastFlushed(po, version);
            && TreesHold(po, TreesLoaded(trees, latest, keys), latest)
            && LastFlushed(po, latest) == latest
            && (forall k :: k in trees ==> Loadable(trees[k], latest))
  {
    NextFlush(po.keepEvery, version);
    forall k | k in trees
      ensures var latest := LastFlushed(po, version);
              && Loadable(trees[k], latest)
              && |Truncated(trees[k], latest).history| == latest
              && Holds(po, trees[k].disk, Truncated(trees[k], latest).history)
    {
      LatestLoadsOne(po, trees[k], version);
    }
  }

  lemma LatestLoadsOne(po: PruningOptions, v: Versions, version: nat)
    requires IsValid(po) && |v.history| == version && Holds(po, v.disk, v.history)
    ensures var latest := LastFlushed(po, version);
            && Loadable(v, latest)
            && |Truncated(v, latest).history| == latest
            && Holds(po, v.disk, Truncated(v, latest).history)
  {
    hide IsValid, LastFlushed, FlushVersion, SnapshotVersion;
    var latest := LastFlushed(po, version);
    LatestIsRetained(po, version);
    RetainedAtFlush(po, version);
  }

  /** Every tree is back at a height: it shows what was committed at it, or nothing at height 0, and its history
      ends there. Transient stores are empty, and databases hold what they held. */
  ghost predicate Restored(kinds: map<StoreKey, Kind>, trees: map<StoreKey, Versions>, view: MultiView, height: nat,
                           after: map<StoreKey, Versions>, view': MultiView)
  {
    && after.Keys == trees.Keys && view'.Keys == view.Keys == kinds.Keys
    && (forall k :: k in trees && k in kinds ==>
          && height <= |trees[k].history| && after[k] == Versions(trees[k].disk, trees[k].history[..height])
          && view'[k] == if height == 0 then map[] else trees[k].history[height - 1])
    && (forall k :: k in kinds && kinds[k].Transient? ==> view'[k] == map[])
    && (forall k :: k in kinds && kinds[k].Database? ==> view'[k] == view[k])
  }

  lemma AllRestored(kinds: map<StoreKey, Kind>, trees: map<StoreKey, Versions>, view: MultiView, height: nat)
    requires view.Keys == kinds.Keys && trees.Keys == set k | k in kinds && kinds[k].Tree?
    requires forall k :: k in trees ==> Loadable(trees[k], height)
    ensures Restored(kinds, trees, view, height, TreesLoaded(trees, height, view.Keys),
                     ViewLoaded(kinds, trees, view, height, view.Keys))
  {
  }

  class RootStore {
    const kinds: map<StoreKey, Kind>
    const mounts: map<StoreKey, MountedStore>
    const pruning: PruningOptions
    /** The saved versions of the trees; a commit does to each what Saved says. */
    var trees: map<StoreKey, Versions>
    /** The version of the last commit. */
    var version: nat
    /** What the database holds under s/latest (0 if nothing) and under s/<version>. */
    var latest: nat
    var infos: map<nat, CommitInfo>

    ghost function Objects(): set<object> {
      set k | k in mounts :: mounts[k]
    }

    ghost predicate Distinct()
      ensures Distinct() ==> kinds.Keys == mounts.Keys
    {
      && kinds.Keys == mounts.Keys
      && forall j, k :: j in mounts && k in mounts && j != k ==> mounts[j] != mounts[k]
    }

    /** Distinct stores, every tree with the version of the last commit and the retained heights on disk;
        the persisted latest version is the last flushed height, which every tree can load. */
    ghost predicate Sound()
      reads this
      ensures Sound() ==> Distinct()
    {
      && IsValid(pruning) && Distinct()
      && trees.Keys == (set k | k in kinds && kinds[k].Tree?)
      && TreesHold(pruning, trees, version)
      && latest == LastFlushed(pruning, version)
      && (latest > 0 ==> latest in infos && infos[latest] == InfoAt(kinds, latest))
    }

    ghost function View(): (v: MultiView)
      reads Objects()
      ensures v.Keys == mounts.Keys
    {
      Data(mounts)
    }

    /** A store with nothing committed yet. */
    constructor (kinds: map<StoreKey, Kind>, mounts: map<StoreKey, MountedStore>, pruning: PruningOptions)
      requires IsValid(pruning) && kinds.Keys == mounts.Keys
      requires forall j, k :: j in mounts && k in mounts && j != k ==> mounts[j] != mounts[k]
      ensures this.kinds == kinds && this.mounts == mounts && this.pruning == pruning
      ensures Sound() && version == 0 && latest == 0
    {
      this.kinds, this.mounts, this.pruning := kinds, mounts, pruning;
      this.trees := map k | k in kinds && kinds[k].Tree? :: Versions(map[], []);
      this.version, this.latest, this.infos := 0, 0, map[];
    }

    /** One store of commitStores: its kind decides what is saved, emptied, left alone and reported. */
    method CommitOne(k: StoreKey) returns (id: int)
      requires Distinct() && k in mounts && (kinds[k].Tree? ==> k in trees && |trees[k].history| == version)
      modifies this`trees, mounts[k]
      ensures trees == if !kinds[k].Tree? then old(trees)
                       else old(trees)[k := Saved(pruning, old(trees)[k], old(View())[k])]
      ensures View() == old(View())[k := if kinds[k].Transient? then map[] else old(View())[k]]
      ensures id == if kinds[k].Tree? then version + 1 else -1
    {
      hide Committed;
      id := -1;
      match kinds[k] {
        case Tree =>
          trees := trees[k := Saved(pruning, trees[k], mounts[k].data)];
          id := |trees[k].history|;
        case Transient => SetOne(k, map[]);
        case Database =>
      }
    }

    method SetOne(k: StoreKey, data: Contents)
      requires Distinct() && k in mounts
      modifies mounts[k]
      ensures View() == old(View())[k := data]
    {
      mounts[k].data := data;
      forall j | j in mounts
        ensures mounts[j].data == if j == k then data else old(mounts[j].data)
      {
      }
    }

    /** One store of commitStores, and its entry in the commit info unless it is transient. */
    method CommitNext(k: StoreKey, infos: CommitInfo, ghost v: MultiView, ghost t: map<StoreKey, Versions>,
                      ghost done: set<StoreKey>)
      returns (storeInfos: CommitInfo)
      requires Distinct() && k in mounts && k !in done && v.Keys == mounts.Keys
      requires t.Keys == (set j | j in kinds && kinds[j].Tree?) && (k in t ==> |t[k].history| == version)
      requires View() == ViewAfter(kinds, v, done) && trees == TreesAfter(pruning, t, v, done)
      modifies this`trees, mounts[k]
      ensures View() == ViewAfter(kinds, v, done + {k}) && trees == TreesAfter(pruning, t, v, done + {k})
      ensures infos == InfoAfter(kinds, version + 1, done) ==> storeInfos == InfoAfter(kinds, version + 1, done + {k})
    {
      hide Distinct, InfoAfter, Saved, TreesAfter, View, ViewAfter;
      ViewStep(kinds, v, done, k);
      TreesStep(pruning, t, v, done, k);
      assert infos == InfoAfter(kinds, version + 1, done) ==>
          InfoAfter(kinds, version + 1, done + {k})
          == if kinds[k].Transient? then infos else infos[k := if kinds[k].Tree? then version + 1 else -1] by {
        InfoStep(kinds, version + 1, done, k);
      }
      var id := CommitOne(k);
      storeInfos := if kinds[k].Transient? then infos else infos[k := id];
    }

    /** commitStores: every store, in any order. */
    method CommitStores() returns (storeInfos: CommitInfo)
      requires Sound()
      modifies this`trees, Objects()
      ensures trees == TreesAfter(pruning, old(trees), old(View()), mounts.Keys)
      ensures View() == ViewAfter(kinds, old(View()), mounts.Keys)
      ensures storeInfos == InfoAfter(kinds, version + 1, mounts.Keys)
      ensures TreesCommitted(pruning, old(trees), old(View()), trees) && OthersKept(kinds, old(View()), View())
    {
      hide Holds, InfoAfter, IsValid, LastFlushed, Saved, TreesAfter, View, ViewAfter, TreesCommitted, OthersKept;
      ghost var v, t := View(), trees;
      AllCommitted(pruning, kinds, t, v);
      NothingDone(pruning, kinds, t, v, version + 1);
      var done := {};
      storeInfos := map[];
      while done != mounts.Keys
        invariant done <= mounts.Keys && View() == ViewAfter(kinds, v, done)
        invariant trees == TreesAfter(pruning, t, v, done)
        invariant storeInfos == InfoAfter(kinds, version + 1, done)
        decreases mounts.Keys - done
      {
        var k :| k in mounts && k !in done;
        storeInfos := CommitNext(k, storeInfos, v, t, done);
        done := done + {k};
      }
    }

    method CommitVersion()
      requires Sound()
      modifies this, Objects()
      ensures Sound() && version == old(version) + 1
      ensures trees == TreesAfter(pruning, old(trees), old(View()), mounts.Keys)
      ensures View() == ViewAfter(kinds, old(View()), mounts.Keys)
      ensures TreesCommitted(pruning, old(trees), old(View()), trees) && OthersKept(kinds, old(View()), View())
      ensures latest == if FlushVersion(pruning, version) then version else old(latest)
      ensures infos == if FlushVersion(pruning, version) then old(infos)[version := InfoAt(kinds, version)]
                       else old(infos)
    {
      hide Distinct, FlushVersion, InfoAt, InfoAfter, IsValid, LastFlushed;
      hide TreesCommitted, OthersKept, TreesAfter, TreesHold, View, ViewAfter;
      AllSaved(pruning, trees, View(), mounts.Keys, version);
      AllReported(kinds, version + 1);
      var storeInfos := CommitStores();
      Persist(storeInfos);
    }

    /** Commits every store as the next version. The commit info and the latest version are persisted
        exactly at the flushed heights. */
    method Commit()
      requires Sound()
      modifies this, Objects()
      ensures Sound() && version == old(version) + 1
      ensures trees == TreesAfter(pruning, old(trees), old(View()), mounts.Keys)
      ensures View() == ViewAfter(kinds, old(View()), mounts.Keys)
      ensures TreesCommitted(pruning, old(trees), old(View()), trees) && OthersKept(kinds, old(View()), View())
      ensures latest == if FlushVersion(pruning, version) then version else old(latest)
      ensures FlushVersion(pruning, version) ==> version in infos && Reports(kinds, version, infos[version])
      ensures forall v :: v in old(infos) && v != version ==> v in infos && infos[v] == old(infos)[v]
    {
      Trees();
      hide Sound, Reports, FlushVersion, InfoAt, TreesCommitted, OthersKept, TreesAfter, View, ViewAfter;
      InfoReports(kinds, version + 1);
      CommitVersion();
    }

    /** Moves to the next version, and records it if it has been flushed. */
    method Persist(storeInfos: CommitInfo)
      requires IsValid(pruning) && Distinct()
      requires trees.Keys == (set k | k in kinds && kinds[k].Tree?) && TreesHold(pruning, trees, version + 1)
      requires latest == LastFlushed(pruning, version)
      requires latest > 0 ==> latest in infos && infos[latest] == InfoAt(kinds, latest)
      requires storeInfos == InfoAt(kinds, version + 1)
      modifies this`version, this`latest, this`infos
      ensures Sound() && version == old(version) + 1
      ensures latest == if FlushVersion(pruning, version) then version else old(latest)
      ensures infos == if FlushVersion(pruning, version) then old(infos)[version := storeInfos] else old(infos)
    {
      hide Distinct, FlushVersion, InfoAt, IsValid, LastFlushed, TreesHold;
      NextLatest(pruning, version);
      version := version + 1;
      if FlushVersion(pruning, version) {
        infos := infos[version := storeInfos];
        latest := version;
      }
    }

    /** Loads one store at a version; false stands for the error when the version is missing. Version 0
        is what a store without saved versions loads. */
    method LoadOne(k: StoreKey, height: nat) returns (ok: bool)
      requires Distinct() && k in mounts && (kinds[k].Tree? <==> k in trees)
      requires kinds[k].Tree? && height == 0 ==> trees[k].disk == map[]
      modifies this`trees, mounts[k]
      ensures ok <==> kinds[k].Tree? && height > 0 ==> height in old(trees[k].disk)
      ensures ok ==> trees == if k in old(trees) then old(trees[k := Truncated(trees[k], height)]) else old(trees)
      ensures ok ==> View() == old(View()[k := Reloaded(kinds[k], VersionsOf(trees, k), View()[k], height)])
    {
      hide Truncated;
      ok := true;
      match kinds[k] {
        case Tree =>
          if height > 0 && height !in trees[k].disk {
            return false;
          }
          SetOne(k, if height > 0 then trees[k].disk[height] else map[]);
          trees := trees[k := Truncated(trees[k], height)];
        case Transient => SetOne(k, map[]);
        case Database =>
      }
    }

    /** Loads every store at the persisted latest version. */
    method LoadStores() returns (ok: bool)
      requires Sound()
      modifies this`trees, Objects()
      ensures ok
      ensures forall k :: k in old(trees) ==> Loadable(old(trees)[k], latest)
      ensures trees == TreesLoaded(old(trees), latest, mounts.Keys)
      ensures View() == ViewLoaded(kinds, old(trees), old(View()), latest, mounts.Keys)
    {
      hide Distinct, IsValid, LastFlushed, TreesHold, TreesLoaded, Truncated, View, ViewLoaded;
      ghost var v, t := View(), trees;
      LatestLoads(pruning, t, mounts.Keys, version);
      NothingLoaded(kinds, t, v, latest);
      var info := if latest == 0 then map[] else infos[latest];
      var done := {};
      ok := true;
      while done != mounts.Keys && ok
        invariant done <= mounts.Keys && ok
        invariant View() == ViewLoaded(kinds, t, v, latest, done)
        invariant trees == TreesLoaded(t, latest, done)
        decreases mounts.Keys - done
      {
        var k :| k in mounts && k !in done;
        LoadStep(kinds, t, v, latest, done, k);
        ok := LoadOne(k, if k in info && info[k] > 0 then info[k] else 0);
        done := done + {k};
      }
    }

    /** loadVersion at the persisted latest version. */
    method Reload() returns (ok: bool)
      requires Sound()
      modifies this, Objects()
      ensures ok && Sound() && version == old(latest) && latest == old(latest) && infos == old(infos)
      ensures forall k :: k in old(trees) ==> Loadable(old(trees)[k], latest)
      ensures trees == TreesLoaded(old(trees), latest, mounts.Keys)
      ensures View() == ViewLoaded(kinds, old(trees), old(View()), latest, mounts.Keys)
    {
      hide Distinct, IsValid, LastFlushed, InfoAt, Loadable, TreesHold, TreesLoaded, View, ViewLoaded;
      LatestLoads(pruning, trees, mounts.Keys, version);
      ok := LoadStores();
      version := latest;
    }

    /** LoadLatestVersion after a restart: the persisted latest version loads, and every tree goes back to
        exactly what was committed at that height. */
    method LoadLatestVersion() returns (ok: bool)
      requires Sound()
      modifies this, Objects()
      ensures ok && Sound() && version == old(latest) && latest == old(latest) && infos == old(infos)
      ensures forall k :: k in old(trees) ==> Loadable(old(trees)[k], latest)
      ensures Restored(kinds, old(trees), old(View()), latest, trees, View())
    {
      Trees();
      hide Sound, Loadable, TreesLoaded, View, ViewLoaded, Restored;
      ghost var v, t := View(), trees;
      ok := Reload();
      AllRestored(kinds, t, v, latest);
    }

    lemma Trees()
      requires Sound()
      ensures kinds.Keys == mounts.Keys && trees.Keys == set k | k in kinds && kinds[k].Tree?
    {
    }

    /** Contents written to the mounted stores. */
    method Write(view: MultiView)
      requires Distinct() && view.Keys == mounts.Keys
      modifies Objects()
      ensures View() == view
    {
      hide Distinct, View;
      var done := {};
      while done != mounts.Keys
        invariant done <= mounts.Keys
        invariant forall k :: k in done ==> View()[k] == view[k]
        decreases mounts.Keys - done
      {
        var k :| k in mounts && k !in done;
        SetOne(k, view[k]);
        done := done + {k};
      }
    }

    /** Writes and commits one state after the other. */
    method CommitAll(states: seq<MultiView>)
      requires Sound() && forall i :: 0 <= i < |states| ==> states[i].Keys == mounts.Keys
      modifies this, Objects()
      ensures Sound() && version == old(version) + |states| && trees.Keys == old(trees).Keys
      ensures Appended(old(trees), states, trees)
    {
      NothingAppended(trees, states);
      for i := 0 to |states|
        invariant Sound() && version == old(version) + i && trees.Keys == old(trees).Keys
        invariant Appended(old(trees), states[..i], trees)
      {
        Trees();
        hide Sound, View, Appended, TreesAfter, ViewAfter, TreesCommitted, OthersKept, FlushVersion;
        ghost var t := trees;
        Write(states[i]);
        Commit();
        OneAppended(old(trees), t, states, i, pruning, trees);
      }
      assert states[..|states|] == states;
    }
  }

  /** What a sequence of states holds in one store. */
  ghost function Column(states: seq<MultiView>, k: StoreKey): (c: seq<Contents>)
    ensures |c| == |states|
  {
    seq(|states|, i requires 0 <= i < |states| => if k in states[i] then states[i][k] else map[])
  }

  /** The states have become the next versions of every tree. */
  ghost predicate Appended(before: map<StoreKey, Versions>, states: seq<MultiView>, after: map<StoreKey, Versions>) {
    && after.Keys == before.Keys
    && forall k :: k in before ==> after[k].history == before[k].history + Column(states, k)
  }

  lemma NothingAppended(trees: map<StoreKey, Versions>, states: seq<MultiView>)
    ensures Appended(trees, states[..0], trees)
  {
  }

  lemma OneAppended(start: map<StoreKey, Versions>, before: map<StoreKey, Versions>, states: seq<MultiView>, i: nat,
                    po: PruningOptions, after: map<StoreKey, Versions>)
    requires i < |states| && before.Keys <= states[i].Keys && Appended(start, states[..i], before)
    requires TreesCommitted(po, before, states[i], after)
    ensures Appended(start, states[..i + 1], after)
  {
    hide FlushVersion;
    forall k | k in start
      ensures after[k].history == start[k].history + Column(states[..i + 1], k)
    {
      assert Column(states[..i + 1], k) == Column(states[..i], k) + [states[i][k]];
    }
  }

  /** After any number of commits a restart goes back to the last flushed height: every tree shows what was
      committed at it. */
  method CommitsThenReload(root: RootStore, states: seq<MultiView>) returns (ok: bool)
    requires root.Sound() && forall i :: 0 <= i < |states| ==> states[i].Keys == root.mounts.Keys
    modifies root, root.Objects()
    ensures ok && root.Sound() && root.version == LastFlushed(root.pruning, old(root.version) + |states|)
    ensures root.trees.Keys == old(root.trees).Keys && root.trees.Keys <= root.View().Keys
    ensures forall k :: k in root.trees ==>
              var committed := old(root.trees)[k].history + Column(states, k);
              root.View()[k] == if 0 < root.version <= |committed| then committed[root.version - 1] else map[]
  {
    hide RootStore.View, RootStore.Distinct, Column, IsValid, LastFlushed, TreesHold, InfoAt;
    hide Appended, Restored, Loadable;
    root.CommitAll(states);
    root.Trees();
    ghost var t, v := root.trees, root.View();
    ok := root.LoadLatestVersion();
    BackAt(root.kinds, old(root.trees), states, t, v, root.version, root.trees, root.View());
  }

  lemma BackAt(kinds: map<StoreKey, Kind>, start: map<StoreKey, Versions>, states: seq<MultiView>,
               trees: map<StoreKey, Versions>, view: MultiView, height: nat, after: map<StoreKey, Versions>,
               view': MultiView)
    requires Appended(start, states, trees) && Restored(kinds, trees, view, height, after, view')
    requires trees.Keys <= kinds.Keys
    ensures after.Keys == start.Keys && after.Keys <= view'.Keys
    ensures forall k :: k in after ==>
              var committed := start[k].history + Column(states, k);
              view'[k] == if 0 < height <= |committed| then committed[height - 1] else map[]
  {
    hide Column;
  }

  /** A commit at a flushed height survives a restart: every tree shows the committed contents again. */
  method CommitThenReload(root: RootStore) returns (ok: bool)
    requires root.Sound() && FlushVersion(root.pruning, root.version + 1)
    modifies root, root.Objects()
    ensures ok && root.Sound() && root.version == old(root.version) + 1
    ensures root.trees.Keys == old(root.trees).Keys
    ensures OthersKept(root.kinds, old(root.View()), root.View())
  {
    root.Trees();
    hide RootStore.View, IsValid, LastFlushed, TreesHold, InfoAt, FlushVersion, TreesAfter, ViewAfter;
    root.Commit();
    ok := root.LoadLatestVersion();
  }
}
