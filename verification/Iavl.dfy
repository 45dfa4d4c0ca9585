/** store/iavl/store.go: a versioned store with pruning. The tree itself is taken as a versioned map
    whose SaveVersion writes the flushed heights to disk. */
module Iavl {
  import opened MergeSpec
  import opened MountedStores
  import opened Pruning

  type Disk = map<nat, Contents>

  /** SaveVersion: the new version reaches the disk exactly at the flushed heights. */
  function SaveVersion(po: PruningOptions, disk: Disk, version: nat, data: Contents): Disk {
    if FlushVersion(po, version) then disk[version := data] else disk
  }

  /** DeleteVersion ignores a version that does not exist. */
  function DeleteVersion(disk: Disk, version: nat): Disk {
    disk - {version}
  }

  /** The disk after one commit of data as the given version. */
  function Committed(po: PruningOptions, disk: Disk, version: nat, data: Contents): Disk {
    var saved := SaveVersion(po, disk, version, data);
    if FlushVersion(po, version) then
      var previous := version - po.keepEvery;
      if previous > 0 && !SnapshotVersion(po, previous) then DeleteVersion(saved, previous) else saved
    else
      saved
  }

  /** The disk after committing a sequence of states to a fresh store. */
  function AfterCommits(po: PruningOptions, states: seq<Contents>): Disk {
    if states == [] then
      map[]
    else
      var front := states[..|states| - 1];
      Committed(po, AfterCommits(po, front), |states|, states[|states| - 1])
  }

  /** The disk holds exactly the retained heights, each with the contents committed at it. */
  ghost predicate Holds(po: PruningOptions, disk: Disk, states: seq<Contents>)
    requires IsValid(po)
  {
    && disk.Keys == Retained(po, |states|)
    && forall u :: u in disk ==> disk[u] == states[u - 1]
  }

  lemma CommitHolds(po: PruningOptions, disk: Disk, states: seq<Contents>, data: Contents)
    requires IsValid(po) && Holds(po, disk, states)
    ensures Holds(po, Committed(po, disk, |states| + 1, data), states + [data])
  {
    var n := |states|;
    var after := Committed(po, disk, n + 1, data);
    forall u: nat
      ensures u in after <==> u in Retained(po, n + 1)
    {
      CommitRetains(po, n, u);
      if u > 0 && u == n + 1 - po.keepEvery && FlushVersion(po, n + 1) {
        NextFlush(po.keepEvery, n);
      }
    }
    forall u | u in after
      ensures after[u] == (states + [data])[u - 1]
    {
      assert u in Retained(po, n + 1);
    }
  }

  /** For every valid option and every number of commits, the disk holds exactly the retained heights
      with the contents committed at them, and the last flushed height is one of them. */
  lemma {:induction false} DiskHoldsRetained(po: PruningOptions, states: seq<Contents>)
    requires IsValid(po)
    ensures Holds(po, AfterCommits(po, states), states)
    ensures LastFlushed(po, |states|) == 0 || LastFlushed(po, |states|) in AfterCommits(po, states)
  {
    if states == [] {
    } else {
      var front := states[..|states| - 1];
      DiskHoldsRetained(po, front);
      CommitHolds(po, AfterCommits(po, front), front, states[|states| - 1]);
      assert front + [states[|states| - 1]] == states;
    }
    LatestIsRetained(po, |states|);
  }

  /** A height is on disk exactly if it has been committed, is a multiple of the flush interval, and is a
      multiple of the snapshot interval or less than one flush interval old. */
  lemma DiskByNumbers(po: PruningOptions, states: seq<Contents>, u: nat)
    requires po.keepEvery > 0 && po.snapshotEvery >= 0 && po.snapshotEvery % po.keepEvery == 0
    ensures u in AfterCommits(po, states) <==>
            && 1 <= u <= |states| && u % po.keepEvery == 0
            && ((po.snapshotEvery != 0 && u % po.snapshotEvery == 0) || |states| - u < po.keepEvery)
    ensures u in AfterCommits(po, states) ==> 1 <= u <= |states| && AfterCommits(po, states)[u] == states[u - 1]
  {
    DiskHoldsRetained(po, states);
    hide AfterCommits;
    if u <= |states| && u % po.keepEvery == 0 {
      LastIsRecent(po.keepEvery, |states|, u);
    }
  }

  /** The saved versions of a tree; history lists the contents committed at versions 1, 2, ... and is
      there to state what the disk holds. */
  datatype Versions = Versions(disk: Disk, history: seq<Contents>)

  function Saved(po: PruningOptions, v: Versions, data: Contents): Versions {
    Versions(Committed(po, v.disk, |v.history| + 1, data), v.history + [data])
  }

  /** A commit saves the contents as the next version, on disk exactly at the flushed heights. */
  lemma SavedMeans(po: PruningOptions, v: Versions, data: Contents)
    requires IsValid(po)
    ensures var after := Saved(po, v, data);
            && after.history == v.history + [data]
            && (FlushVersion(po, |after.history|) ==>
                  |after.history| in after.disk && after.disk[|after.history|] == data)
            && (!FlushVersion(po, |after.history|) ==> after.disk == v.disk)
  {
  }

  class IavlStore {
    const working: MountedStore
    const pruning: PruningOptions
    var version: nat
    var disk: Disk
    /** The contents committed at versions 1, 2, ... */
    ghost var history: seq<Contents>

    ghost predicate Sound()
      reads this
    {
      IsValid(pruning) && version == |history| && Holds(pruning, disk, history)
    }

    constructor (working: MountedStore, pruning: PruningOptions)
      requires IsValid(pruning)
      ensures Sound() && this.working == working && this.pruning == pruning
      ensures version == 0 && disk == map[] && history == []
    {
      this.working := working;
      this.pruning := pruning;
      this.version := 0;
      this.disk := map[];
      this.history := [];
    }

    /** Saves the working contents as the next version and drops the flushed version it supersedes. */
    method Commit()
      requires Sound()
      modifies this
      ensures Sound()
      ensures version == old(version) + 1
      ensures Versions(disk, history) == Saved(pruning, old(Versions(disk, history)), working.data)
      ensures history == old(history) + [working.data]
      ensures FlushVersion(pruning, version) ==> version in disk && disk[version] == working.data
    {
      CommitHolds(pruning, disk, history, working.data);
      version := version + 1;
      disk := SaveVersion(pruning, disk, version, working.data);
      if FlushVersion(pruning, version) {
        var previous := version - pruning.keepEvery;
        if previous != 0 && !SnapshotVersion(pruning, previous) {
          PreviousIsPositive(pruning, version);
          disk := DeleteVersion(disk, previous);
        }
      }
      history := history + [working.data];
    }

    /** Loads a version from disk, the newest if the target is 0; false stands for the error when it is
        not there. Loading the last flushed height goes back to exactly the state committed at it. */
    method LoadVersion(target: nat) returns (ok: bool)
      requires Sound()
      modifies this, working
      ensures disk == old(disk)
      ensures var t := if target == 0 then LastFlushed(pruning, old(version)) else target;
              && (ok <==> t == 0 || t in old(disk))
              && (ok ==> version == t && history == old(history)[..t])
              && (ok ==> working.data == if t == 0 then map[] else old(history)[t - 1])
              && (ok && t == LastFlushed(pruning, old(version)) ==> Sound())
      ensures !ok ==> version == old(version) && history == old(history) && working.data == old(working.data)
    {
      var t := if target == 0 then LastFlushed(pruning, version) else target;
      LatestIsRetained(pruning, version);
      RetainedAtFlush(pruning, version);
      if t != 0 && t !in disk {
        return false;
      }
      working.data := if t == 0 then map[] else disk[t];
      version := t;
      history := history[..t];
      ok := true;
    }
  }

  /** A flushed height is at least one interval above zero. */
  lemma PreviousIsPositive(po: PruningOptions, version: nat)
    requires IsValid(po) && version > 0 && FlushVersion(po, version)
    ensures version >= po.keepEvery
  {
  }
}
