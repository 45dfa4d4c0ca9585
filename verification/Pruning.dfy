/** store/types/pruning.go, and what the pruning options leave on disk. */
module Pruning {
  import opened Arith

  datatype PruningOptions = PruningOptions(keepEvery: int, snapshotEvery: int)

  predicate IsValid(po: PruningOptions) {
    po.keepEvery > 0 && po.snapshotEvery >= 0 && po.snapshotEvery % po.keepEvery == 0
  }

  predicate FlushVersion(po: PruningOptions, ver: int) {
    po.keepEvery != 0 && ver % po.keepEvery == 0
  }

  predicate SnapshotVersion(po: PruningOptions, ver: int) {
    po.snapshotEvery != 0 && ver % po.snapshotEvery == 0
  }

  /** The last flushed height at or below n; 0 when nothing has been flushed. */
  function LastFlushed(po: PruningOptions, n: nat): (u: nat)
    requires IsValid(po)
    ensures u <= n
  {
    n - n % po.keepEvery
  }

  /** The heights that must be loadable after n commits: every snapshot height and the last flushed
      height, among the flushed ones. */
  function Retained(po: PruningOptions, n: nat): set<nat>
    requires IsValid(po)
  {
    set u: nat | 1 <= u <= n && FlushVersion(po, u) && (SnapshotVersion(po, u) || u == LastFlushed(po, n))
  }

  /** The height that the commit of version deletes again, if any. */
  predicate Superseded(po: PruningOptions, version: nat, u: int) {
    && FlushVersion(po, version) && u == version - po.keepEvery
    && u != 0 && !SnapshotVersion(po, u)
  }

  /** One commit keeps the disk at exactly the retained heights. */
  lemma CommitRetains(po: PruningOptions, n: nat, u: nat)
    requires IsValid(po)
    ensures u in Retained(po, n + 1)
       <==> (u in Retained(po, n) || (u == n + 1 && FlushVersion(po, n + 1))) && !Superseded(po, n + 1, u)
  {
    var k := po.keepEvery;
    NextFlush(k, n);
    if FlushVersion(po, u) && 1 <= u <= n {
      FlushGap(k, n, u);
    }
  }

  /** The last flushed height moves exactly at the flushed heights. */
  lemma NextFlush(k: int, n: nat)
    requires k > 0
    ensures (n + 1) % k == 0 ==> n - n % k == n + 1 - k
    ensures (n + 1) % k != 0 ==> n + 1 - (n + 1) % k == n - n % k
    ensures (n - n % k) % k == 0
  {
    var q, r := n / k, n % k;
    DivModFacts(n, k);
    assert k * (q + 1) == k * q + k;
    if r + 1 < k {
      DivModUnique(n + 1, k, q, r + 1);
    } else {
      DivModUnique(n + 1, k, q + 1, 0);
    }
    DivModUnique(n - r, k, q, 0);
  }

  lemma NextLatest(po: PruningOptions, n: nat)
    requires IsValid(po)
    ensures LastFlushed(po, n + 1) == if FlushVersion(po, n + 1) then n + 1 else LastFlushed(po, n)
  {
    NextFlush(po.keepEvery, n);
  }

  /** Nothing is flushed between the last flushed height and n. */
  lemma FlushGap(k: int, n: nat, u: nat)
    requires k > 0 && u <= n && u % k == 0
    ensures u <= n - n % k
  {
    DivModFacts(u, k);
    DivModFacts(n, k);
    DivAtLeast(n, k, u / k);
    MulMono(k, u / k, n / k);
  }

  /** The last multiple is the one less than an interval back. */
  lemma LastIsRecent(k: int, n: nat, u: nat)
    requires k > 0 && u <= n && u % k == 0
    ensures u == n - n % k <==> n - u < k
  {
    FlushGap(k, n, u);
    NextFlush(k, n);
    var w := n - n % k;
    if n - u < k {
      DivModFacts(w, k);
      DivModFacts(u, k);
      assert k * (u / k + 1) == k * (u / k) + k;
      if w / k > u / k {
        MulMono(k, u / k + 1, w / k);
      } else {
        MulMono(k, w / k, u / k);
      }
    }
  }

  /** Whatever is loadable at the latest persisted version stays so: the last flushed height is retained. */
  lemma LatestIsRetained(po: PruningOptions, n: nat)
    requires IsValid(po)
    ensures LastFlushed(po, n) == 0 || LastFlushed(po, n) in Retained(po, n)
  {
    NextFlush(po.keepEvery, n);
  }

  /** Going back to the last flushed height changes nothing about what must be on disk. */
  lemma RetainedAtFlush(po: PruningOptions, n: nat)
    requires IsValid(po)
    ensures Retained(po, LastFlushed(po, n)) == Retained(po, n)
  {
    var k := po.keepEvery;
    NextFlush(k, n);
    forall u: nat | 1 <= u <= n && FlushVersion(po, u)
      ensures u <= LastFlushed(po, n)
    {
      FlushGap(k, n, u);
    }
  }
}
