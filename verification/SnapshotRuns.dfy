/**
 The engine of `update`, the manager of the block headers and the lock, joined over whole runs:
 which round a snapshot shows, and when the engine stalls.
 */
module SnapshotRuns {
  import opened Polling
  import opened WorkerPool
  import opened WorkerPoolTheorems
  import opened EndToEnd
  import opened ManagerRound
  import opened Snapshot

  /** The first p rounds of the lane have ended, and none was left early. */
  ghost predicate AllCompleted(s: State, r: nat, p: nat) {
    forall k: nat :: k < p ==> Completed(s, r, k)
  }

  /** What they got. */
  ghost function HeardRounds(s: State, r: nat, p: nat): seq<seq<Reply>>
    requires AllCompleted(s, r, p)
  {
    seq(p, k requires 0 <= k < p && Completed(s, r, k) => Heard(RoundChan(s, r, k)))
  }

  /** How many of the first k events are publications. */
  function Publications(events: seq<Event>, k: nat): nat
    requires k <= |events|
  {
    if k == 0 then 0 else Publications(events, k - 1) + if events[k - 1].Publication? then 1 else 0
  }

  /** Every publication is what `Store.Rounds` has in its container after one more round of the lane. */
  ghost predicate FromRounds(s: State, r: nat, decode: (Address, string) -> BlockHeader, events: seq<Event>) {
    forall i: nat :: i < |events| && events[i].Publication? ==>
      && AllCompleted(s, r, Publications(events, i) + 1)
      && events[i].headers == NodesAfter([], HeardRounds(s, r, Publications(events, i) + 1), decode)
  }

  const NEW_SERVICE := Service([], {}, false)

  lemma {:induction false} LatestIsRound(s: State, r: nat, decode: (Address, string) -> BlockHeader,
                                         events: seq<Event>, k: nat)
    requires FromRounds(s, r, decode, events) && k <= |events|
    ensures AllCompleted(s, r, Publications(events, k))
    ensures Latest(NEW_SERVICE, events, k) == NodesAfter([], HeardRounds(s, r, Publications(events, k)), decode)
  {
    if k == 0 {
    } else {
      LatestIsRound(s, r, decode, events, k - 1);
    }
  }

  /** A round that asked somebody heard from somebody, so the container shows that round. */
  lemma LastHeard(nodes: set<Address>, rpcs: nat, poolSize: nat, s: State, r: nat,
                  decode: (Address, string) -> BlockHeader, p: nat)
    requires Reachable(nodes, rpcs, poolSize, s) && p > 0 && AllCompleted(s, r, p) && Completed(s, r, p - 1)
    requires RoundChan(s, r, p - 1).targets != {}
    ensures NodesAfter([], HeardRounds(s, r, p), decode) == NodesOf(Heard(RoundChan(s, r, p - 1)), decode)
  {
    HeardFromEachOnce(nodes, rpcs, poolSize, s, r, p - 1);
    assert HeardRounds(s, r, p)[p - 1] == Heard(RoundChan(s, r, p - 1));
  }

  /**
   Over every run of the engine and every history of publications, reports and downloads: while
   every event was harmless, the snapshot after p publications is that of round p - 1, with its
   signatures perhaps shortened.
   */
  lemma SnapshotIsLastRound(nodes: set<Address>, rpcs: nat, poolSize: nat, s: State, r: nat,
                            decode: (Address, string) -> BlockHeader, events: seq<Event>, k: nat)
    requires Reachable(nodes, rpcs, poolSize, s) && FromRounds(s, r, decode, events) && k <= |events|
    requires forall i :: 0 <= i < k ==> Harmless(NEW_SERVICE, events, i)
    ensures var p := Publications(events, k);
      && !ServedAt(NEW_SERVICE, events, k).locked
      && (p > 0 ==> Completed(s, r, p - 1))
      && (p > 0 && RoundChan(s, r, p - 1).targets != {} ==>
            PerhapsShortened(NodesOf(Heard(RoundChan(s, r, p - 1)), decode),
                             ServedAt(NEW_SERVICE, events, k).headers))
  {
    var p := Publications(events, k);
    LatestIsRound(s, r, decode, events, k);
    LockIsFreeExactly(NEW_SERVICE, events, k);
    if p > 0 {
      assert Completed(s, r, p - 1);
      if RoundChan(s, r, p - 1).targets != {} {
        LastHeard(nodes, rpcs, poolSize, s, r, decode, p);
      }
    }
  }

  /**
   The engine of `update` together with the lock: with a round unfinished it has no move left if and
   only if every manager is parked and some earlier report or download was harmful.
   */
  lemma EngineStallsExactly(nodes: set<Address>, rpcs: nat, poolSize: nat, s: State, v: Service,
                            events: seq<Event>, k: nat)
    requires Reachable(nodes, rpcs, poolSize, s) && poolSize > 0 && s.fault == NoFault && !AllIdle(s)
    requires !v.locked && k <= |events|
    ensures Stalled(s, !ServedAt(v, events, k).locked) <==>
      AllParked(s) && exists i :: 0 <= i < k && !Harmless(v, events, i)
  {
    LockIsFreeExactly(v, events, k);
    StallsExactly(nodes, rpcs, poolSize, s, !ServedAt(v, events, k).locked);
  }
}
