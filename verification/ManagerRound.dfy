/**
 What `manager` does with the replies of a round: it fills the working container, lets the
 block-header lane look for a new epoch, and publishes a copy as the snapshot.

 Go slices are modelled as a backing array and a length, so that sharing is visible.
 */
module ManagerRound {
  import opened Polling

  // ----- slices -----

  datatype Slice<!T> = Slice(arr: array<T>, len: nat)

  ghost predicate SliceOk<T>(s: Slice<T>) {
    s.len <= s.arr.Length
  }

  ghost function Contents<T>(s: Slice<T>): seq<T>
    requires SliceOk(s)
    reads s.arr
  {
    s.arr[..s.len]
  }

  /** `append(s, x)`: in place while there is capacity, otherwise in a new array. */
  method Append<T>(s: Slice<T>, x: T) returns (r: Slice<T>)
    requires SliceOk(s)
    modifies s.arr
    ensures SliceOk(r) && Contents(r) == old(Contents(s)) + [x]
    ensures Contents(s) == old(Contents(s))
    ensures if s.len < s.arr.Length then r.arr == s.arr else fresh(r.arr) && s.arr[..] == old(s.arr[..])
  {
    if s.len < s.arr.Length {
      s.arr[s.len] := x;
      r := Slice(s.arr, s.len + 1);
    } else {
      var bigger := new T[2 * s.len + 1](_ => x);
      forall i | 0 <= i < s.len {
        bigger[i] := s.arr[i];
      }
      r := Slice(bigger, s.len + 1);
      assert bigger[..s.len] == s.arr[..s.len];
    }
  }

  /** `append([]T{}, s...)`: the same elements in an array of their own. */
  method Copy<T>(s: Slice<T>) returns (r: Slice<T>)
    requires SliceOk(s)
    ensures SliceOk(r) && fresh(r.arr) && r.arr.Length == r.len == s.len && Contents(r) == Contents(s)
  {
    var copy := new T[s.len](i requires 0 <= i < s.len <= s.arr.Length reads s.arr => s.arr[i]);
    r := Slice(copy, s.len);
  }

  /** `[]T{}`. */
  method Empty<T>() returns (r: Slice<T>)
    ensures SliceOk(r) && fresh(r.arr) && Contents(r) == []
  {
    var none: seq<T> := [];
    var arr := new T[0](i requires 0 <= i < |none| => none[i]);
    r := Slice(arr, 0);
  }

  // ----- what a round should leave behind -----

  /** `noReply`. */
  datatype NoReply = NoReply(ip: Address, reason: string, payload: string, shard: int)

  /** A map lookup, which yields zero for a missing key. */
  function ShardOf(shardMap: map<Address, int>, a: Address): int {
    if a in shardMap then shardMap[a] else 0
  }

  function Answered(replies: seq<Reply>): (r: seq<Reply>)
    ensures forall i :: 0 <= i < |r| ==> r[i].outcome.Body?
  {
    if replies == [] then []
    else if replies[|replies| - 1].outcome.Body? then Answered(replies[..|replies| - 1]) + [replies[|replies| - 1]]
    else Answered(replies[..|replies| - 1])
  }

  function Failed(replies: seq<Reply>): (r: seq<Reply>)
    ensures forall i :: 0 <= i < |r| ==> r[i].outcome.Oops?
  {
    if replies == [] then []
    else if replies[|replies| - 1].outcome.Oops? then Failed(replies[..|replies| - 1]) + [replies[|replies| - 1]]
    else Failed(replies[..|replies| - 1])
  }

  /** The `Nodes` of a round: one record per answer, made from the address and the body. */
  ghost function NodesOf<N>(replies: seq<Reply>, decode: (Address, string) -> N): seq<N> {
    var r := Answered(replies);
    seq(|r|, i requires 0 <= i < |r| => decode(r[i].address, r[i].outcome.bytes))
  }

  function DownEntry(r: Reply, shardMap: map<Address, int>): NoReply
    requires r.outcome.Oops?
  {
    NoReply(r.address, r.outcome.reason, r.outcome.payload, ShardOf(shardMap, r.address))
  }

  /** The `Down` of a round: one entry per failure. */
  ghost function DownOf(replies: seq<Reply>, shardMap: map<Address, int>): seq<NoReply> {
    var r := Failed(replies);
    seq(|r|, i requires 0 <= i < |r| => DownEntry(r[i], shardMap))
  }

  lemma NodesSnoc<N>(replies: seq<Reply>, i: nat, decode: (Address, string) -> N)
    requires i < |replies| && replies[i].outcome.Body?
    ensures NodesOf(replies[..i + 1], decode)
         == NodesOf(replies[..i], decode) + [decode(replies[i].address, replies[i].outcome.bytes)]
  {
    assert replies[..i + 1][..i] == replies[..i];
    assert Answered(replies[..i + 1]) == Answered(replies[..i]) + [replies[i]];
  }

  lemma NodesSkip<N>(replies: seq<Reply>, i: nat, decode: (Address, string) -> N)
    requires i < |replies| && replies[i].outcome.Oops?
    ensures NodesOf(replies[..i + 1], decode) == NodesOf(replies[..i], decode)
  {
    assert replies[..i + 1][..i] == replies[..i];
    assert Answered(replies[..i + 1]) == Answered(replies[..i]);
  }

  lemma DownSnoc(replies: seq<Reply>, i: nat, shardMap: map<Address, int>)
    requires i < |replies| && replies[i].outcome.Oops?
    ensures DownOf(replies[..i + 1], shardMap) == DownOf(replies[..i], shardMap) + [DownEntry(replies[i], shardMap)]
  {
    assert replies[..i + 1][..i] == replies[..i];
    assert Failed(replies[..i + 1]) == Failed(replies[..i]) + [replies[i]];
  }

  lemma DownSkip(replies: seq<Reply>, i: nat, shardMap: map<Address, int>)
    requires i < |replies| && replies[i].outcome.Body?
    ensures DownOf(replies[..i + 1], shardMap) == DownOf(replies[..i], shardMap)
  {
    assert replies[..i + 1][..i] == replies[..i];
    assert Failed(replies[..i + 1]) == Failed(replies[..i]);
  }

  /** `Nodes` is the list of the records of the answers, in order. */
  lemma {:induction false} NodesAreListing<N>(replies: seq<Reply>, decode: (Address, string) -> N)
    ensures Gathers(NodesOf(replies, decode),
                    seq(|replies|, i requires 0 <= i < |replies| =>
                      var r := replies[i]; if r.outcome.Body? then Some(decode(r.address, r.outcome.bytes)) else None))
    decreases |replies|
  {
    var ys := seq(|replies|, i requires 0 <= i < |replies| =>
      var r := replies[i]; if r.outcome.Body? then Some(decode(r.address, r.outcome.bytes)) else None);
    if replies == [] {
      assert NodesOf(replies, decode) == [];
      GatherNothing(ys);
    } else {
      var n := |replies| - 1;
      var front := replies[..n];
      NodesAreListing(front, decode);
      var zs := seq(n, i requires 0 <= i < n =>
        var r := front[i]; if r.outcome.Body? then Some(decode(r.address, r.outcome.bytes)) else None);
      assert ys[..n] == zs && replies[..n + 1] == replies;
      if replies[n].outcome.Body? {
        NodesSnoc(replies, n, decode);
      } else {
        NodesSkip(replies, n, decode);
      }
      GatherStep(NodesOf(front, decode), NodesOf(replies, decode), zs, ys);
    }
  }

  /** `Down` is the list of the failures, in order: address, error, request and the shard of the address. */
  lemma {:induction false} DownIsListing(replies: seq<Reply>, shardMap: map<Address, int>)
    ensures Gathers(DownOf(replies, shardMap),
                    seq(|replies|, i requires 0 <= i < |replies| =>
                      var r := replies[i]; if r.outcome.Body? then None else
                      Some(NoReply(r.address, r.outcome.reason, r.outcome.payload,
                                   if r.address in shardMap then shardMap[r.address] else 0))))
    decreases |replies|
  {
    var ys := seq(|replies|, i requires 0 <= i < |replies| =>
      var r := replies[i]; if r.outcome.Body? then None else
      Some(NoReply(r.address, r.outcome.reason, r.outcome.payload,
                   if r.address in shardMap then shardMap[r.address] else 0)));
    if replies == [] {
      assert DownOf(replies, shardMap) == [];
      GatherNothing(ys);
    } else {
      var n := |replies| - 1;
      var front := replies[..n];
      DownIsListing(front, shardMap);
      var zs := seq(n, i requires 0 <= i < n =>
        var r := front[i]; if r.outcome.Body? then None else
        Some(NoReply(r.address, r.outcome.reason, r.outcome.payload,
                     if r.address in shardMap then shardMap[r.address] else 0)));
      assert ys[..n] == zs && replies[..n + 1] == replies;
      if replies[n].outcome.Body? {
        DownSkip(replies, n, shardMap);
      } else {
        DownSnoc(replies, n, shardMap);
      }
      GatherStep(DownOf(front, shardMap), DownOf(replies, shardMap), zs, ys);
    }
  }

  /** Answers and failures partition the replies: every occurrence of a reply is in exactly one of them. */
  lemma {:induction false} RepliesPartition(replies: seq<Reply>, r: Reply)
    ensures multiset(Answered(replies))[r] + multiset(Failed(replies))[r] == multiset(replies)[r]
  {
    if replies == [] {
    } else {
      var n := |replies| - 1;
      RepliesPartition(replies[..n], r);
      assert replies == replies[..n] + [replies[n]];
    }
  }

  /** The addresses stored in a container's records, one each. */
  ghost function Ips<N>(records: seq<N>, ip: N -> Address): seq<Address> {
    seq(|records|, i requires 0 <= i < |records| => ip(records[i]))
  }

  /** Records are built around the replier's address, as `NodeMetadata{.., addr}` is. */
  ghost predicate Carries<N>(decode: (Address, string) -> N, ip: N -> Address) {
    forall a: Address, body: string :: ip(decode(a, body)) == a
  }

  /** `Nodes` holds the addresses that answered and `Down` those that failed, in order. */
  lemma ContainersKeepAddresses<N>(replies: seq<Reply>, decode: (Address, string) -> N, ip: N -> Address,
                                   shardMap: map<Address, int>)
    requires Carries(decode, ip)
    ensures Ips(NodesOf(replies, decode), ip) == Senders(Answered(replies))
    ensures Ips(DownOf(replies, shardMap), (d: NoReply) => d.ip) == Senders(Failed(replies))
  {
  }

  lemma SendersSnoc(replies: seq<Reply>, r: Reply)
    ensures Senders(replies + [r]) == Senders(replies) + [r.address]
  {
  }

  lemma {:induction false} SendersSplit(replies: seq<Reply>, a: Address)
    ensures multiset(Senders(Answered(replies)))[a] + multiset(Senders(Failed(replies)))[a]
         == multiset(Senders(replies))[a]
  {
    if replies == [] {
    } else {
      var n := |replies| - 1;
      SendersSplit(replies[..n], a);
      assert replies == replies[..n] + [replies[n]];
      SendersSnoc(replies[..n], replies[n]);
      if replies[n].outcome.Body? {
        SendersSnoc(Answered(replies[..n]), replies[n]);
      } else {
        SendersSnoc(Failed(replies[..n]), replies[n]);
      }
    }
  }

  /** With one reply per address, each address is in exactly one of `Nodes` and `Down`, once. */
  lemma AddressesPartition<N>(replies: seq<Reply>, decode: (Address, string) -> N, ip: N -> Address,
                              shardMap: map<Address, int>, a: Address)
    requires Distinct(Senders(replies)) && Carries(decode, ip)
    ensures multiset(Ips(NodesOf(replies, decode), ip))[a]
          + multiset(Ips(DownOf(replies, shardMap), (d: NoReply) => d.ip))[a]
         == if a in Senders(replies) then 1 else 0
  {
    ContainersKeepAddresses(replies, decode, ip, shardMap);
    SendersSplit(replies, a);
    ListingIsBagOfSet(Senders(replies));
  }

  // ----- a sequence of rounds -----

  /** The `Nodes` after the given rounds: those of the last one that had a reply. */
  ghost function NodesAfter<N>(was: seq<N>, rounds: seq<seq<Reply>>, decode: (Address, string) -> N): seq<N> {
    if rounds == [] then was
    else if rounds[|rounds| - 1] != [] then NodesOf(rounds[|rounds| - 1], decode)
    else NodesAfter(was, rounds[..|rounds| - 1], decode)
  }

  /** And the `Down`. */
  ghost function DownAfter(was: seq<NoReply>, rounds: seq<seq<Reply>>, shardMap: map<Address, int>): seq<NoReply> {
    if rounds == [] then was
    else if rounds[|rounds| - 1] != [] then DownOf(rounds[|rounds| - 1], shardMap)
    else DownAfter(was, rounds[..|rounds| - 1], shardMap)
  }

  /** Both are those of the last round with a reply. */
  lemma {:induction false} AfterLastRound<N>(nodes: seq<N>, down: seq<NoReply>, rounds: seq<seq<Reply>>,
                                             decode: (Address, string) -> N, shardMap: map<Address, int>, j: nat)
    requires j < |rounds| && rounds[j] != [] && forall m :: j < m < |rounds| ==> rounds[m] == []
    ensures NodesAfter(nodes, rounds, decode) == NodesOf(rounds[j], decode)
    ensures DownAfter(down, rounds, shardMap) == DownOf(rounds[j], shardMap)
    decreases |rounds|
  {
    if j == |rounds| - 1 {
    } else {
      AfterLastRound(nodes, down, rounds[..|rounds| - 1], decode, shardMap, j);
    }
  }

  /** And what was there before if there is none. */
  lemma {:induction false} AfterNoReply<N>(nodes: seq<N>, down: seq<NoReply>, rounds: seq<seq<Reply>>,
                                           decode: (Address, string) -> N, shardMap: map<Address, int>)
    requires forall m :: 0 <= m < |rounds| ==> rounds[m] == []
    ensures NodesAfter(nodes, rounds, decode) == nodes && DownAfter(down, rounds, shardMap) == down
    decreases |rounds|
  {
    if rounds == [] {
    } else {
      AfterNoReply(nodes, down, rounds[..|rounds| - 1], decode, shardMap);
    }
  }

  // ----- the container pair -----

  /**
   One RPC's part of `monitor`: the working container, the published snapshot and the lock over it.
   `Lock` returns only when the lock is free, so a locked operation requires that it is.
   */
  class Store<N> {
    var inUse: bool
    var workTS: int
    var workNodes: Slice<N>
    var workDown: Slice<NoReply>
    var snapTS: int
    var snapNodes: Slice<N>
    var snapDown: Slice<NoReply>

    /** The working container and the snapshot share no array. */
    ghost predicate Valid()
      reads this
    {
      && SliceOk(workNodes) && SliceOk(workDown) && SliceOk(snapNodes) && SliceOk(snapDown)
      && workNodes.arr != snapNodes.arr && workDown.arr != snapDown.arr
    }

    constructor ()
      ensures !inUse
      ensures Valid() && fresh(workNodes.arr) && fresh(workDown.arr) && fresh(snapNodes.arr) && fresh(snapDown.arr)
      ensures Contents(workNodes) == [] && Contents(snapNodes) == []
      ensures Contents(workDown) == [] && Contents(snapDown) == []
    {
      var a := Empty();
      var b := Empty();
      var c := Empty();
      var d := Empty();
      inUse, workTS, snapTS := false, 0, 0;
      workNodes, workDown, snapNodes, snapDown := a, b, c, d;
    }

    /** The loop over the closed reply channel; containers are reset by its first reply. */
    method Collect(replies: seq<Reply>, decode: (Address, string) -> N, shardMap: map<Address, int>)
      requires Valid()
      modifies this`workNodes, this`workDown
      ensures SliceOk(workNodes) && SliceOk(workDown)
      ensures replies == [] ==> workNodes == old(workNodes) && workDown == old(workDown)
      ensures replies != [] ==> fresh(workNodes.arr) && fresh(workDown.arr)
      ensures replies != [] ==> Contents(workNodes) == NodesOf(replies, decode)
      ensures replies != [] ==> Contents(workDown) == DownOf(replies, shardMap)
    {
      var first := true;
      for i := 0 to |replies|
        invariant first <==> i == 0
        invariant SliceOk(workNodes) && SliceOk(workDown)
        invariant first ==> workNodes == old(workNodes) && workDown == old(workDown)
        invariant !first ==> fresh(workNodes.arr) && fresh(workDown.arr) && workNodes.arr as object != workDown.arr
        invariant !first ==> Contents(workNodes) == NodesOf(replies[..i], decode)
        invariant !first ==> Contents(workDown) == DownOf(replies[..i], shardMap)
      {
        var d := replies[i];
        if first {
          workDown := Empty();
          workNodes := Empty();
          first := false;
        }
        assert replies[..i + 1][..i] == replies[..i];
        if d.outcome.Oops? {
          DownSnoc(replies, i, shardMap);
          NodesSkip(replies, i, decode);
          workDown := Append(workDown, DownEntry(d, shardMap));
        } else {
          NodesSnoc(replies, i, decode);
          DownSkip(replies, i, shardMap);
          workNodes := Append(workNodes, decode(d.address, d.outcome.bytes));
        }
      }
      assert replies[..|replies|] == replies;
    }

    /** `metadataCopy` and `blockHeaderCopy`, under the lock. */
    method Publish()
      requires Valid() && !inUse
      modifies this`snapTS, this`snapNodes, this`snapDown
      ensures Valid() && snapTS == workTS
      ensures fresh(snapNodes.arr) && fresh(snapDown.arr)
      ensures Contents(snapNodes) == Contents(workNodes) && Contents(snapDown) == Contents(workDown)
    {
      snapTS := workTS;
      snapNodes := Copy(workNodes);
      snapDown := Copy(workDown);
    }

    /**
     One round of `manager`.  Everything written is new memory, so no earlier snapshot changes;
     and unless the round had no reply at all, nothing of an earlier round is left.
     */
    method Round(now: int, replies: seq<Reply>, decode: (Address, string) -> N, shardMap: map<Address, int>)
      requires Valid() && !inUse
      modifies this
      ensures Valid() && !inUse && workTS == now && snapTS == now
      ensures fresh(snapNodes.arr) && fresh(snapDown.arr)
      ensures replies != [] ==> Contents(snapNodes) == NodesOf(replies, decode)
      ensures replies != [] ==> Contents(snapDown) == DownOf(replies, shardMap)
      ensures replies == [] ==> Contents(snapNodes) == old(Contents(workNodes))
      ensures replies == [] ==> Contents(snapDown) == old(Contents(workDown))
      ensures Contents(workNodes) == Contents(snapNodes) && Contents(workDown) == Contents(snapDown)
      ensures old(snapNodes).arr[..] == old(snapNodes.arr[..]) && old(snapDown).arr[..] == old(snapDown.arr[..])
      ensures old(workNodes).arr[..] == old(workNodes.arr[..]) && old(workDown).arr[..] == old(workDown.arr[..])
    {
      workTS := now;
      Collect(replies, decode, shardMap);
      Publish();
    }

    /** The loop of `manager` over its ticks, each with the replies that its round got. */
    method Rounds(nows: seq<int>, rounds: seq<seq<Reply>>, decode: (Address, string) -> N,
                  shardMap: map<Address, int>)
      requires Valid() && !inUse && |nows| == |rounds|
      modifies this
      ensures Valid() && !inUse
      ensures Contents(workNodes) == NodesAfter(old(Contents(workNodes)), rounds, decode)
      ensures Contents(workDown) == DownAfter(old(Contents(workDown)), rounds, shardMap)
      ensures rounds != [] ==> snapTS == nows[|nows| - 1]
      ensures rounds != [] ==> Contents(snapNodes) == Contents(workNodes) && Contents(snapDown) == Contents(workDown)
    {
      for i := 0 to |rounds|
        invariant Valid() && !inUse
        invariant Contents(workNodes) == NodesAfter(old(Contents(workNodes)), rounds[..i], decode)
        invariant Contents(workDown) == DownAfter(old(Contents(workDown)), rounds[..i], shardMap)
        invariant i > 0 ==> snapTS == nows[i - 1]
        invariant i > 0 ==> Contents(snapNodes) == Contents(workNodes) && Contents(snapDown) == Contents(workDown)
      {
        assert rounds[..i + 1][..i] == rounds[..i];
        Round(nows[i], rounds[i], decode, shardMap);
      }
      assert rounds[..|rounds|] == rounds;
    }
  }

  // ----- the consensus monitor's own collection -----

  /**
   `consensusMonitor` rebuilds its `Down` from the manager's working container on every failure.
   `observed(i)` is the manager's `Down` as it stands when reply i is handled.
   */
  ghost function ConsensusDown(replies: seq<Reply>, shardMap: map<Address, int>, observed: nat -> seq<NoReply>)
    : seq<NoReply>
  {
    if replies == [] then []
    else
      var n := |replies| - 1;
      if replies[n].outcome.Oops? then observed(n) + [DownEntry(replies[n], shardMap)]
      else ConsensusDown(replies[..n], shardMap, observed)
  }

  /** Its loop over the closed reply channel. */
  method CollectForConsensus(replies: seq<Reply>, decode: (Address, string) -> BlockHeader,
                             shardMap: map<Address, int>, observed: nat -> seq<NoReply>)
    returns (nodes: seq<BlockHeader>, down: seq<NoReply>)
    ensures nodes == NodesOf(replies, decode)
    ensures down == ConsensusDown(replies, shardMap, observed)
  {
    nodes, down := [], [];
    for i := 0 to |replies|
      invariant nodes == NodesOf(replies[..i], decode)
      invariant down == ConsensusDown(replies[..i], shardMap, observed)
    {
      var d := replies[i];
      assert replies[..i + 1][..i] == replies[..i];
      if d.outcome.Oops? {
        NodesSkip(replies, i, decode);
        down := observed(i) + [DownEntry(d, shardMap)];
      } else {
        NodesSnoc(replies, i, decode);
        nodes := nodes + [decode(d.address, d.outcome.bytes)];
      }
    }
    assert replies[..|replies|] == replies;
  }

  ghost predicate LastFailure(replies: seq<Reply>, j: nat) {
    j < |replies| && replies[j].outcome.Oops? && forall i :: j < i < |replies| ==> replies[i].outcome.Body?
  }

  /** At the last failure: everything before it must come from elsewhere, nothing after it is added. */
  lemma {:induction false} DownEndsWithLastFailure(replies: seq<Reply>, shardMap: map<Address, int>,
                                                   observed: nat -> seq<NoReply>, j: nat)
    requires LastFailure(replies, j)
    ensures ConsensusDown(replies, shardMap, observed) == observed(j) + [DownEntry(replies[j], shardMap)]
    ensures DownOf(replies, shardMap) == DownOf(replies[..j], shardMap) + [DownEntry(replies[j], shardMap)]
    decreases |replies|
  {
    var n := |replies| - 1;
    assert replies[..n + 1] == replies;
    if j == n {
      DownSnoc(replies, n, shardMap);
    } else {
      DownEndsWithLastFailure(replies[..n], shardMap, observed, j);
      DownSkip(replies, n, shardMap);
      assert replies[..n][..j] == replies[..j];
    }
  }

  lemma {:induction false} NothingFailed(replies: seq<Reply>, shardMap: map<Address, int>,
                                         observed: nat -> seq<NoReply>)
    ensures Failed(replies) == [] ==> ConsensusDown(replies, shardMap, observed) == DownOf(replies, shardMap) == []
    ensures Failed(replies) != [] ==> exists j: nat :: LastFailure(replies, j)
  {
    if replies == [] {
    } else {
      var n := |replies| - 1;
      NothingFailed(replies[..n], shardMap, observed);
      if replies[n].outcome.Oops? {
        assert LastFailure(replies, n);
      } else if j: nat :| LastFailure(replies[..n], j) {
        assert forall i :: j < i < n ==> replies[i] == replies[..n][i];
        assert LastFailure(replies, j);
      }
    }
  }

  lemma SameLastElement<T>(xs: seq<T>, ys: seq<T>, x: T)
    ensures xs + [x] == ys + [x] <==> xs == ys
  {
    assert xs == (xs + [x])[..|xs|];
    assert ys == (ys + [x])[..|ys|];
  }

  /**
   `Down` lists the failures of the round if and only if, at the last failure, the manager's list is
   that of all earlier ones; with no failure at all it is right.
   */
  lemma ConsensusDownExact(replies: seq<Reply>, shardMap: map<Address, int>, observed: nat -> seq<NoReply>)
    ensures ConsensusDown(replies, shardMap, observed) == DownOf(replies, shardMap) <==>
      forall j: nat :: LastFailure(replies, j) ==> observed(j) == DownOf(replies[..j], shardMap)
  {
    NothingFailed(replies, shardMap, observed);
    forall j: nat | LastFailure(replies, j)
      ensures ConsensusDown(replies, shardMap, observed) == DownOf(replies, shardMap)
         <==> observed(j) == DownOf(replies[..j], shardMap)
    {
      DownEndsWithLastFailure(replies, shardMap, observed, j);
      SameLastElement(observed(j), DownOf(replies[..j], shardMap), DownEntry(replies[j], shardMap));
    }
  }

  /** The same for the number of silent machines that is logged. */
  lemma LoggedDownCount(replies: seq<Reply>, shardMap: map<Address, int>, observed: nat -> seq<NoReply>)
    ensures |ConsensusDown(replies, shardMap, observed)| == |Failed(replies)| <==>
      forall j: nat :: LastFailure(replies, j) ==> |observed(j)| == |Failed(replies[..j])|
  {
    NothingFailed(replies, shardMap, observed);
    forall j: nat | LastFailure(replies, j)
      ensures |ConsensusDown(replies, shardMap, observed)| == |Failed(replies)|
         <==> |observed(j)| == |Failed(replies[..j])|
    {
      DownEndsWithLastFailure(replies, shardMap, observed, j);
      assert |DownOf(replies, shardMap)| == |DownOf(replies[..j], shardMap)| + 1;
    }
  }

  /** It does go wrong: two failures and an empty list of the manager are logged as one machine. */
  lemma TwoFailuresLogOne(a: Reply, b: Reply, shardMap: map<Address, int>)
    requires a.outcome.Oops? && b.outcome.Oops?
    ensures ConsensusDown([a, b], shardMap, _ => []) == [DownEntry(b, shardMap)]
    ensures DownOf([a, b], shardMap) == [DownEntry(a, shardMap), DownEntry(b, shardMap)]
  {
    var replies := [a, b];
    assert replies[..2] == replies && replies[..1][..0] == replies[..0];
    DownSnoc(replies, 0, shardMap);
    DownSnoc(replies, 1, shardMap);
  }

  // ----- epochs -----

  /** The epoch of the first header of shard 0. */
  function BeaconEpoch(nodes: seq<BlockHeader>): Option<uint64> {
    if nodes == [] then None
    else if nodes[0].shard == 0 then Some(nodes[0].epoch)
    else BeaconEpoch(nodes[1..])
  }

  /** Header i is the first of shard 0. */
  ghost predicate FirstBeacon(nodes: seq<BlockHeader>, i: nat) {
    i < |nodes| && nodes[i].shard == 0 && forall j :: 0 <= j < i ==> nodes[j].shard != 0
  }

  /** Its first shard-0 header has the epoch. */
  ghost predicate Shows(nodes: seq<BlockHeader>, epoch: uint64) {
    exists i: nat :: FirstBeacon(nodes, i) && nodes[i].epoch == epoch
  }

  /** The epoch looked at is that of the first shard-0 header, if there is one. */
  lemma {:induction false} BeaconEpochIs(nodes: seq<BlockHeader>, epoch: uint64)
    ensures BeaconEpoch(nodes) == Some(epoch) <==> Shows(nodes, epoch)
  {
    if nodes == [] {
    } else if nodes[0].shard == 0 {
      assert FirstBeacon(nodes, 0);
      assert forall i: nat :: FirstBeacon(nodes, i) ==> i == 0;
    } else {
      BeaconEpochIs(nodes[1..], epoch);
      if i: nat :| FirstBeacon(nodes, i) && nodes[i].epoch == epoch {
        assert FirstBeacon(nodes[1..], i - 1);
      }
      if i: nat :| FirstBeacon(nodes[1..], i) && nodes[1..][i].epoch == epoch {
        assert FirstBeacon(nodes, i + 1);
      }
    }
  }

  lemma BeaconEpochShows(nodes: seq<BlockHeader>)
    ensures forall e :: Shows(nodes, e) <==> BeaconEpoch(nodes) == Some(e)
  {
    forall e ensures Shows(nodes, e) <==> BeaconEpoch(nodes) == Some(e) {
      BeaconEpochIs(nodes, e);
    }
  }

  /** Whether a round triggers a committee refresh. */
  predicate Rises(prev: uint64, nodes: seq<BlockHeader>) {
    BeaconEpoch(nodes).Some? && BeaconEpoch(nodes).value > prev
  }

  function NextEpoch(prev: uint64, nodes: seq<BlockHeader>): uint64 {
    if Rises(prev, nodes) then BeaconEpoch(nodes).value else prev
  }

  class EpochTracker {
    var prevEpoch: uint64

    constructor ()
      ensures prevEpoch == 0
    {
      prevEpoch := 0;
    }

    /** The loop that ends at the first shard-0 header. */
    method Inspect(nodes: seq<BlockHeader>) returns (refresh: bool)
      modifies this
      ensures refresh == Rises(old(prevEpoch), nodes) && prevEpoch == NextEpoch(old(prevEpoch), nodes)
      ensures refresh <==> exists e :: Shows(nodes, e) && e > old(prevEpoch)
      ensures if refresh then Shows(nodes, prevEpoch) else prevEpoch == old(prevEpoch)
    {
      BeaconEpochShows(nodes);
      refresh := false;
      var i := 0;
      while i < |nodes|
        invariant 0 <= i <= |nodes| && !refresh && prevEpoch == old(prevEpoch)
        invariant BeaconEpoch(nodes) == BeaconEpoch(nodes[i..])
      {
        if nodes[i].shard == 0 {
          if nodes[i].epoch > prevEpoch {
            prevEpoch := nodes[i].epoch;
            refresh := true;
          }
          break;
        }
        assert nodes[i..][1..] == nodes[i + 1..];
        i := i + 1;
      }
    }
  }

  /** `prevEpoch` after the first k rounds. */
  ghost function EpochAt(rounds: seq<seq<BlockHeader>>, k: nat): uint64
    requires k <= |rounds|
  {
    if k == 0 then 0 else NextEpoch(EpochAt(rounds, k - 1), rounds[k - 1])
  }

  ghost predicate RefreshAt(rounds: seq<seq<BlockHeader>>, k: nat)
    requires k < |rounds|
  {
    Rises(EpochAt(rounds, k), rounds[k])
  }

  /** `prevEpoch` is the running maximum, from 0, of the epoch of each round's first shard-0 header. */
  lemma {:induction false} EpochIsRunningMax(rounds: seq<seq<BlockHeader>>, k: nat)
    requires k <= |rounds|
    ensures forall i, e :: 0 <= i < k && Shows(rounds[i], e) ==> e <= EpochAt(rounds, k)
    ensures EpochAt(rounds, k) == 0 || exists i :: 0 <= i < k && Shows(rounds[i], EpochAt(rounds, k))
  {
    if k == 0 {
    } else {
      EpochIsRunningMax(rounds, k - 1);
      BeaconEpochShows(rounds[k - 1]);
    }
  }

  /** The epoch is above those of the first shard-0 headers of the first k rounds. */
  ghost predicate AboveAll(rounds: seq<seq<BlockHeader>>, k: nat, epoch: uint64)
    requires k <= |rounds|
  {
    forall i, e :: 0 <= i < k && Shows(rounds[i], e) ==> e < epoch
  }

  /** A refresh happens exactly at a strict new maximum of those epochs. */
  lemma RefreshIsNewMaximum(rounds: seq<seq<BlockHeader>>, k: nat)
    requires k < |rounds|
    ensures RefreshAt(rounds, k) <==> exists e :: Shows(rounds[k], e) && e > 0 && AboveAll(rounds, k, e)
  {
    EpochIsRunningMax(rounds, k);
    BeaconEpochShows(rounds[k]);
  }

  ghost function Refreshes(rounds: seq<seq<BlockHeader>>, k: nat): nat
    requires k <= |rounds|
  {
    if k == 0 then 0 else Refreshes(rounds, k - 1) + if RefreshAt(rounds, k - 1) then 1 else 0
  }

  /** There are never more refreshes than the epoch number reached. */
  lemma {:induction false} RefreshesBounded(rounds: seq<seq<BlockHeader>>, k: nat)
    requires k <= |rounds|
    ensures Refreshes(rounds, k) <= EpochAt(rounds, k) as nat
  {
    if k == 0 {
    } else {
      RefreshesBounded(rounds, k - 1);
    }
  }
}
