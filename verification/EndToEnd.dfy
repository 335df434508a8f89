/**
 The parts joined: what a completed round of the polling engine hands to its manager.
 */
module EndToEnd {
  import opened Polling
  import opened WorkerPool
  import opened WorkerPoolInvariant
  import opened WorkerPoolTheorems
  import BeaconPool
  import BeaconSync
  import CrossLinkMonitor
  import LeaderQuery
  import ManagerRound
  import NodeList

  ghost function Replies(answers: seq<Answer>): seq<Reply> {
    seq(|answers|, i requires 0 <= i < |answers| => Reply(answers[i].address, answers[i].outcome))
  }

  /** The replies of a channel as the manager's loop reads them, to the end. */
  ghost function Heard(c: Chan): seq<Reply> {
    Replies(c.sent)
  }

  /** Channel k of lane r belongs to a round whose loop over the replies has ended. */
  ghost predicate Ended(s: State, r: nat, k: nat) {
    r < |s.lanes| && (k < |s.lanes[r].retired| || (k == |s.lanes[r].retired| && s.lanes[r].phase.Drained?))
  }

  ghost function RoundChan(s: State, r: nat, k: nat): Chan
    requires Ended(s, r, k)
  {
    ChanAt(s.lanes[r], k)
  }

  /** And the loop was not left early. */
  ghost predicate Completed(s: State, r: nat, k: nat) {
    Ended(s, r, k) && !RoundChan(s, r, k).abandoned
  }

  /** In every run, every completed round heard from each of its targets exactly once. */
  lemma HeardFromEachOnce(nodes: set<Address>, rpcs: nat, poolSize: nat, s: State, r: nat, k: nat)
    requires Reachable(nodes, rpcs, poolSize, s) && Ended(s, r, k)
    ensures Distinct(Senders(Heard(RoundChan(s, r, k))))
    ensures Elements(Senders(Heard(RoundChan(s, r, k)))) == RoundChan(s, r, k).targets <= nodes
    ensures Completed(s, r, k) ==> RoundChan(s, r, k).received == |Heard(RoundChan(s, r, k))|
  {
    ReachableInv(nodes, rpcs, poolSize, s);
    BarrierExact(nodes, rpcs, poolSize, s, r);
    assert Good(s, r);
    var c := RoundChan(s, r, k);
    assert Senders(Heard(c)) == Addresses(c.sent);
    if k < |s.lanes[r].retired| {
      assert RetiredOk(s.nodes, s.lanes[r].retired[k], r, k);
    }
  }

  /** The rounds of a lane whose loop is never left early are all completed. */
  lemma DrainingLanesComplete(nodes: set<Address>, rpcs: nat, poolSize: nat, ls: seq<Label>, r: nat, k: nat)
    requires CanRun(Initial(nodes, rpcs, poolSize), ls) && Abandon(r) !in ls
    requires Ended(After(Initial(nodes, rpcs, poolSize), ls), r, k)
    ensures Completed(After(Initial(nodes, rpcs, poolSize), ls), r, k)
  {
    RunKeepsShape(Initial(nodes, rpcs, poolSize), ls);
    DrainingLanesDrain(nodes, rpcs, poolSize, ls, r);
  }

  /**
   Conservation: after every completed round, each target is in exactly one of `Nodes` and `Down`,
   once, and nobody else is in either.
   */
  lemma RoundIsConserved<N>(nodes: set<Address>, rpcs: nat, poolSize: nat, s: State, r: nat, k: nat,
                            decode: (Address, string) -> N, ip: N -> Address, shardMap: map<Address, int>,
                            a: Address)
    requires Reachable(nodes, rpcs, poolSize, s) && Completed(s, r, k) && ManagerRound.Carries(decode, ip)
    ensures var c := RoundChan(s, r, k);
      multiset(ManagerRound.Ips(ManagerRound.NodesOf(Heard(c), decode), ip))[a]
      + multiset(ManagerRound.Ips(ManagerRound.DownOf(Heard(c), shardMap), (d: ManagerRound.NoReply) => d.ip))[a]
      == if a in c.targets then 1 else 0
  {
    HeardFromEachOnce(nodes, rpcs, poolSize, s, r, k);
    ManagerRound.AddressesPartition(Heard(RoundChan(s, r, k)), decode, ip, shardMap, a);
  }

  /** An accepted configuration polls somebody, so no round over all nodes leaves old data in place. */
  lemma RoundsAreNotEmpty(byShard: NodeList.ByShard, shardMap: map<Address, int>, rpcs: nat, poolSize: nat,
                          s: State, r: nat, k: nat)
    requires NodeList.All(byShard) != multiset{} && forall m :: NodeList.All(byShard)[m] <= 1
    requires NodeList.Maps(shardMap, byShard, byShard.Keys)
    requires Reachable(shardMap.Keys, rpcs, poolSize, s) && Completed(s, r, k)
    requires RoundChan(s, r, k).targets == shardMap.Keys
    ensures |Heard(RoundChan(s, r, k))| == |shardMap| > 0
  {
    NodeList.AcceptedShardMap(byShard, shardMap);
    HeardFromEachOnce(shardMap.Keys, rpcs, poolSize, s, r, k);
    ListingIsBagOfSet(Senders(Heard(RoundChan(s, r, k))));
    assert |shardMap| == |shardMap.Keys|;
  }

  /**
   The second phase of a two-phase monitor: the leaders found in a completed first round are
   distinct nodes, so they are a legal round, no larger than the reply channel.
   */
  lemma PhaseTwoIsLegal(nodes: set<Address>, rpcs: nat, poolSize: nat, s: State, r: nat, k: nat, q: nat,
                        decode: string -> LeaderQuery.Metadata, shards: set<int>, asked: seq<Address>)
    requires Reachable(nodes, rpcs, poolSize, s) && Completed(s, r, k)
    requires LeaderQuery.AsksLeadersOnce(asked, Heard(RoundChan(s, r, k)), decode, shards)
    ensures |asked| == |Elements(asked)| <= |nodes|
    ensures s.fault == NoFault && q < |s.lanes| && s.lanes[q].phase.Idle? ==> Enabled(s, Tick(q, Elements(asked)))
  {
    HeardFromEachOnce(nodes, rpcs, poolSize, s, r, k);
    ReachableInv(nodes, rpcs, poolSize, s);
    var replies := Heard(RoundChan(s, r, k));
    LeaderQuery.PhaseTwoFits(asked, replies, decode, shards);
    ListingIsBagOfSet(asked);
    assert nodes == Elements(asked) + (nodes - Elements(asked));
  }

  /** The same for the leaders that `crossLinkMonitor` asks. */
  lemma CrossLinkPhaseTwoIsLegal(nodes: set<Address>, rpcs: nat, poolSize: nat, s: State, r: nat, k: nat, q: nat,
                                 decode: string -> LeaderQuery.Metadata)
    requires Reachable(nodes, rpcs, poolSize, s) && Completed(s, r, k)
    ensures var asked := LeaderQuery.LeadersOf(Heard(RoundChan(s, r, k)), decode, 0);
      && |asked| == |Elements(asked)| <= |nodes|
      && (s.fault == NoFault && q < |s.lanes| && s.lanes[q].phase.Idle? ==> Enabled(s, Tick(q, Elements(asked))))
  {
    HeardFromEachOnce(nodes, rpcs, poolSize, s, r, k);
    var replies := Heard(RoundChan(s, r, k));
    LeaderQuery.BeaconLeadersAskedOnce(replies, decode);
    PhaseTwoIsLegal(nodes, rpcs, poolSize, s, r, k, q, decode, {0}, LeaderQuery.LeadersOf(replies, decode, 0));
  }

  lemma {:induction false} FirstAnswerInPrefix(answers: seq<Answer>, n: nat,
                                               decode: string -> seq<CrossLinkMonitor.CrossLink>)
    requires 0 < n <= |answers| && answers[n - 1].outcome.Body?
    ensures CrossLinkMonitor.FirstAnswer(Replies(answers[..n]), decode)
         == CrossLinkMonitor.FirstAnswer(Replies(answers), decode)
  {
    if answers[0].outcome.Body? {
    } else {
      FirstAnswerInPrefix(answers[1..], n - 1, decode);
      assert Replies(answers)[1..] == Replies(answers[1..]);
      assert answers[..n][1..] == answers[1..][..n - 1];
      assert Replies(answers[..n])[1..] == Replies(answers[1..][..n - 1]);
    }
  }

  /**
   `crossLinkMonitor` breaks out of its second loop and drops what is left in the channel.  Nothing
   is lost: what it processed is what the whole round would have given.
   */
  lemma BreakLosesNothing(nodes: set<Address>, rpcs: nat, poolSize: nat, s: State, r: nat, k: nat,
                          decode: string -> seq<CrossLinkMonitor.CrossLink>)
    requires Reachable(nodes, rpcs, poolSize, s) && Ended(s, r, k)
    ensures var c := RoundChan(s, r, k);
      && c.received <= |c.sent|
      && CrossLinkMonitor.FirstAnswer(Replies(c.sent[..c.received]), decode)
         == CrossLinkMonitor.FirstAnswer(Heard(c), decode)
  {
    ReachableInv(nodes, rpcs, poolSize, s);
    BarrierExact(nodes, rpcs, poolSize, s, r);
    BreaksOnSuccess(nodes, rpcs, poolSize, s, r);
    var c := RoundChan(s, r, k);
    if c.abandoned {
      assert LeftOnSuccess(ChanAt(s.lanes[r], k));
      FirstAnswerInPrefix(c.sent, c.received, decode);
    } else {
      assert c.sent[..c.received] == c.sent;
    }
  }

  /** The headers that `getBeaconHeaders` returns, with the height decoded. */
  ghost function Headers(ret: map<Address, Option<string>>, number: string -> uint64): map<Address, Option<uint64>> {
    map a | a in ret :: if ret[a].Some? then Some(number(ret[a].value)) else None
  }

  /** A node has a decoded height exactly if its request returned a body with that height. */
  lemma HeaderMeansBody(shardMap: map<Address, int>, poolSize: nat, ls: seq<BeaconPool.Label>,
                        number: string -> uint64, a: Address, height: uint64)
    requires 0 < poolSize <= BeaconPool.INT32_SPAN && BeaconPool.CanRun(BeaconPool.Initial(shardMap, poolSize), ls)
    requires BeaconPool.After(BeaconPool.Initial(shardMap, poolSize), ls).finished
    ensures var s0 := BeaconPool.Initial(shardMap, poolSize);
      var headers := Headers(BeaconPool.After(s0, ls).ret, number);
      && (a in headers && headers[a] == Some(height) <==>
            exists body :: BeaconPool.Responded(s0, ls, a, Body(body)) && number(body) == height)
      && (a in headers ==> a in shardMap && shardMap[a] != 0)
  {
    BeaconPool.ResultIsComplete(shardMap, poolSize, ls);
    var s0 := BeaconPool.Initial(shardMap, poolSize);
    var s := BeaconPool.After(s0, ls);
    if a in s.ret && s.ret[a].Some? {
      assert BeaconPool.Responded(s0, ls, a, Body(s.ret[a].value));
    }
  }

  /**
   The beacon check as a whole: however `getBeaconHeaders` was scheduled, a second look is launched
   for exactly the nodes whose request returned a height that is behind by at least the threshold,
   with that height; they are nodes of shards other than 0.
   */
  lemma SecondLooks(shardMap: map<Address, int>, poolSize: nat, ls: seq<BeaconPool.Label>, number: string -> uint64,
                    beaconBlock: uint64, threshold: uint64, launched: map<Address, uint64>)
    requires 0 < poolSize <= BeaconPool.INT32_SPAN && BeaconPool.CanRun(BeaconPool.Initial(shardMap, poolSize), ls)
    requires BeaconPool.After(BeaconPool.Initial(shardMap, poolSize), ls).finished
    requires var s := BeaconPool.After(BeaconPool.Initial(shardMap, poolSize), ls);
      BeaconSync.Launches(beaconBlock, threshold, Headers(s.ret, number), launched)
    ensures var s0 := BeaconPool.Initial(shardMap, poolSize);
      && (forall a :: a in launched <==> exists body ::
            && BeaconPool.Responded(s0, ls, a, Body(body)) && beaconBlock as int - number(body) as int > 0
            && beaconBlock as int - number(body) as int >= threshold as int)
      && (forall a, body :: a in launched && BeaconPool.Responded(s0, ls, a, Body(body)) ==>
            launched[a] == number(body))
      && (forall a :: a in launched ==> a in shardMap && shardMap[a] != 0)
  {
    var s0 := BeaconPool.Initial(shardMap, poolSize);
    var headers := Headers(BeaconPool.After(s0, ls).ret, number);
    forall a, body | BeaconPool.Responded(s0, ls, a, Body(body))
      ensures a in headers && headers[a] == Some(number(body))
    {
      HeaderMeansBody(shardMap, poolSize, ls, number, a, number(body));
    }
    forall a | a in launched
      ensures a in shardMap && shardMap[a] != 0
      ensures exists body :: BeaconPool.Responded(s0, ls, a, Body(body)) && number(body) == launched[a]
    {
      HeaderMeansBody(shardMap, poolSize, ls, number, a, launched[a]);
    }
  }
}
