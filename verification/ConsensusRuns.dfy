/**
 `consensusMonitor` joined to its engine: what its ticks see is what the requests of their own
 rounds returned, and its alerts are in those terms.
 */
module ConsensusRuns {
  import opened Polling
  import opened WorkerPool
  import opened WorkerPoolTheorems
  import opened WorkerPoolOutcomes
  import opened EndToEnd
  import opened HeaderSummary
  import opened ConsensusMonitor
  import ManagerRound

  lemma AnsweredMember(replies: seq<Reply>, x: Reply)
    ensures x in ManagerRound.Answered(replies) <==> x in replies && x.outcome.Body?
  {
    ManagerRound.RepliesPartition(replies, x);
    assert x in multiset(ManagerRound.Answered(replies)) <==> x in ManagerRound.Answered(replies);
    assert x in multiset(ManagerRound.Failed(replies)) <==> x in ManagerRound.Failed(replies);
    assert x in multiset(replies) <==> x in replies;
  }

  /** The reply of an ended round that came from target a. */
  lemma ReplyFrom(nodes: set<Address>, rpcs: nat, poolSize: nat, ls: seq<Label>, r: nat, k: nat, a: Address)
    returns (x: Reply)
    requires CanRun(Initial(nodes, rpcs, poolSize), ls)
    requires var s := After(Initial(nodes, rpcs, poolSize), ls); Ended(s, r, k) && a in RoundChan(s, r, k).targets
    ensures x in Heard(RoundChan(After(Initial(nodes, rpcs, poolSize), ls), r, k)) && x.address == a
    ensures Responded(Initial(nodes, rpcs, poolSize), ls, Work(a, r, k), x.outcome)
  {
    var s := After(Initial(nodes, rpcs, poolSize), ls);
    assert Reachable(nodes, rpcs, poolSize, s);
    HeardFromEachOnce(nodes, rpcs, poolSize, s, r, k);
    var heard := Heard(RoundChan(s, r, k));
    assert a in Senders(heard);
    var i :| 0 <= i < |heard| && Senders(heard)[i] == a;
    RepliesAreGenuine(nodes, rpcs, poolSize, ls, r, k, i);
    x := heard[i];
  }

  /** A reply of an ended round carries what the request to its sender returned. */
  lemma ReplyIsReturned(nodes: set<Address>, rpcs: nat, poolSize: nat, ls: seq<Label>, r: nat, k: nat, i: nat)
    requires CanRun(Initial(nodes, rpcs, poolSize), ls)
    requires var s := After(Initial(nodes, rpcs, poolSize), ls); Ended(s, r, k) && i < |Heard(RoundChan(s, r, k))|
    ensures var s := After(Initial(nodes, rpcs, poolSize), ls); var x := Heard(RoundChan(s, r, k))[i];
      && x.address in RoundChan(s, r, k).targets
      && Responded(Initial(nodes, rpcs, poolSize), ls, Work(x.address, r, k), x.outcome)
  {
    var s := After(Initial(nodes, rpcs, poolSize), ls);
    assert Reachable(nodes, rpcs, poolSize, s);
    HeardFromEachOnce(nodes, rpcs, poolSize, s, r, k);
    RepliesAreGenuine(nodes, rpcs, poolSize, ls, r, k, i);
    assert Senders(Heard(RoundChan(s, r, k)))[i] in Senders(Heard(RoundChan(s, r, k)));
  }

  /** In the run, the request of round k of lane r to target a returned a body that decodes to h. */
  ghost predicate Said(s0: State, ls: seq<Label>, r: nat, k: nat, decode: (Address, string) -> BlockHeader,
                       a: Address, h: BlockHeader)
    requires CanRun(s0, ls) && Ended(After(s0, ls), r, k)
  {
    && a in RoundChan(After(s0, ls), r, k).targets
    && exists body :: Responded(s0, ls, Work(a, r, k), Body(body)) && decode(a, body) == h
  }

  lemma SaidIsCollected(nodes: set<Address>, rpcs: nat, poolSize: nat, ls: seq<Label>, r: nat, k: nat,
                        decode: (Address, string) -> BlockHeader, a: Address, h: BlockHeader)
    requires CanRun(Initial(nodes, rpcs, poolSize), ls) && Ended(After(Initial(nodes, rpcs, poolSize), ls), r, k)
    requires Said(Initial(nodes, rpcs, poolSize), ls, r, k, decode, a, h)
    ensures var s := After(Initial(nodes, rpcs, poolSize), ls);
      h in ManagerRound.NodesOf(Heard(RoundChan(s, r, k)), decode)
  {
    var s0 := Initial(nodes, rpcs, poolSize);
    var heard := Heard(RoundChan(After(s0, ls), r, k));
    var x := ReplyFrom(nodes, rpcs, poolSize, ls, r, k, a);
    var body :| Responded(s0, ls, Work(a, r, k), Body(body)) && decode(a, body) == h;
    OneOutcomeEach(nodes, rpcs, poolSize, ls, Work(a, r, k), x.outcome, Body(body));
    AnsweredMember(heard, x);
    var answered := ManagerRound.Answered(heard);
    var j :| 0 <= j < |answered| && answered[j] == x;
    assert ManagerRound.NodesOf(heard, decode)[j] == h;
  }

  lemma CollectedIsSaid(nodes: set<Address>, rpcs: nat, poolSize: nat, ls: seq<Label>, r: nat, k: nat,
                        decode: (Address, string) -> BlockHeader, h: BlockHeader)
    returns (a: Address)
    requires CanRun(Initial(nodes, rpcs, poolSize), ls) && Ended(After(Initial(nodes, rpcs, poolSize), ls), r, k)
    requires var s := After(Initial(nodes, rpcs, poolSize), ls);
      h in ManagerRound.NodesOf(Heard(RoundChan(s, r, k)), decode)
    ensures Said(Initial(nodes, rpcs, poolSize), ls, r, k, decode, a, h)
  {
    var heard := Heard(RoundChan(After(Initial(nodes, rpcs, poolSize), ls), r, k));
    var answered, hs := ManagerRound.Answered(heard), ManagerRound.NodesOf(heard, decode);
    var j :| 0 <= j < |hs| && hs[j] == h;
    AnsweredMember(heard, answered[j]);
    var i :| 0 <= i < |heard| && heard[i] == answered[j];
    ReplyIsReturned(nodes, rpcs, poolSize, ls, r, k, i);
    a := answered[j].address;
  }

  /** The headers collected in a round are exactly those that its own requests returned. */
  lemma RoundHeaders(nodes: set<Address>, rpcs: nat, poolSize: nat, ls: seq<Label>, r: nat, k: nat,
                     decode: (Address, string) -> BlockHeader, h: BlockHeader)
    requires CanRun(Initial(nodes, rpcs, poolSize), ls) && Ended(After(Initial(nodes, rpcs, poolSize), ls), r, k)
    ensures h in ManagerRound.NodesOf(Heard(RoundChan(After(Initial(nodes, rpcs, poolSize), ls), r, k)), decode) <==>
      exists a :: Said(Initial(nodes, rpcs, poolSize), ls, r, k, decode, a, h)
  {
    var s0 := Initial(nodes, rpcs, poolSize);
    if h in ManagerRound.NodesOf(Heard(RoundChan(After(s0, ls), r, k)), decode) {
      var a := CollectedIsSaid(nodes, rpcs, poolSize, ls, r, k, decode, h);
    }
    if a :| Said(s0, ls, r, k, decode, a, h) {
      SaidIsCollected(nodes, rpcs, poolSize, ls, r, k, decode, a, h);
    }
  }

  /** What the ticks of a run of the monitor see: tick k summarises the replies of round k. */
  ghost predicate Sees(s: State, r: nat, decode: (Address, string) -> BlockHeader, run: seq<Reading>) {
    forall k: nat :: k < |run| ==>
      Completed(s, r, k) && Mapped(ManagerRound.NodesOf(Heard(RoundChan(s, r, k)), decode), Summarize, run[k].sum)
  }

  lemma KeyMeansShard(hs: seq<BlockHeader>, sum: map<string, ShardSummary>, shard: uint32)
    requires Mapped(hs, Summarize, sum)
    ensures Name(shard) in sum <==> shard in Shards(hs)
  {
    if Name(shard) in sum {
      var t :| t in Shards(hs) && Name(t) == Name(shard);
      if t != shard {
        NameInjective(t, shard);
      }
    }
  }

  /** The summary's height is the greatest among the headers of the shard, and the newest block has it. */
  lemma HighestInShard(hs: seq<BlockHeader>, sum: map<string, ShardSummary>, shard: uint32)
    requires Mapped(hs, Summarize, sum) && shard in Shards(hs)
    ensures Name(shard) in sum
    ensures forall h :: h in hs && h.shard == shard ==> h.number <= sum[Name(shard)].blockMax
    ensures var latest := sum[Name(shard)].latest;
      latest in hs && latest.shard == shard && latest.number == sum[Name(shard)].blockMax
  {
    var i := LatestIsFirst(hs, sum, shard);
  }

  /**
   In every run of the engine, tick k summarises a shard if and only if a target of round k reported
   a header of it; its height is the greatest that any of them reported, and its newest block is one
   of those reported at that height.
   */
  lemma TickSees(nodes: set<Address>, rpcs: nat, poolSize: nat, ls: seq<Label>, r: nat, run: seq<Reading>,
                 decode: (Address, string) -> BlockHeader, k: nat, shard: uint32)
    requires CanRun(Initial(nodes, rpcs, poolSize), ls) && k < |run|
    requires Sees(After(Initial(nodes, rpcs, poolSize), ls), r, decode, run)
    ensures Completed(After(Initial(nodes, rpcs, poolSize), ls), r, k)
    ensures var s0 := Initial(nodes, rpcs, poolSize);
      && (Name(shard) in run[k].sum <==> exists a, h :: Said(s0, ls, r, k, decode, a, h) && h.shard == shard)
      && (Name(shard) in run[k].sum ==>
            && (forall a, h :: Said(s0, ls, r, k, decode, a, h) && h.shard == shard ==>
                  h.number <= run[k].sum[Name(shard)].blockMax)
            && (exists a :: Said(s0, ls, r, k, decode, a, run[k].sum[Name(shard)].latest))
            && run[k].sum[Name(shard)].latest.shard == shard
            && run[k].sum[Name(shard)].latest.number == run[k].sum[Name(shard)].blockMax)
  {
    var s0 := Initial(nodes, rpcs, poolSize);
    assert Completed(After(s0, ls), r, k);
    var hs := ManagerRound.NodesOf(Heard(RoundChan(After(s0, ls), r, k)), decode);
    KeyMeansShard(hs, run[k].sum, shard);
    forall a, h | Said(s0, ls, r, k, decode, a, h) && h.shard == shard ensures h in hs && shard in Shards(hs) {
      SaidIsCollected(nodes, rpcs, poolSize, ls, r, k, decode, a, h);
      var i :| 0 <= i < |hs| && hs[i] == h;
    }
    if Name(shard) in run[k].sum {
      HighestInShard(hs, run[k].sum, shard);
      var a := CollectedIsSaid(nodes, rpcs, poolSize, ls, r, k, decode, run[k].sum[Name(shard)].latest);
    }
  }

  /**
   The alert in terms of the nodes: tick k alerts on a shard if and only if some target of its round
   reported the shard, none reported more than the last tick j that summarised the shard without
   alerting, and the newest block that was reported then is now too old.
   */
  lemma AlertMeansNobodyMoved(nodes: set<Address>, rpcs: nat, poolSize: nat, ls: seq<Label>, r: nat,
                              run: seq<Reading>, decode: (Address, string) -> BlockHeader, warning: uint64,
                              k: nat, shard: uint32)
    requires CanRun(Initial(nodes, rpcs, poolSize), ls) && k < |run|
    requires Sees(After(Initial(nodes, rpcs, poolSize), ls), r, decode, run)
    ensures Completed(After(Initial(nodes, rpcs, poolSize), ls), r, k)
    ensures AlertsAt(run, warning, Name(shard), k) <==>
      var s0 := Initial(nodes, rpcs, poolSize);
      && (exists a, h :: Said(s0, ls, r, k, decode, a, h) && h.shard == shard)
      && (exists j: nat ::
            && LastRecord(run, warning, Name(shard), j, k)
            && (forall a, h :: Said(s0, ls, r, k, decode, a, h) && h.shard == shard ==>
                  h.number <= run[j].sum[Name(shard)].latest.number)
            && TooOld(run[k].now, run[j].sum[Name(shard)].latest.unixTime, warning))
  {
    TickSees(nodes, rpcs, poolSize, ls, r, run, decode, k, shard);
    AlertIsStall(run, warning, Name(shard), k);
    forall j: nat | LastRecord(run, warning, Name(shard), j, k)
      ensures run[j].sum[Name(shard)].latest.number == run[j].sum[Name(shard)].blockMax
    {
      TickSees(nodes, rpcs, poolSize, ls, r, run, decode, j, shard);
    }
  }
}
