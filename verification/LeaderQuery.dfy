/**
 The two-phase monitors: ask every node for its metadata, then ask those that call themselves
 leaders.  `cxMonitor` groups the leaders by shard and later looks a leader's shard up again;
 `crossLinkMonitor` keeps the leaders of shard 0.
 */
module LeaderQuery {
  import opened Polling

  /** The metadata fields the monitors use. */
  datatype Metadata = Metadata(isLeader: bool, shard: uint32)

  type Leaders = map<int, seq<Address>>

  predicate Leads(r: Reply, decode: string -> Metadata) {
    r.outcome.Body? && decode(r.outcome.bytes).isLeader
  }

  /** The shard a leader reported. */
  function ReportedShard(r: Reply, decode: string -> Metadata): int
    requires Leads(r, decode)
  {
    decode(r.outcome.bytes).shard as int
  }

  /** The leaders of one shard, in the order of their replies. */
  function LeadersOf(replies: seq<Reply>, decode: string -> Metadata, shard: int): seq<Address> {
    if replies == [] then []
    else
      var r := replies[|replies| - 1];
      var before := LeadersOf(replies[..|replies| - 1], decode, shard);
      if Leads(r, decode) && ReportedShard(r, decode) == shard then before + [r.address] else before
  }

  ghost predicate LeadsAs(r: Reply, decode: string -> Metadata, a: Address, shard: int) {
    r.address == a && Leads(r, decode) && ReportedShard(r, decode) == shard
  }

  /** Some reply of a says that it leads the shard. */
  ghost predicate LeadsShard(replies: seq<Reply>, decode: string -> Metadata, a: Address, shard: int) {
    exists i :: 0 <= i < |replies| && LeadsAs(replies[i], decode, a, shard)
  }

  lemma LeadsSnoc(replies: seq<Reply>, r: Reply, decode: string -> Metadata, a: Address, shard: int)
    ensures LeadsShard(replies + [r], decode, a, shard) <==>
      LeadsShard(replies, decode, a, shard) || LeadsAs(r, decode, a, shard)
  {
    var all := replies + [r];
    assert all[|replies|] == r;
    if LeadsShard(replies, decode, a, shard) {
      var i :| 0 <= i < |replies| && LeadsAs(replies[i], decode, a, shard);
      assert all[i] == replies[i];
    }
  }

  lemma {:induction false} LeaderMember(replies: seq<Reply>, decode: string -> Metadata, shard: int, a: Address)
    ensures a in LeadersOf(replies, decode, shard) <==> LeadsShard(replies, decode, a, shard)
  {
    if replies == [] {
    } else {
      var n := |replies| - 1;
      LeaderMember(replies[..n], decode, shard, a);
      assert replies == replies[..n] + [replies[n]];
      LeadsSnoc(replies[..n], replies[n], decode, a, shard);
    }
  }

  /** They are the senders, in order, of the replies whose metadata names a leader of the shard. */
  lemma {:induction false} LeadersAreListing(replies: seq<Reply>, decode: string -> Metadata, shard: int)
    ensures Gathers(LeadersOf(replies, decode, shard),
                    seq(|replies|, i requires 0 <= i < |replies| =>
                      var r := replies[i];
                      if r.outcome.Body? && decode(r.outcome.bytes).isLeader
                         && decode(r.outcome.bytes).shard as int == shard then Some(r.address) else None))
  {
    var ys := seq(|replies|, i requires 0 <= i < |replies| =>
      var r := replies[i];
      if r.outcome.Body? && decode(r.outcome.bytes).isLeader
         && decode(r.outcome.bytes).shard as int == shard then Some(r.address) else None);
    if replies == [] {
      GatherNothing(ys);
    } else {
      var n := |replies| - 1;
      var front := replies[..n];
      LeadersAreListing(front, decode, shard);
      var zs := seq(n, i requires 0 <= i < n =>
        var r := front[i];
        if r.outcome.Body? && decode(r.outcome.bytes).isLeader
           && decode(r.outcome.bytes).shard as int == shard then Some(r.address) else None);
      assert ys[..n] == zs;
      GatherStep(LeadersOf(front, decode, shard), LeadersOf(replies, decode, shard), zs, ys);
    }
  }

  /** With one reply per node, a node leads at most one shard. */
  lemma OneShardEach(replies: seq<Reply>, decode: string -> Metadata, a: Address, s: int, t: int)
    requires Distinct(Senders(replies)) && LeadsShard(replies, decode, a, s) && LeadsShard(replies, decode, a, t)
    ensures s == t
  {
    var i :| 0 <= i < |replies| && LeadsAs(replies[i], decode, a, s);
    var j :| 0 <= j < |replies| && LeadsAs(replies[j], decode, a, t);
    assert Senders(replies)[i] == Senders(replies)[j];
  }

  lemma {:induction false} LeadersDistinct(replies: seq<Reply>, decode: string -> Metadata, shard: int)
    requires Distinct(Senders(replies))
    ensures Distinct(LeadersOf(replies, decode, shard))
  {
    if replies == [] {
    } else {
      var n := |replies| - 1;
      assert Senders(replies[..n]) == Senders(replies)[..n];
      LeadersDistinct(replies[..n], decode, shard);
      LeaderMember(replies[..n], decode, shard, replies[n].address);
      forall i | 0 <= i < n ensures replies[..n][i].address != replies[n].address {
        assert Senders(replies)[i] != Senders(replies)[n];
      }
    }
  }

  // ----- phase one -----

  /** The map holds exactly the shards that have a leader, each with all of its leaders. */
  ghost predicate IsLeaderMap(leaders: Leaders, replies: seq<Reply>, decode: string -> Metadata) {
    && (forall s :: s in leaders <==> LeadersOf(replies, decode, s) != [])
    && (forall s :: s in leaders ==> leaders[s] == LeadersOf(replies, decode, s))
  }

  method GroupLeaders(replies: seq<Reply>, decode: string -> Metadata) returns (leaders: Leaders)
    ensures IsLeaderMap(leaders, replies, decode)
  {
    leaders := map[];
    for i := 0 to |replies|
      invariant IsLeaderMap(leaders, replies[..i], decode)
    {
      assert replies[..i + 1][..i] == replies[..i];
      var d := replies[i];
      if d.outcome.Body? {
        var report := decode(d.outcome.bytes);
        if report.isLeader {
          var shard := report.shard as int;
          leaders := leaders[shard := (if shard in leaders then leaders[shard] else []) + [d.address]];
        }
      }
    }
    assert replies[..|replies|] == replies;
  }

  /** `crossLinkMonitor`'s first phase. */
  method BeaconLeaders(replies: seq<Reply>, decode: string -> Metadata) returns (leader: seq<Address>)
    ensures leader == LeadersOf(replies, decode, 0)
  {
    leader := [];
    for i := 0 to |replies|
      invariant leader == LeadersOf(replies[..i], decode, 0)
    {
      assert replies[..i + 1][..i] == replies[..i];
      var d := replies[i];
      if d.outcome.Body? {
        var report := decode(d.outcome.bytes);
        if report.isLeader && report.shard == 0 {
          leader := leader + [d.address];
        }
      }
    }
    assert replies[..|replies|] == replies;
  }

  // ----- phase two: whom to ask -----

  /** The requests are issued for distinct senders of phase one, and for every leader. */
  ghost predicate AsksLeadersOnce(asked: seq<Address>, replies: seq<Reply>, decode: string -> Metadata,
                                  shards: set<int>) {
    && Distinct(asked)
    && forall a :: a in asked <==> exists s :: s in shards && LeadsShard(replies, decode, a, s)
  }

  lemma DistinctAppend<T>(s: seq<T>, t: seq<T>)
    requires Distinct(s) && Distinct(t) && forall x :: x in s ==> x !in t
    ensures Distinct(s + t)
  {
    forall i, j | 0 <= i < j < |s + t| ensures (s + t)[i] != (s + t)[j] {
      assert i < |s| ==> s[i] in s;
      assert j >= |s| ==> t[j - |s|] in t;
    }
  }

  lemma AskOneMore(asked: seq<Address>, replies: seq<Reply>, decode: string -> Metadata, shards: set<int>, shard: int)
    requires AsksLeadersOnce(asked, replies, decode, shards) && Distinct(Senders(replies)) && shard !in shards
    ensures AsksLeadersOnce(asked + LeadersOf(replies, decode, shard), replies, decode, shards + {shard})
  {
    var more := LeadersOf(replies, decode, shard);
    LeadersDistinct(replies, decode, shard);
    forall a ensures a in more <==> LeadsShard(replies, decode, a, shard) {
      LeaderMember(replies, decode, shard, a);
    }
    forall a | a in asked ensures a !in more {
      if LeadsShard(replies, decode, a, shard) {
        var s :| s in shards && LeadsShard(replies, decode, a, s);
        OneShardEach(replies, decode, a, s, shard);
      }
    }
    DistinctAppend(asked, more);
  }

  /** The nested loops that send the phase-two requests, shards in any order. */
  method PhaseTwoTargets(leaders: Leaders, ghost replies: seq<Reply>, ghost decode: string -> Metadata)
    returns (asked: seq<Address>)
    requires IsLeaderMap(leaders, replies, decode) && Distinct(Senders(replies))
    ensures AsksLeadersOnce(asked, replies, decode, leaders.Keys)
  {
    asked := [];
    var todo := leaders.Keys;
    while todo != {}
      invariant todo <= leaders.Keys && AsksLeadersOnce(asked, replies, decode, leaders.Keys - todo)
      decreases |todo|
    {
      ghost var some := Pick(todo);
      assert some in todo;
      var shard :| shard in todo;
      AskOneMore(asked, replies, decode, leaders.Keys - todo, shard);
      var node := leaders[shard];
      ghost var before := asked;
      for i := 0 to |node|
        invariant asked == before + node[..i]
      {
        asked := asked + [node[i]];
      }
      assert node[..|node|] == node;
      assert leaders.Keys - (todo - {shard}) == (leaders.Keys - todo) + {shard};
      todo := todo - {shard};
    }
    assert leaders.Keys - todo == leaders.Keys;
  }

  /** `crossLinkMonitor` asks the leaders of shard 0, each once. */
  lemma BeaconLeadersAskedOnce(replies: seq<Reply>, decode: string -> Metadata)
    requires Distinct(Senders(replies))
    ensures AsksLeadersOnce(LeadersOf(replies, decode, 0), replies, decode, {0})
  {
    AskOneMore([], replies, decode, {}, 0);
    assert [] + LeadersOf(replies, decode, 0) == LeadersOf(replies, decode, 0) && {} + {0} == {0};
  }

  /** Phase two asks at most as many nodes as phase one heard from, so its replies fit the channel. */
  lemma PhaseTwoFits(asked: seq<Address>, replies: seq<Reply>, decode: string -> Metadata, shards: set<int>)
    requires AsksLeadersOnce(asked, replies, decode, shards) && Distinct(Senders(replies))
    ensures Elements(asked) <= Elements(Senders(replies)) && |asked| <= |replies|
  {
    forall a | a in asked ensures a in Senders(replies) {
      var s :| s in shards && LeadsShard(replies, decode, a, s);
      var i :| 0 <= i < |replies| && LeadsAs(replies[i], decode, a, s);
      assert Senders(replies)[i] == a;
    }
    ListingIsBagOfSet(asked);
    ListingIsBagOfSet(Senders(replies));
    assert Elements(Senders(replies)) == Elements(asked) + (Elements(Senders(replies)) - Elements(asked));
  }

  // ----- phase two: what the answers mean -----

  lemma SameLeader(leaders: Leaders, replies: seq<Reply>, decode: string -> Metadata, a: Address, s: int, t: int)
    requires IsLeaderMap(leaders, replies, decode) && Distinct(Senders(replies))
    requires s in leaders && t in leaders && a in leaders[s] && a in leaders[t]
    ensures s == t
  {
    LeaderMember(replies, decode, s, a);
    LeaderMember(replies, decode, t, a);
    OneShardEach(replies, decode, a, s, t);
  }

  /** The nested search: `break` leaves only the inner loop, so every shard is visited. */
  method FindShard(leaders: Leaders, address: Address, ghost replies: seq<Reply>, ghost decode: string -> Metadata)
    returns (shard: int)
    requires IsLeaderMap(leaders, replies, decode) && Distinct(Senders(replies))
    ensures forall s :: LeadsShard(replies, decode, address, s) ==> shard == s
    ensures (forall s :: !LeadsShard(replies, decode, address, s)) ==> shard == 0
  {
    shard := 0;
    var todo := leaders.Keys;
    while todo != {}
      invariant todo <= leaders.Keys
      invariant forall s :: s in leaders && s !in todo && address in leaders[s] ==> shard == s
      invariant shard == 0 || (shard in leaders && shard !in todo && address in leaders[shard])
      decreases |todo|
    {
      ghost var some := Pick(todo);
      assert some in todo;
      var s :| s in todo;
      var v := leaders[s];
      var i := 0;
      ghost var was := shard;
      while i < |v|
        invariant 0 <= i <= |v| && address !in v[..i] && shard == was
      {
        if v[i] == address {
          shard := s;
          break;
        }
        i := i + 1;
      }
      assert i == |v| ==> v[..i] == v;
      assert shard == if address in v then s else was;
      forall t | t in leaders && t !in todo && address in leaders[t] && address in v ensures t == s {
        SameLeader(leaders, replies, decode, address, s, t);
      }
      todo := todo - {s};
    }
    forall s ensures LeadsShard(replies, decode, address, s) <==> s in leaders && address in leaders[s] {
      LeaderMember(replies, decode, s, address);
    }
  }

  /** An alert of `cxMonitor`: the shard and its pending pool size. */
  datatype Pending = Pending(shard: int, size: uint64)

  /** The shard a phase-two sender reported in phase one, or 0. */
  ghost function ShardOf(replies: seq<Reply>, decode: string -> Metadata, a: Address): int {
    if s :| LeadsShard(replies, decode, a, s) then s else 0
  }

  /** Reply i is from a and says that it leads the shard. */
  ghost predicate SaysItLeads(replies: seq<Reply>, decode: string -> Metadata, i: nat, a: Address, shard: int) {
    && i < |replies| && replies[i].address == a && replies[i].outcome.Body?
    && decode(replies[i].outcome.bytes).isLeader && decode(replies[i].outcome.bytes).shard as int == shard
  }

  /** With one reply per node, that is the shard its reply named, and 0 if it did not call itself a leader. */
  lemma ShardIsReported(replies: seq<Reply>, decode: string -> Metadata, a: Address)
    requires Distinct(Senders(replies))
    ensures forall i: nat, shard :: SaysItLeads(replies, decode, i, a, shard) ==> ShardOf(replies, decode, a) == shard
    ensures (forall i: nat, shard :: !SaysItLeads(replies, decode, i, a, shard)) ==> ShardOf(replies, decode, a) == 0
  {
    forall i: nat, shard | SaysItLeads(replies, decode, i, a, shard) ensures ShardOf(replies, decode, a) == shard {
      assert LeadsAs(replies[i], decode, a, shard);
      assert LeadsShard(replies, decode, a, shard);
      OneShardEach(replies, decode, a, ShardOf(replies, decode, a), shard);
    }
    forall i: nat, shard | i < |replies| && LeadsAs(replies[i], decode, a, shard)
      ensures SaysItLeads(replies, decode, i, a, shard)
    {
    }
  }

  /** The pool sizes that answered, with the shard each sender reported. */
  ghost function Sizes(answers: seq<Reply>, size: string -> uint64, replies: seq<Reply>,
                       decode: string -> Metadata): seq<Pending> {
    if answers == [] then []
    else
      var r := answers[|answers| - 1];
      Sizes(answers[..|answers| - 1], size, replies, decode) +
      if r.outcome.Body? then [Pending(ShardOf(replies, decode, r.address), size(r.outcome.bytes))] else []
  }

  ghost function Above(sizes: seq<Pending>, limit: uint64): seq<Pending> {
    if sizes == [] then []
    else Above(sizes[..|sizes| - 1], limit) + if sizes[|sizes| - 1].size > limit then [sizes[|sizes| - 1]] else []
  }

  ghost function OfShard(sizes: seq<Pending>, shard: int): seq<uint64> {
    if sizes == [] then []
    else
      var n := |sizes| - 1;
      OfShard(sizes[..n], shard) + if sizes[n].shard == shard then [sizes[n].size] else []
  }

  ghost predicate Pools(pool: map<int, seq<uint64>>, sizes: seq<Pending>) {
    && (forall s :: s in pool <==> OfShard(sizes, s) != [])
    && (forall s :: s in pool ==> pool[s] == OfShard(sizes, s))
  }

  /** One more answer adds its size to the list of its sender's shard, and to the alerts if it is above the limit. */
  lemma SizesEnd(answers: seq<Reply>, size: string -> uint64, replies: seq<Reply>, decode: string -> Metadata,
                 shard: int, limit: uint64)
    requires answers != []
    ensures var r := answers[|answers| - 1];
      var all, before := Sizes(answers, size, replies, decode), Sizes(answers[..|answers| - 1], size, replies, decode);
      && (r.outcome.Oops? ==> all == before)
      && (r.outcome.Body? ==>
            var p := Pending(ShardOf(replies, decode, r.address), size(r.outcome.bytes));
            && OfShard(all, shard) == OfShard(before, shard) + (if p.shard == shard then [p.size] else [])
            && Above(all, limit) == Above(before, limit) + (if p.size > limit then [p] else []))
  {
    var all, before := Sizes(answers, size, replies, decode), Sizes(answers[..|answers| - 1], size, replies, decode);
    if answers[|answers| - 1].outcome.Body? {
      assert all[..|before|] == before;
    }
  }

  /** The list of a shard: the sizes, in order, that senders which lead it answered. */
  lemma {:induction false} PoolIsListing(answers: seq<Reply>, size: string -> uint64, replies: seq<Reply>,
                                         decode: string -> Metadata, shard: int)
    ensures Gathers(OfShard(Sizes(answers, size, replies, decode), shard),
                    seq(|answers|, i requires 0 <= i < |answers| =>
                      var r := answers[i];
                      if r.outcome.Body? && ShardOf(replies, decode, r.address) == shard
                      then Some(size(r.outcome.bytes)) else None))
    decreases |answers|
  {
    var ys := seq(|answers|, i requires 0 <= i < |answers| =>
      var r := answers[i];
      if r.outcome.Body? && ShardOf(replies, decode, r.address) == shard
      then Some(size(r.outcome.bytes)) else None);
    if answers == [] {
      GatherNothing(ys);
    } else {
      var n := |answers| - 1;
      var front := answers[..n];
      PoolIsListing(front, size, replies, decode, shard);
      var zs := seq(n, i requires 0 <= i < n =>
        var r := front[i];
        if r.outcome.Body? && ShardOf(replies, decode, r.address) == shard
        then Some(size(r.outcome.bytes)) else None);
      assert ys[..n] == zs;
      SizesEnd(answers, size, replies, decode, shard, 0);
      GatherStep(OfShard(Sizes(front, size, replies, decode), shard),
                 OfShard(Sizes(answers, size, replies, decode), shard), zs, ys);
    }
  }

  /** The alerts: the sizes above the limit, in order, with the shard of the sender. */
  lemma {:induction false} AlertsAreListing(answers: seq<Reply>, size: string -> uint64, replies: seq<Reply>,
                                            decode: string -> Metadata, limit: uint64)
    ensures Gathers(Above(Sizes(answers, size, replies, decode), limit),
                    seq(|answers|, i requires 0 <= i < |answers| =>
                      var r := answers[i];
                      if r.outcome.Body? && size(r.outcome.bytes) > limit
                      then Some(Pending(ShardOf(replies, decode, r.address), size(r.outcome.bytes))) else None))
    decreases |answers|
  {
    var ys := seq(|answers|, i requires 0 <= i < |answers| =>
      var r := answers[i];
      if r.outcome.Body? && size(r.outcome.bytes) > limit
      then Some(Pending(ShardOf(replies, decode, r.address), size(r.outcome.bytes))) else None);
    if answers == [] {
      GatherNothing(ys);
    } else {
      var n := |answers| - 1;
      var front := answers[..n];
      AlertsAreListing(front, size, replies, decode, limit);
      var zs := seq(n, i requires 0 <= i < n =>
        var r := front[i];
        if r.outcome.Body? && size(r.outcome.bytes) > limit
        then Some(Pending(ShardOf(replies, decode, r.address), size(r.outcome.bytes))) else None);
      assert ys[..n] == zs;
      SizesEnd(answers, size, replies, decode, 0, limit);
      GatherStep(Above(Sizes(front, size, replies, decode), limit),
                 Above(Sizes(answers, size, replies, decode), limit), zs, ys);
    }
  }

  /** `append` to a map entry that may be missing. */
  function AddSize(pool: map<int, seq<uint64>>, shard: int, size: uint64): map<int, seq<uint64>> {
    pool[shard := (if shard in pool then pool[shard] else []) + [size]]
  }

  lemma PoolGrows(pool: map<int, seq<uint64>>, sizes: seq<Pending>, p: Pending, limit: uint64)
    requires Pools(pool, sizes)
    ensures Pools(AddSize(pool, p.shard, p.size), sizes + [p])
    ensures Above(sizes + [p], limit) == Above(sizes, limit) + if p.size > limit then [p] else []
  {
  }

  /** The second half of a `cxMonitor` tick. */
  method ReadPools(leaders: Leaders, answers: seq<Reply>, size: string -> uint64, limit: uint64,
                   ghost replies: seq<Reply>, ghost decode: string -> Metadata)
    returns (pool: map<int, seq<uint64>>, alerts: seq<Pending>)
    requires IsLeaderMap(leaders, replies, decode) && Distinct(Senders(replies))
    ensures Pools(pool, Sizes(answers, size, replies, decode))
    ensures alerts == Above(Sizes(answers, size, replies, decode), limit)
  {
    pool, alerts := map[], [];
    for i := 0 to |answers|
      invariant Pools(pool, Sizes(answers[..i], size, replies, decode))
      invariant alerts == Above(Sizes(answers[..i], size, replies, decode), limit)
    {
      assert answers[..i + 1][..i] == answers[..i];
      if answers[i].outcome.Body? {
        var result := size(answers[i].outcome.bytes);
        var shard := FindShard(leaders, answers[i].address, replies, decode);
        assert shard == ShardOf(replies, decode, answers[i].address);
        PoolGrows(pool, Sizes(answers[..i], size, replies, decode), Pending(shard, result), limit);
        pool := AddSize(pool, shard, result);
        if result > limit {
          alerts := alerts + [Pending(shard, result)];
        }
      } else {
        assert Sizes(answers[..i + 1], size, replies, decode) == Sizes(answers[..i], size, replies, decode);
      }
    }
    assert answers[..|answers|] == answers;
  }
}
