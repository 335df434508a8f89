/**
 `checkShardHeight`: a nested index shard -> height -> headers, from which the nodes that lag their
 shard's maximum by more than the tolerance are sent to `checkSync`.
 */
module ShardHeight {
  import opened Polling

  type Index = map<uint32, map<uint64, seq<BlockHeader>>>

  /** A call of `checkSync`: the lagging header and the maximum it is measured against. */
  datatype Check = Check(header: BlockHeader, maxHeight: uint64)

  // ----- specification -----

  /** No node of the shard is higher than max, and one is exactly that high. */
  ghost predicate IsShardMax(nodes: seq<BlockHeader>, shard: uint32, max: uint64) {
    && (forall i :: 0 <= i < |nodes| && nodes[i].shard == shard ==> nodes[i].number <= max)
    && (exists i :: 0 <= i < |nodes| && nodes[i].shard == shard && nodes[i].number == max)
  }

  lemma ShardMaxUnique(nodes: seq<BlockHeader>, shard: uint32, a: uint64, b: uint64)
    requires IsShardMax(nodes, shard, a) && IsShardMax(nodes, shard, b)
    ensures a == b
  {
  }

  /** The check is due: its header lags, in whole numbers, by more than the tolerance. */
  ghost predicate Due(nodes: seq<BlockHeader>, tolerance: uint64, c: Check) {
    && IsShardMax(nodes, c.header.shard, c.maxHeight)
    && c.maxHeight as int - c.header.number as int > tolerance as int
  }

  // ----- the index -----

  /** The headers of one shard at one height, in order. */
  ghost function At(nodes: seq<BlockHeader>, shard: uint32, height: uint64): seq<BlockHeader> {
    if nodes == [] then []
    else if nodes[|nodes| - 1].shard == shard && nodes[|nodes| - 1].number == height then
      At(nodes[..|nodes| - 1], shard, height) + [nodes[|nodes| - 1]]
    else At(nodes[..|nodes| - 1], shard, height)
  }

  lemma {:induction false} AtCounts(nodes: seq<BlockHeader>, shard: uint32, height: uint64, v: BlockHeader)
    ensures multiset(At(nodes, shard, height))[v]
         == if v.shard == shard && v.number == height then multiset(nodes)[v] else 0
  {
    if nodes == [] {
    } else {
      var n := |nodes| - 1;
      AtCounts(nodes[..n], shard, height, v);
      assert nodes == nodes[..n] + [nodes[n]];
    }
  }

  /** A group is the list of the headers of its shard and height, in order. */
  lemma {:induction false} AtIsListing(nodes: seq<BlockHeader>, shard: uint32, height: uint64)
    ensures Gathers(At(nodes, shard, height),
                    seq(|nodes|, i requires 0 <= i < |nodes| =>
                      if nodes[i].shard == shard && nodes[i].number == height then Some(nodes[i]) else None))
  {
    var ys := seq(|nodes|, i requires 0 <= i < |nodes| =>
      if nodes[i].shard == shard && nodes[i].number == height then Some(nodes[i]) else None);
    if nodes == [] {
      GatherNothing(ys);
    } else {
      var n := |nodes| - 1;
      var front := nodes[..n];
      AtIsListing(front, shard, height);
      var zs := seq(n, i requires 0 <= i < n =>
        if front[i].shard == shard && front[i].number == height then Some(front[i]) else None);
      assert ys[..n] == zs;
      GatherStep(At(front, shard, height), At(nodes, shard, height), zs, ys);
    }
  }

  ghost predicate Has(index: Index, shard: uint32, height: uint64) {
    shard in index && height in index[shard]
  }

  /** The index holds exactly the non-empty groups. */
  ghost predicate Indexes(index: Index, nodes: seq<BlockHeader>) {
    && (forall s, h :: Has(index, s, h) <==> At(nodes, s, h) != [])
    && (forall s, h :: Has(index, s, h) ==> index[s][h] == At(nodes, s, h))
    && (forall s :: s in index ==> index[s] != map[])
  }

  /** The index with one more header. */
  function Grown(index: Index, v: BlockHeader): Index {
    var heights := if v.shard in index then index[v.shard] else map[];
    index[v.shard := heights[v.number := (if v.number in heights then heights[v.number] else []) + [v]]]
  }

  lemma IndexGrows(index: Index, nodes: seq<BlockHeader>, i: nat)
    requires i < |nodes| && Indexes(index, nodes[..i])
    ensures Indexes(Grown(index, nodes[i]), nodes[..i + 1])
  {
    var index', v := Grown(index, nodes[i]), nodes[i];
    assert nodes[..i + 1][..i] == nodes[..i];
    forall s, h
      ensures Has(index', s, h) <==> At(nodes[..i + 1], s, h) != []
      ensures Has(index', s, h) ==> index'[s][h] == At(nodes[..i + 1], s, h)
    {
      assert Has(index, s, h) <==> At(nodes[..i], s, h) != [];
    }
  }

  /** The body of that loop: missing inner maps and lists are created first. */
  method AddHeader(index0: Index, v: BlockHeader) returns (index: Index)
    ensures index == Grown(index0, v)
  {
    index := index0;
    if v.shard !in index {
      index := index[v.shard := map[]];
    }
    var heights := index[v.shard];
    if v.number !in heights {
      heights := heights[v.number := []];
    }
    heights := heights[v.number := heights[v.number] + [v]];
    index := index[v.shard := heights];
    assert heights == Grown(index0, v)[v.shard];
  }

  method BuildIndex(nodes: seq<BlockHeader>) returns (index: Index)
    ensures Indexes(index, nodes)
  {
    index := map[];
    for i := 0 to |nodes|
      invariant Indexes(index, nodes[..i])
    {
      IndexGrows(index, nodes, i);
      index := AddHeader(index, nodes[i]);
    }
    assert nodes[..|nodes|] == nodes;
  }

  /** The node list in terms of the index. */
  lemma IndexedHeader(index: Index, nodes: seq<BlockHeader>, i: nat)
    requires Indexes(index, nodes) && i < |nodes|
    ensures Has(index, nodes[i].shard, nodes[i].number)
  {
    AtCounts(nodes, nodes[i].shard, nodes[i].number, nodes[i]);
    assert nodes[i] in multiset(nodes);
    assert At(nodes, nodes[i].shard, nodes[i].number) != [];
  }

  lemma HeaderOfIndex(index: Index, nodes: seq<BlockHeader>, shard: uint32, height: uint64) returns (i: nat)
    requires Indexes(index, nodes) && Has(index, shard, height)
    ensures i < |nodes| && nodes[i].shard == shard && nodes[i].number == height
  {
    var v := At(nodes, shard, height)[0];
    AtCounts(nodes, shard, height, v);
    assert v in multiset(At(nodes, shard, height));
    assert v in multiset(nodes);
    i :| 0 <= i < |nodes| && nodes[i] == v;
  }

  // ----- one shard -----

  /** Every height survives the detour through `int` and back. */
  lemma HeightRoundTrip(h: uint64)
    ensures AsUint(AsInt(h)) == h
  {
  }

  ghost function Heights(unique: seq<int>): set<uint64> {
    set i | 0 <= i < |unique| :: AsUint(unique[i])
  }

  ghost predicate Distinguished(unique: seq<int>) {
    forall i, j :: 0 <= i < j < |unique| ==> AsUint(unique[i]) != AsUint(unique[j])
  }

  lemma HeightsAppend(unique: seq<int>, x: int)
    ensures Heights(unique + [x]) == Heights(unique) + {AsUint(x)}
  {
    var more := unique + [x];
    assert more[|unique|] == x;
    forall h | h in Heights(unique) ensures h in Heights(more) {
      var i :| 0 <= i < |unique| && AsUint(unique[i]) == h;
      assert more[i] == unique[i];
    }
  }

  /** `uniqueHeights`: the keys, as ints, in any order. */
  method UniqueHeights(heights: set<uint64>) returns (unique: seq<int>)
    ensures Heights(unique) == heights && Distinguished(unique)
  {
    unique := [];
    var todo := heights;
    while todo != {}
      invariant todo <= heights && Heights(unique) == heights - todo && Distinguished(unique)
      decreases |todo|
    {
      var h :| h in todo;
      HeightRoundTrip(h);
      HeightsAppend(unique, AsInt(h));
      assert forall i :: 0 <= i < |unique| ==> AsUint(unique[i]) in Heights(unique);
      unique := unique + [AsInt(h)];
      todo := todo - {h};
    }
  }

  method MaxHeight(unique: seq<int>) returns (max: uint64)
    requires unique != []
    ensures max in Heights(unique) && forall h :: h in Heights(unique) ==> h <= max
  {
    max := 0;
    for i := 0 to |unique|
      invariant forall j :: 0 <= j < i ==> AsUint(unique[j]) <= max
      invariant max == 0 || max in Heights(unique)
    {
      if AsUint(unique[i]) > max {
        max := AsUint(unique[i]);
      }
    }
    assert AsUint(unique[0]) in Heights(unique);
  }

  lemma KeyMaxIsShardMax(index: Index, nodes: seq<BlockHeader>, shard: uint32, max: uint64)
    requires Indexes(index, nodes) && shard in index
    requires max in index[shard] && forall h :: h in index[shard] ==> h <= max
    ensures IsShardMax(nodes, shard, max)
  {
    forall i | 0 <= i < |nodes| && nodes[i].shard == shard ensures nodes[i].number <= max {
      IndexedHeader(index, nodes, i);
    }
    var i := HeaderOfIndex(index, nodes, shard, max);
  }

  // ----- the checks -----

  ghost function When(b: bool, n: nat): nat {
    if b then n else 0
  }

  /** How often a check has to be sent: once per occurrence of its header, if it is due. */
  ghost function Expected(nodes: seq<BlockHeader>, tolerance: uint64, c: Check): nat {
    if Due(nodes, tolerance, c) then multiset(nodes)[c.header] else 0
  }

  method LaunchAll(vs: seq<BlockHeader>, max: uint64) returns (sent: seq<Check>)
    ensures |sent| == |vs| && forall i :: 0 <= i < |vs| ==> sent[i] == Check(vs[i], max)
  {
    sent := [];
    for i := 0 to |vs|
      invariant |sent| == i && forall j :: 0 <= j < i ==> sent[j] == Check(vs[j], max)
    {
      sent := sent + [Check(vs[i], max)];
    }
  }

  lemma {:induction false} LaunchCounts(vs: seq<BlockHeader>, max: uint64, sent: seq<Check>, c: Check)
    requires |sent| == |vs| && forall i :: 0 <= i < |vs| ==> sent[i] == Check(vs[i], max)
    ensures multiset(sent)[c] == if c.maxHeight == max then multiset(vs)[c.header] else 0
  {
    if vs == [] {
    } else {
      var n := |vs| - 1;
      LaunchCounts(vs[..n], max, sent[..n], c);
      assert vs == vs[..n] + [vs[n]] && sent == sent[..n] + [sent[n]];
    }
  }

  /** The checks sent are those due for the given heights of one shard. */
  ghost predicate SentAt(sent: seq<Check>, nodes: seq<BlockHeader>, tolerance: uint64, shard: uint32,
                         heights: set<uint64>) {
    forall c :: multiset(sent)[c]
      == When(c.header.shard == shard && c.header.number in heights, Expected(nodes, tolerance, c))
  }

  lemma SentAtMore(sent: seq<Check>, batch: seq<Check>, nodes: seq<BlockHeader>, tolerance: uint64, shard: uint32,
                   heights: set<uint64>, h: uint64)
    requires SentAt(sent, nodes, tolerance, shard, heights) && h !in heights
    requires SentAt(batch, nodes, tolerance, shard, {h})
    ensures SentAt(sent + batch, nodes, tolerance, shard, heights + {h})
  {
  }

  lemma BatchCounts(nodes: seq<BlockHeader>, vs: seq<BlockHeader>, shard: uint32, h: uint64, max: uint64,
                    tolerance: uint64, batch: seq<Check>, c: Check)
    requires vs == At(nodes, shard, h) && IsShardMax(nodes, shard, max) && h <= max
    requires Minus64(max, h) > tolerance ==>
      |batch| == |vs| && forall i :: 0 <= i < |vs| ==> batch[i] == Check(vs[i], max)
    requires Minus64(max, h) <= tolerance ==> batch == []
    ensures multiset(batch)[c] == When(c.header.shard == shard && c.header.number == h, Expected(nodes, tolerance, c))
  {
    AtCounts(nodes, shard, h, c.header);
    if Minus64(max, h) > tolerance {
      LaunchCounts(vs, max, batch, c);
    }
    if c.header.shard == shard && IsShardMax(nodes, shard, c.maxHeight) {
      ShardMaxUnique(nodes, shard, max, c.maxHeight);
    }
  }

  /** One height of one shard; the unsigned subtraction does not wrap. */
  method CheckHeight(ghost nodes: seq<BlockHeader>, vs: seq<BlockHeader>, ghost shard: uint32, h: uint64, max: uint64,
                     tolerance: uint64) returns (batch: seq<Check>)
    requires vs == At(nodes, shard, h) && IsShardMax(nodes, shard, max) && h <= max
    ensures SentAt(batch, nodes, tolerance, shard, {h})
  {
    batch := [];
    if Minus64(max, h) > tolerance {
      batch := LaunchAll(vs, max);
    }
    forall c
      ensures multiset(batch)[c]
           == When(c.header.shard == shard && c.header.number in {h}, Expected(nodes, tolerance, c))
    {
      BatchCounts(nodes, vs, shard, h, max, tolerance, batch, c);
    }
  }

  lemma HeightsPrefix(unique: seq<int>, i: nat)
    requires i < |unique| && Distinguished(unique)
    ensures AsUint(unique[i]) !in Heights(unique[..i])
    ensures Heights(unique[..i + 1]) == Heights(unique[..i]) + {AsUint(unique[i])}
  {
  }

  method CheckShard(ghost nodes: seq<BlockHeader>, index: Index, shard: uint32, tolerance: uint64)
    returns (sent: seq<Check>)
    requires Indexes(index, nodes) && shard in index
    ensures SentAt(sent, nodes, tolerance, shard, index[shard].Keys)
  {
    var unique := UniqueHeights(index[shard].Keys);
    assert unique != [] by {
      assert index[shard] != map[];
      assert Heights([]) == {};
    }
    var max := MaxHeight(unique);
    KeyMaxIsShardMax(index, nodes, shard, max);
    sent := [];
    for i := 0 to |unique|
      invariant SentAt(sent, nodes, tolerance, shard, Heights(unique[..i]))
    {
      var h := AsUint(unique[i]);
      assert h in Heights(unique) && Has(index, shard, h);
      var batch := CheckHeight(nodes, index[shard][h], shard, h, max, tolerance);
      HeightsPrefix(unique, i);
      SentAtMore(sent, batch, nodes, tolerance, shard, Heights(unique[..i]), h);
      sent := sent + batch;
    }
    assert unique[..|unique|] == unique;
  }

  lemma NoSuchHeight(index: Index, nodes: seq<BlockHeader>, v: BlockHeader)
    requires Indexes(index, nodes) && !Has(index, v.shard, v.number)
    ensures multiset(nodes)[v] == 0
  {
    AtCounts(nodes, v.shard, v.number, v);
  }

  ghost predicate SentFor(sent: seq<Check>, nodes: seq<BlockHeader>, tolerance: uint64, shards: set<uint32>) {
    forall c :: multiset(sent)[c] == When(c.header.shard in shards, Expected(nodes, tolerance, c))
  }

  lemma SentForMore(sent: seq<Check>, more: seq<Check>, nodes: seq<BlockHeader>, tolerance: uint64,
                    shards: set<uint32>, index: Index, shard: uint32)
    requires SentFor(sent, nodes, tolerance, shards) && shard !in shards
    requires Indexes(index, nodes) && shard in index && SentAt(more, nodes, tolerance, shard, index[shard].Keys)
    ensures SentFor(sent + more, nodes, tolerance, shards + {shard})
  {
    forall c
      ensures multiset(sent + more)[c] == When(c.header.shard in shards + {shard}, Expected(nodes, tolerance, c))
    {
      assert multiset(sent + more)[c] == multiset(sent)[c] + multiset(more)[c];
      if c.header.shard == shard && c.header.number !in index[shard] {
        NoSuchHeight(index, nodes, c.header);
      }
    }
  }

  method CheckShards(ghost nodes: seq<BlockHeader>, index: Index, shards: set<uint32>, tolerance: uint64)
    returns (sent: seq<Check>)
    requires Indexes(index, nodes) && shards <= index.Keys
    ensures SentFor(sent, nodes, tolerance, shards)
  {
    sent := [];
    var todo := shards;
    while todo != {}
      invariant todo <= shards && SentFor(sent, nodes, tolerance, shards - todo)
      decreases |todo|
    {
      var shard :| shard in todo;
      var more := CheckShard(nodes, index, shard, tolerance);
      SentForMore(sent, more, nodes, tolerance, shards - todo, index, shard);
      sent := sent + more;
      assert shards - (todo - {shard}) == (shards - todo) + {shard};
      todo := todo - {shard};
    }
    assert shards - todo == shards;
  }

  /** Every due check is sent once per occurrence of its header, and nothing else is sent. */
  ghost predicate SentExactly(sent: seq<Check>, nodes: seq<BlockHeader>, tolerance: uint64) {
    forall c :: multiset(sent)[c] == Expected(nodes, tolerance, c)
  }

  lemma SentForAll(sent: seq<Check>, nodes: seq<BlockHeader>, tolerance: uint64, index: Index)
    requires Indexes(index, nodes) && SentFor(sent, nodes, tolerance, index.Keys)
    ensures SentExactly(sent, nodes, tolerance)
  {
    forall c ensures multiset(sent)[c] == Expected(nodes, tolerance, c) {
      if c.header.shard !in index {
        NoSuchHeight(index, nodes, c.header);
      }
    }
  }

  /** The whole check, shards in any order. */
  method CheckShardHeight(nodes: seq<BlockHeader>, tolerance: uint64) returns (sent: seq<Check>)
    ensures SentExactly(sent, nodes, tolerance)
  {
    var index := BuildIndex(nodes);
    sent := CheckShards(nodes, index, index.Keys, tolerance);
    SentForAll(sent, nodes, tolerance, index);
  }

  lemma TallestIn(nodes: seq<BlockHeader>, shard: uint32, i: nat) returns (max: uint64)
    requires i < |nodes| && nodes[i].shard == shard
    ensures IsShardMax(nodes, shard, max)
  {
    max := nodes[i].number;
    ghost var at := i;
    for j := 0 to |nodes|
      invariant at < |nodes| && nodes[at].shard == shard && nodes[at].number == max
      invariant max >= nodes[i].number
      invariant forall k :: 0 <= k < j && nodes[k].shard == shard ==> nodes[k].number <= max
    {
      if nodes[j].shard == shard && nodes[j].number > max {
        max, at := nodes[j].number, j;
      }
    }
  }

  /** Node i is in the shard of v and more than the tolerance above it. */
  ghost predicate FarAbove(nodes: seq<BlockHeader>, i: nat, v: BlockHeader, tolerance: uint64) {
    && i < |nodes| && nodes[i].shard == v.shard
    && nodes[i].number as int - v.number as int > tolerance as int
  }

  /** A check is sent at all exactly when its header is among the nodes and lags too far. */
  lemma SentMeansLagging(nodes: seq<BlockHeader>, tolerance: uint64, sent: seq<Check>, v: BlockHeader)
    requires SentExactly(sent, nodes, tolerance)
    ensures (exists m :: Check(v, m) in sent) <==>
      v in nodes && exists i: nat :: FarAbove(nodes, i, v, tolerance)
    ensures forall m :: Check(v, m) in sent ==>
      && multiset(sent)[Check(v, m)] == multiset(nodes)[v]
      && (forall i :: 0 <= i < |nodes| && nodes[i].shard == v.shard ==> nodes[i].number <= m)
      && (exists i :: 0 <= i < |nodes| && nodes[i].shard == v.shard && nodes[i].number == m)
  {
    forall m | Check(v, m) in sent
      ensures multiset(sent)[Check(v, m)] == multiset(nodes)[v] && IsShardMax(nodes, v.shard, m)
    {
      assert multiset(sent)[Check(v, m)] > 0;
    }
    if m :| Check(v, m) in sent {
      assert multiset(sent)[Check(v, m)] > 0;
      assert Due(nodes, tolerance, Check(v, m)) && v in multiset(nodes);
      var i: nat :| i < |nodes| && nodes[i].shard == v.shard && nodes[i].number == m;
      assert FarAbove(nodes, i, v, tolerance);
    }
    if i: nat :| v in nodes && FarAbove(nodes, i, v, tolerance) {
      var m := TallestIn(nodes, v.shard, i);
      assert Due(nodes, tolerance, Check(v, m)) && v in multiset(nodes);
      assert multiset(sent)[Check(v, m)] > 0;
    }
  }

  // ----- the second look -----

  /** `checkSync` after its sleep: alert unless the node failed to answer or has moved past its old height. */
  function CheckSync(blockNumber: uint64, reply: Option<uint64>): bool {
    match reply
    case None => false
    case Some(number) => !(number > blockNumber)
  }

  /**
   Both looks together: a node is reported exactly if some node of its shard was too far above it and
   it then answered with a height no greater than before.
   */
  lemma ReportedMeansStuck(nodes: seq<BlockHeader>, tolerance: uint64, sent: seq<Check>, v: BlockHeader,
                           reply: Option<uint64>)
    requires SentExactly(sent, nodes, tolerance)
    ensures (exists m :: Check(v, m) in sent) && CheckSync(v.number, reply) <==>
      && v in nodes && (exists i: nat :: FarAbove(nodes, i, v, tolerance))
      && reply.Some? && reply.value <= v.number
  {
    SentMeansLagging(nodes, tolerance, sent, v);
  }
}
