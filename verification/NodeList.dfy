/**
 `newInstructions` rejects node lists with repetitions; `update` later inverts the accepted list
 into `shardMap`.  Both iterate over maps, in any order.
 */
module NodeList {
  import opened Polling

  /** The member lists of the committees, by shard. */
  type ByShard = map<int, seq<string>>

  /** One line of the duplicate report: a shard and the address found there. */
  datatype Dup = Dup(shard: int, member: string)

  /** What becomes of a configuration. */
  datatype Verdict = EmptyNodeList | Duplicates(dups: seq<Dup>) | Accepted

  // ----- the bag of all members -----

  ghost function Bag(byShard: ByShard, keys: set<int>): multiset<string>
    requires keys <= byShard.Keys
  {
    if keys == {} then multiset{}
    else
      var k := Pick(keys);
      multiset(byShard[k]) + Bag(byShard, keys - {k})
  }

  lemma BagSwap<T>(a: multiset<T>, b: multiset<T>, c: multiset<T>)
    ensures a + (b + c) == b + (a + c)
  {
  }

  /** The bag can be built in any order. */
  lemma {:induction false} BagPick(byShard: ByShard, keys: set<int>, k: int)
    requires keys <= byShard.Keys && k in keys
    ensures Bag(byShard, keys) == multiset(byShard[k]) + Bag(byShard, keys - {k})
    decreases |keys|
  {
    var c := Pick(keys);
    if c == k {
    } else {
      BagPick(byShard, keys - {c}, k);
      BagPick(byShard, keys - {k}, c);
      assert keys - {c} - {k} == keys - {k} - {c};
      var rest := Bag(byShard, keys - {c} - {k});
      BagSwap(multiset(byShard[c]), multiset(byShard[k]), rest);
    }
  }

  lemma BagAdd(byShard: ByShard, keys: set<int>, k: int)
    requires keys <= byShard.Keys && k in byShard && k !in keys
    ensures Bag(byShard, keys + {k}) == Bag(byShard, keys) + multiset(byShard[k])
  {
    BagPick(byShard, keys + {k}, k);
    assert keys + {k} - {k} == keys;
  }

  ghost function All(byShard: ByShard): multiset<string> {
    Bag(byShard, byShard.Keys)
  }

  ghost function Members(bag: multiset<string>): set<string> {
    set m | m in bag
  }

  /** A member of the bag is in some list, and conversely. */
  lemma {:induction false} BagMember(byShard: ByShard, keys: set<int>, m: string)
    requires keys <= byShard.Keys
    ensures m in Bag(byShard, keys) <==> exists k :: k in keys && m in byShard[k]
    decreases |keys|
  {
    if keys == {} {
    } else {
      var k := Pick(keys);
      BagPick(byShard, keys, k);
      BagMember(byShard, keys - {k}, m);
      assert m in multiset(byShard[k]) <==> m in byShard[k];
    }
  }

  // ----- duplicate detection -----

  ghost predicate Listed(byShard: ByShard, shard: int, m: string) {
    shard in byShard && m in byShard[shard]
  }

  /** The report names exactly the repeated members, each time with a shard that lists the member. */
  ghost predicate ReportOk(byShard: ByShard, dups: seq<Dup>, seen: multiset<string>) {
    && (forall i :: 0 <= i < |dups| ==> seen[dups[i].member] >= 2 && Listed(byShard, dups[i].shard, dups[i].member))
    && (forall m :: seen[m] >= 2 ==> exists i :: 0 <= i < |dups| && dups[i].member == m)
  }

  /** What the loops have established about the members visited so far. */
  ghost predicate Scanned(byShard: ByShard, nodeList: map<string, int>, dups: seq<Dup>, seen: multiset<string>) {
    && nodeList.Keys == Members(seen)
    && (forall m :: m in nodeList ==> Listed(byShard, nodeList[m], m))
    && |dups| == 2 * (|seen| - |nodeList|)
    && ReportOk(byShard, dups, seen)
  }

  lemma ScanNew(byShard: ByShard, nodeList: map<string, int>, dups: seq<Dup>, seen: multiset<string>,
                m: string, shard: int)
    requires Scanned(byShard, nodeList, dups, seen) && m !in nodeList && Listed(byShard, shard, m)
    ensures Scanned(byShard, nodeList[m := shard], dups, seen + multiset{m})
  {
  }

  lemma ScanAgain(byShard: ByShard, nodeList: map<string, int>, dups: seq<Dup>, seen: multiset<string>,
                  m: string, shard: int)
    requires Scanned(byShard, nodeList, dups, seen) && m in nodeList && Listed(byShard, shard, m)
    ensures Scanned(byShard, nodeList, dups + [Dup(shard, m), Dup(nodeList[m], m)], seen + multiset{m})
  {
    var more := dups + [Dup(shard, m), Dup(nodeList[m], m)];
    assert Members(seen + multiset{m}) == Members(seen) + {m};
    assert m in Members(seen);
    forall x | (seen + multiset{m})[x] >= 2 ensures exists i :: 0 <= i < |more| && more[i].member == x {
      if x == m {
        assert more[|dups|].member == m;
      } else {
        var i :| 0 <= i < |dups| && dups[i].member == x;
        assert more[i].member == x;
      }
    }
  }

  // ----- which lines are reported -----

  /** The report is made of pairs of lines on one member; the second names the shard first found. */
  ghost predicate Paired(nodeList: map<string, int>, dups: seq<Dup>) {
    dups == [] ||
    (var n := |dups| - 2;
     && n >= 0 && dups[n].member in nodeList
     && dups[n + 1] == Dup(nodeList[dups[n].member], dups[n].member)
     && Paired(nodeList, dups[..n]))
  }

  /** The first lines of the pairs. */
  ghost function Again(dups: seq<Dup>): multiset<Dup> {
    if |dups| < 2 then multiset{} else Again(dups[..|dups| - 2]) + multiset{dups[|dups| - 2]}
  }

  ghost function First(nodeList: map<string, int>, d: Dup): nat {
    if d.member in nodeList && nodeList[d.member] == d.shard then 1 else 0
  }

  /** Every occurrence met so far is the first of its member, or the first line of one pair. */
  ghost predicate Tallied(nodeList: map<string, int>, dups: seq<Dup>, met: multiset<Dup>) {
    Paired(nodeList, dups) && forall d :: met[d] == Again(dups)[d] + First(nodeList, d)
  }

  lemma {:induction false} PairedGrows(nodeList: map<string, int>, dups: seq<Dup>, m: string, shard: int)
    requires Paired(nodeList, dups) && m !in nodeList
    ensures Paired(nodeList[m := shard], dups)
    decreases |dups|
  {
    if dups == [] {
    } else {
      PairedGrows(nodeList, dups[..|dups| - 2], m, shard);
    }
  }

  lemma TallyNew(nodeList: map<string, int>, dups: seq<Dup>, met: multiset<Dup>, m: string, shard: int)
    requires Tallied(nodeList, dups, met) && m !in nodeList
    ensures Tallied(nodeList[m := shard], dups, met + multiset{Dup(shard, m)})
  {
    PairedGrows(nodeList, dups, m, shard);
  }

  lemma TallyAgain(nodeList: map<string, int>, dups: seq<Dup>, met: multiset<Dup>, m: string, shard: int)
    requires Tallied(nodeList, dups, met) && m in nodeList
    ensures Tallied(nodeList, dups + [Dup(shard, m), Dup(nodeList[m], m)], met + multiset{Dup(shard, m)})
  {
    var more := dups + [Dup(shard, m), Dup(nodeList[m], m)];
    assert more[..|more| - 2] == dups;
  }

  /** The occurrences in one shard's list. */
  ghost function Occurrences(shard: int, members: seq<string>): multiset<Dup> {
    if members == [] then multiset{}
    else Occurrences(shard, members[..|members| - 1]) + multiset{Dup(shard, members[|members| - 1])}
  }

  lemma {:induction false} OccurrencesCount(shard: int, members: seq<string>, d: Dup)
    ensures Occurrences(shard, members)[d] == if d.shard == shard then multiset(members)[d.member] else 0
  {
    if members == [] {
    } else {
      var n := |members| - 1;
      OccurrencesCount(shard, members[..n], d);
      assert members == members[..n] + [members[n]];
    }
  }

  /** How often the list of the shard has the member, if the shard is among the keys. */
  ghost function Times(byShard: ByShard, keys: set<int>, d: Dup): nat
    requires keys <= byShard.Keys
  {
    if d.shard in keys then multiset(byShard[d.shard])[d.member] else 0
  }

  /**
   The whole report: pairs of lines whose second line is where the member was first found, and each
   occurrence of a member in a shard is either that first one or the first line of exactly one pair.
   */
  ghost predicate ReportExact(byShard: ByShard, nodeList: map<string, int>, dups: seq<Dup>) {
    && Paired(nodeList, dups)
    && forall d :: Again(dups)[d] + First(nodeList, d)
         == if d.shard in byShard then multiset(byShard[d.shard])[d.member] else 0
  }

  lemma MetMore(byShard: ByShard, todo: set<int>, i: int, met: multiset<Dup>)
    requires todo <= byShard.Keys && i in todo
    requires forall d :: met[d] == Times(byShard, byShard.Keys - todo, d)
    ensures forall d :: (met + Occurrences(i, byShard[i]))[d] == Times(byShard, byShard.Keys - (todo - {i}), d)
  {
    forall d ensures (met + Occurrences(i, byShard[i]))[d] == Times(byShard, byShard.Keys - (todo - {i}), d) {
      OccurrencesCount(i, byShard[i], d);
    }
  }

  /** What the loops know: which members they have seen, and in which lists. */
  ghost predicate Kept(byShard: ByShard, nodeList: map<string, int>, dups: seq<Dup>, seen: multiset<string>,
                       met: multiset<Dup>) {
    Scanned(byShard, nodeList, dups, seen) && Tallied(nodeList, dups, met)
  }

  lemma KeptAgain(byShard: ByShard, nodeList: map<string, int>, dups: seq<Dup>, seen: multiset<string>,
                  met: multiset<Dup>, m: string, shard: int)
    requires Kept(byShard, nodeList, dups, seen, met) && m in nodeList && Listed(byShard, shard, m)
    ensures Kept(byShard, nodeList, dups + [Dup(shard, m), Dup(nodeList[m], m)],
                 seen + multiset{m}, met + multiset{Dup(shard, m)})
  {
    ScanAgain(byShard, nodeList, dups, seen, m, shard);
    TallyAgain(nodeList, dups, met, m, shard);
  }

  lemma KeptNew(byShard: ByShard, nodeList: map<string, int>, dups: seq<Dup>, seen: multiset<string>,
                met: multiset<Dup>, m: string, shard: int)
    requires Kept(byShard, nodeList, dups, seen, met) && m !in nodeList && Listed(byShard, shard, m)
    ensures Kept(byShard, nodeList[m := shard], dups, seen + multiset{m}, met + multiset{Dup(shard, m)})
  {
    ScanNew(byShard, nodeList, dups, seen, m, shard);
    TallyNew(nodeList, dups, met, m, shard);
  }

  lemma OneMemberMore(members: seq<string>, i: nat, shard: int, seen: multiset<string>, met: multiset<Dup>)
    requires i < |members|
    ensures seen + multiset(members[..i + 1]) == (seen + multiset(members[..i])) + multiset{members[i]}
    ensures met + Occurrences(shard, members[..i + 1])
         == (met + Occurrences(shard, members[..i])) + multiset{Dup(shard, members[i])}
  {
    assert members[..i + 1] == members[..i] + [members[i]];
    assert members[..i + 1][..i] == members[..i];
  }

  /** The body of the inner loop. */
  method ScanMember(ghost byShard: ByShard, nodeList0: map<string, int>, dups0: seq<Dup>, m: string, shard: int,
                    ghost seen: multiset<string>, ghost met: multiset<Dup>)
    returns (nodeList: map<string, int>, dups: seq<Dup>)
    requires Kept(byShard, nodeList0, dups0, seen, met) && Listed(byShard, shard, m)
    ensures Kept(byShard, nodeList, dups, seen + multiset{m}, met + multiset{Dup(shard, m)})
  {
    nodeList, dups := nodeList0, dups0;
    if m in nodeList {
      KeptAgain(byShard, nodeList, dups, seen, met, m, shard);
      dups := dups + [Dup(shard, m), Dup(nodeList[m], m)];
    } else {
      KeptNew(byShard, nodeList, dups, seen, met, m, shard);
      nodeList := nodeList[m := shard];
    }
  }

  /** The inner loop, over the members of one shard. */
  method ScanMembers(ghost byShard: ByShard, nodeList0: map<string, int>, dups0: seq<Dup>, members: seq<string>,
                     shard: int, ghost seen: multiset<string>, ghost met: multiset<Dup>)
    returns (nodeList: map<string, int>, dups: seq<Dup>)
    requires Kept(byShard, nodeList0, dups0, seen, met) && shard in byShard && byShard[shard] == members
    ensures Kept(byShard, nodeList, dups, seen + multiset(members), met + Occurrences(shard, members))
  {
    nodeList, dups := nodeList0, dups0;
    ghost var seenNow, metNow := seen, met;
    assert members[..0] == [];
    for i := 0 to |members|
      invariant Kept(byShard, nodeList, dups, seenNow, metNow)
      invariant seenNow == seen + multiset(members[..i]) && metNow == met + Occurrences(shard, members[..i])
    {
      OneMemberMore(members, i, shard, seen, met);
      nodeList, dups := ScanMember(byShard, nodeList, dups, members[i], shard, seenNow, metNow);
      seenNow, metNow := seenNow + multiset{members[i]}, metNow + multiset{Dup(shard, members[i])};
    }
    assert members[..|members|] == members;
  }

  lemma ScanStarts(byShard: ByShard)
    ensures Scanned(byShard, map[], [], Bag(byShard, byShard.Keys - byShard.Keys))
  {
    assert byShard.Keys - byShard.Keys == {} && Members(multiset{}) == {};
  }

  /** One more shard has been visited. */
  lemma OneShardLess(byShard: ByShard, todo: set<int>, i: int)
    requires todo <= byShard.Keys && i in todo
    ensures Bag(byShard, byShard.Keys - (todo - {i})) == Bag(byShard, byShard.Keys - todo) + multiset(byShard[i])
  {
    BagAdd(byShard, byShard.Keys - todo, i);
    assert byShard.Keys - (todo - {i}) == byShard.Keys - todo + {i};
  }

  method DetectDuplicates(byShard: ByShard) returns (nodeList: map<string, int>, dups: seq<Dup>)
    ensures Scanned(byShard, nodeList, dups, All(byShard))
    ensures ReportExact(byShard, nodeList, dups)
  {
    nodeList, dups := map[], [];
    ghost var met: multiset<Dup> := multiset{};
    var todo := byShard.Keys;
    ScanStarts(byShard);
    while todo != {}
      invariant todo <= byShard.Keys
      invariant Kept(byShard, nodeList, dups, Bag(byShard, byShard.Keys - todo), met)
      invariant forall d :: met[d] == Times(byShard, byShard.Keys - todo, d)
      decreases |todo|
    {
      ghost var some := Pick(todo);
      assert some in todo;
      var i :| i in todo;
      OneShardLess(byShard, todo, i);
      MetMore(byShard, todo, i, met);
      nodeList, dups := ScanMembers(byShard, nodeList, dups, byShard[i], i, Bag(byShard, byShard.Keys - todo), met);
      met := met + Occurrences(i, byShard[i]);
      todo := todo - {i};
    }
    assert byShard.Keys - todo == byShard.Keys;
  }

  /** A bag has as many members as elements exactly when nothing is repeated. */
  lemma {:induction false} MembersOf(bag: multiset<string>)
    ensures |Members(bag)| <= |bag|
    ensures |Members(bag)| == |bag| <==> forall m :: bag[m] <= 1
    ensures Members(bag) == {} <==> bag == multiset{}
    decreases |bag|
  {
    if bag == multiset{} {
      assert Members(bag) == {};
    } else {
      var m :| m in bag;
      var rest := bag - multiset{m};
      MembersOf(rest);
      assert |rest| == |bag| - 1;
      assert m in Members(bag);
      if m in rest {
        assert Members(bag) == Members(rest);
        assert bag[m] >= 2;
      } else {
        assert Members(bag) == Members(rest) + {m};
        assert forall x :: bag[x] == if x == m then 1 else rest[x];
      }
    }
  }

  /** The checks of `newInstructions`, in its order. */
  method Validate(byShard: ByShard) returns (verdict: Verdict)
    ensures verdict == EmptyNodeList <==> All(byShard) == multiset{}
    ensures verdict == Accepted <==> All(byShard) != multiset{} && forall m :: All(byShard)[m] <= 1
    ensures verdict.Duplicates? ==>
      && |verdict.dups| == 2 * (|All(byShard)| - |Members(All(byShard))|) > 0
      && ReportOk(byShard, verdict.dups, All(byShard))
      && exists nodeList :: ReportExact(byShard, nodeList, verdict.dups)
  {
    var nodeList, dups := DetectDuplicates(byShard);
    MembersOf(All(byShard));
    assert |nodeList| == |nodeList.Keys|;
    if |nodeList| == 0 {
      return EmptyNodeList;
    }
    if |dups| > 0 {
      return Duplicates(dups);
    }
    return Accepted;
  }

  // ----- the shard map -----

  /** Every member is mapped to a shard that lists it. */
  ghost predicate Maps(shardMap: map<string, int>, byShard: ByShard, keys: set<int>)
    requires keys <= byShard.Keys
  {
    && (forall m :: m in shardMap ==> shardMap[m] in keys && m in byShard[shardMap[m]])
    && (forall k, m :: k in keys && m in byShard[k] ==> m in shardMap)
  }

  method BuildShardMap(byShard: ByShard) returns (shardMap: map<string, int>)
    ensures Maps(shardMap, byShard, byShard.Keys)
  {
    shardMap := map[];
    var todo := byShard.Keys;
    while todo != {}
      invariant todo <= byShard.Keys && Maps(shardMap, byShard, byShard.Keys - todo)
      decreases |todo|
    {
      ghost var some := Pick(todo);
      assert some in todo;
      var k :| k in todo;
      var members := byShard[k];
      ghost var before := shardMap;
      for i := 0 to |members|
        invariant forall m :: m in shardMap <==> m in before || m in members[..i]
        invariant forall m :: m in shardMap ==> if m in members[..i] then shardMap[m] == k else shardMap[m] == before[m]
      {
        shardMap := shardMap[members[i] := k];
      }
      assert members[..|members|] == members;
      todo := todo - {k};
    }
    assert byShard.Keys - todo == byShard.Keys;
  }

  lemma ListedTwice(byShard: ByShard, m: string, j: int, k: int)
    requires j in byShard && k in byShard && m in byShard[j] && m in byShard[k] && j != k
    ensures All(byShard)[m] >= 2
  {
    var keys := byShard.Keys;
    BagPick(byShard, keys, j);
    BagPick(byShard, keys - {j}, k);
    assert m in multiset(byShard[j]) && m in multiset(byShard[k]);
  }

  /** Two shards cannot both list a member that occurs once in all. */
  lemma OneHome(byShard: ByShard, m: string, j: int, k: int)
    requires j in byShard && k in byShard && m in byShard[j] && m in byShard[k] && All(byShard)[m] <= 1
    ensures j == k
  {
    if j != k {
      ListedTwice(byShard, m, j, k);
    }
  }

  /** A member occurs at most once in a list without repetitions, and only in the shard that lists it. */
  lemma OnceInAll(byShard: ByShard, m: string, k: int)
    requires k in byShard && m in byShard[k] && Distinct(byShard[k])
    requires forall j :: j in byShard && m in byShard[j] ==> j == k
    ensures All(byShard)[m] == 1
  {
    BagPick(byShard, byShard.Keys, k);
    ListingIsBagOfSet(byShard[k]);
    BagMember(byShard, byShard.Keys - {k}, m);
    assert m in Elements(byShard[k]);
  }

  lemma InOneList(byShard: ByShard, k: int, m: string)
    requires k in byShard
    ensures multiset(byShard[k])[m] <= All(byShard)[m]
  {
    BagPick(byShard, byShard.Keys, k);
  }

  lemma OnceMeansDistinct(byShard: ByShard, k: int)
    requires k in byShard && forall m :: All(byShard)[m] <= 1
    ensures Distinct(byShard[k])
  {
    var members := byShard[k];
    forall i, j | 0 <= i < j < |members| ensures members[i] != members[j] {
      RepeatCountsTwice(members, i, j);
      InOneList(byShard, k, members[j]);
    }
  }

  /** The verdict in terms of the lists: no list repeats a member, and no two lists share one. */
  lemma NoRepetitionMeans(byShard: ByShard)
    ensures (forall m :: All(byShard)[m] <= 1) <==>
      && (forall k :: k in byShard ==> Distinct(byShard[k]))
      && (forall j, k, m :: j in byShard && k in byShard && m in byShard[j] && m in byShard[k] ==> j == k)
    ensures All(byShard) == multiset{} <==> forall k :: k in byShard ==> byShard[k] == []
  {
    if forall m :: All(byShard)[m] <= 1 {
      forall k | k in byShard ensures Distinct(byShard[k]) {
        OnceMeansDistinct(byShard, k);
      }
      forall j, k, m | j in byShard && k in byShard && m in byShard[j] && m in byShard[k] ensures j == k {
        OneHome(byShard, m, j, k);
      }
    }
    forall m ensures m in All(byShard) <==> exists k :: k in byShard && m in byShard[k] {
      BagMember(byShard, byShard.Keys, m);
    }
    if (forall k :: k in byShard ==> Distinct(byShard[k]))
       && (forall j, k, m :: j in byShard && k in byShard && m in byShard[j] && m in byShard[k] ==> j == k)
    {
      forall m | m in All(byShard) ensures All(byShard)[m] <= 1 {
        var k :| k in byShard && m in byShard[k];
        OnceInAll(byShard, m, k);
      }
    }
    forall k | k in byShard && byShard[k] != [] ensures byShard[k][0] in All(byShard) {
      assert byShard[k][0] in byShard[k];
    }
  }

  /**
   An accepted configuration: the shard map, whichever order built it, is non-empty, maps a member
   to a shard exactly when that shard lists it, and has one entry per listed member.
   */
  lemma AcceptedShardMap(byShard: ByShard, shardMap: map<string, int>)
    requires All(byShard) != multiset{} && forall m :: All(byShard)[m] <= 1
    requires Maps(shardMap, byShard, byShard.Keys)
    ensures shardMap != map[]
    ensures forall m, k :: m in shardMap && shardMap[m] == k <==> k in byShard && m in byShard[k]
    ensures |shardMap| == |All(byShard)|
  {
    forall m, k ensures m in shardMap && shardMap[m] == k <==> k in byShard && m in byShard[k] {
      if k in byShard && m in byShard[k] {
        OneHome(byShard, m, k, shardMap[m]);
      }
    }
    forall m ensures m in shardMap <==> m in Members(All(byShard)) {
      BagMember(byShard, byShard.Keys, m);
    }
    MembersOf(All(byShard));
    assert shardMap.Keys == Members(All(byShard));
    assert |shardMap| == |shardMap.Keys|;
  }

  lemma SubMap(byShard: ByShard, a: map<string, int>, b: map<string, int>)
    requires Maps(a, byShard, byShard.Keys) && Maps(b, byShard, byShard.Keys)
    ensures a.Keys <= b.Keys
  {
    forall m | m in a ensures m in b {
      var k := a[m];
      assert k in byShard && m in byShard[k];
    }
  }

  /** The order of iteration does not matter for an accepted configuration. */
  lemma ShardMapUnique(byShard: ByShard, a: map<string, int>, b: map<string, int>)
    requires forall m :: All(byShard)[m] <= 1
    requires Maps(a, byShard, byShard.Keys) && Maps(b, byShard, byShard.Keys)
    ensures a == b
  {
    SubMap(byShard, a, b);
    SubMap(byShard, b, a);
    forall m | m in a ensures a[m] == b[m] {
      OneHome(byShard, m, a[m], b[m]);
    }
  }
}
