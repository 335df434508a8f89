/**
 `blockHeaderSummary`: block headers grouped by shard, each group summarised under the decimal
 name of its shard.  The query-library operations it is made of are functions here.
 */
module HeaderSummary {
  import opened Polling

  datatype ShardSummary = ShardSummary(
    blockMin: uint64, blockMax: uint64, epochMin: uint64, epochMax: uint64,
    uniqEpochs: seq<uint64>, uniqBlocks: seq<uint64>,
    records: seq<BlockHeader>, latest: BlockHeader)

  // ----- decimal names -----

  function Digit(d: nat): char
    requires d < 10
  {
    ('0' as int + d) as char
  }

  /** `strconv.FormatUint(n, 10)`. */
  function Decimal(n: nat): string {
    if n < 10 then [Digit(n)] else Decimal(n / 10) + [Digit(n % 10)]
  }

  /** The number that a digit string denotes. */
  function Parse(s: string): int {
    if s == [] then 0 else 10 * Parse(s[..|s| - 1]) + (s[|s| - 1] as int - '0' as int)
  }

  lemma {:induction false} DecimalRoundTrip(n: nat)
    ensures Parse(Decimal(n)) == n
  {
    if n < 10 {
    } else {
      DecimalRoundTrip(n / 10);
      assert (Decimal(n / 10) + [Digit(n % 10)])[..|Decimal(n / 10)|] == Decimal(n / 10);
    }
  }

  /** The format: decimal digits, and no zero in front of a longer number. */
  lemma {:induction false} DecimalIsCanonical(n: nat)
    ensures Decimal(n) != "" && (forall i :: 0 <= i < |Decimal(n)| ==> '0' <= Decimal(n)[i] <= '9')
    ensures Decimal(n)[0] == '0' <==> n == 0
    ensures n == 0 ==> Decimal(n) == "0"
  {
    if n < 10 {
    } else {
      DecimalIsCanonical(n / 10);
    }
  }

  // ----- the query operations -----

  /** The headers of one shard, in order: one group of `GroupBy`. */
  function InShard(hs: seq<BlockHeader>, s: uint32): seq<BlockHeader> {
    if hs == [] then []
    else if hs[|hs| - 1].shard == s then InShard(hs[..|hs| - 1], s) + [hs[|hs| - 1]]
    else InShard(hs[..|hs| - 1], s)
  }

  function Shards(hs: seq<BlockHeader>): set<uint32> {
    set i | 0 <= i < |hs| :: hs[i].shard
  }

  function Numbers(hs: seq<BlockHeader>): (r: seq<uint64>)
    ensures |r| == |hs| && forall i :: 0 <= i < |hs| ==> r[i] == hs[i].number
  {
    seq(|hs|, i requires 0 <= i < |hs| => hs[i].number)
  }

  function Epochs(hs: seq<BlockHeader>): (r: seq<uint64>)
    ensures |r| == |hs| && forall i :: 0 <= i < |hs| ==> r[i] == hs[i].epoch
  {
    seq(|hs|, i requires 0 <= i < |hs| => hs[i].epoch)
  }

  /** `Max`. */
  function Max(xs: seq<uint64>): (m: uint64)
    requires xs != []
    ensures m in xs && forall i :: 0 <= i < |xs| ==> xs[i] <= m
  {
    if |xs| == 1 then xs[0] else
    var m := Max(xs[1..]);
    assert forall i :: 0 < i < |xs| ==> xs[i] == xs[1..][i - 1];
    if xs[0] > m then xs[0] else m
  }

  /** `Min`. */
  function Min(xs: seq<uint64>): (m: uint64)
    requires xs != []
    ensures m in xs && forall i :: 0 <= i < |xs| ==> m <= xs[i]
  {
    if |xs| == 1 then xs[0] else
    var m := Min(xs[1..]);
    assert forall i :: 0 < i < |xs| ==> xs[i] == xs[1..][i - 1];
    if xs[0] < m then xs[0] else m
  }

  /** `Distinct`: first occurrences, in order. */
  function Dedupe(xs: seq<uint64>): (r: seq<uint64>)
    ensures Distinct(r) && SameElements(r, xs)
  {
    if xs == [] then [] else
    var r := Dedupe(xs[..|xs| - 1]);
    var x := xs[|xs| - 1];
    assert xs == xs[..|xs| - 1] + [x];
    if x in r then r else r + [x]
  }

  ghost predicate StrictlyDescending(xs: seq<uint64>) {
    forall i, j :: 0 <= i < j < |xs| ==> xs[i] > xs[j]
  }

  function Insert(x: uint64, xs: seq<uint64>): (r: seq<uint64>)
    requires StrictlyDescending(xs) && x !in xs
    ensures StrictlyDescending(r) && SameElements(r, [x] + xs)
  {
    if xs == [] || x > xs[0] then [x] + xs else
    var r := Insert(x, xs[1..]);
    assert SameElements([xs[0]] + r, [x] + xs) by {
      assert xs == [xs[0]] + xs[1..];
    }
    assert forall i :: 0 <= i < |r| ==> r[i] < xs[0] by {
      assert forall i :: 0 <= i < |r| ==> r[i] in [x] + xs[1..];
    }
    [xs[0]] + r
  }

  /** `sort.SliceStable` with `>`, on a list without repetitions. */
  function SortDescending(xs: seq<uint64>): (r: seq<uint64>)
    requires Distinct(xs)
    ensures StrictlyDescending(r) && SameElements(r, xs)
  {
    if xs == [] then [] else
    var r := SortDescending(xs[1..]);
    assert xs == [xs[0]] + xs[1..];
    assert xs[0] !in xs[1..];
    Insert(xs[0], r)
  }

  /** `FirstWith`: the first header with the given block number. */
  function FirstAt(hs: seq<BlockHeader>, n: uint64): (h: BlockHeader)
    requires exists i :: 0 <= i < |hs| && hs[i].number == n
    ensures exists i :: 0 <= i < |hs| && hs[i] == h && h.number == n && forall j :: 0 <= j < i ==> hs[j].number != n
  {
    if hs[0].number == n then hs[0] else
    assert forall i :: 0 < i < |hs| ==> hs[i] == hs[1..][i - 1];
    var h := FirstAt(hs[1..], n);
    assert exists i :: 0 <= i < |hs[1..]| && hs[1..][i] == h && forall j :: 0 <= j < i ==> hs[1..][j].number != n;
    h
  }

  const NO_HEADER := BlockHeader("", 0, 0, 0, 0, "", "", 0, "", "", "")

  /** What the loop body stores for one group; a group is never empty. */
  function Summarize(group: seq<BlockHeader>): ShardSummary {
    if group == [] then ShardSummary(0, 0, 0, 0, [], [], [], NO_HEADER) else
    var blocks, epochs := Numbers(group), Epochs(group);
    assert Max(blocks) in blocks;
    ShardSummary(
      Min(blocks), Max(blocks), Min(epochs), Max(epochs),
      SortDescending(Dedupe(epochs)), SortDescending(Dedupe(blocks)),
      group, FirstAt(group, Max(blocks)))
  }

  // ----- what a summary means -----

  /** lo and hi are attained in xs and bound it; uniq lists its values once each, from hi down to lo. */
  ghost predicate Spectrum(xs: seq<uint64>, uniq: seq<uint64>, lo: uint64, hi: uint64) {
    && StrictlyDescending(uniq) && SameElements(uniq, xs)
    && uniq != [] && uniq[0] == hi && uniq[|uniq| - 1] == lo
    && forall i :: 0 <= i < |xs| ==> lo <= xs[i] <= hi
  }

  /** The summary of a group, without saying how it is computed. */
  ghost predicate IsSummary(s: ShardSummary, group: seq<BlockHeader>) {
    && s.records == group
    && Spectrum(Numbers(group), s.uniqBlocks, s.blockMin, s.blockMax)
    && Spectrum(Epochs(group), s.uniqEpochs, s.epochMin, s.epochMax)
    && exists i :: 0 <= i < |group| && group[i] == s.latest && group[i].number == s.blockMax
         && forall j :: 0 <= j < i ==> group[j].number < s.blockMax
  }

  lemma SpectrumOf(xs: seq<uint64>, uniq: seq<uint64>)
    requires xs != [] && StrictlyDescending(uniq) && SameElements(uniq, xs)
    ensures Spectrum(xs, uniq, Min(xs), Max(xs))
  {
    var lo, hi := Min(xs), Max(xs);
    assert lo in uniq && hi in uniq;
    assert uniq[0] in xs && uniq[|uniq| - 1] in xs;
  }

  lemma SortedElements(xs: seq<uint64>)
    ensures SameElements(SortDescending(Dedupe(xs)), xs)
  {
    var d := Dedupe(xs);
    assert SameElements(SortDescending(d), d) && SameElements(d, xs);
  }

  lemma SortedSpectrum(xs: seq<uint64>)
    requires xs != []
    ensures Spectrum(xs, SortDescending(Dedupe(xs)), Min(xs), Max(xs))
  {
    SortedElements(xs);
    SpectrumOf(xs, SortDescending(Dedupe(xs)));
  }

  lemma SummarizeIsSummary(group: seq<BlockHeader>)
    requires group != []
    ensures IsSummary(Summarize(group), group)
  {
    SortedSpectrum(Numbers(group));
    SortedSpectrum(Epochs(group));
    var s := Summarize(group);
    var i :| 0 <= i < |group| && group[i] == s.latest && s.latest.number == s.blockMax
      && forall j :: 0 <= j < i ==> group[j].number != s.blockMax;
    forall j | 0 <= j < i ensures group[j].number < s.blockMax {
      assert Numbers(group)[j] <= s.blockMax;
    }
  }

  lemma HasElement(xs: seq<uint64>)
    requires xs != []
    ensures exists x :: x in xs
  {
    assert xs[0] in xs;
  }

  /** A strictly descending list is determined by its elements, so any sorting routine gives this one. */
  lemma {:induction false} DescendingUnique(xs: seq<uint64>, ys: seq<uint64>)
    requires StrictlyDescending(xs) && StrictlyDescending(ys) && SameElements(xs, ys)
    ensures xs == ys
  {
    if xs != [] && ys != [] {
      assert xs[0] in ys && ys[0] in xs;
      assert xs == [xs[0]] + xs[1..] && ys == [ys[0]] + ys[1..];
      assert xs[0] !in xs[1..] && ys[0] !in ys[1..];
      forall x ensures x in xs[1..] <==> x in ys[1..] {
        assert x in xs <==> x in ys;
      }
      DescendingUnique(xs[1..], ys[1..]);
    } else if xs != [] {
      HasElement(xs);
    } else if ys != [] {
      HasElement(ys);
    }
  }

  /** The meaning fixes the summary completely. */
  lemma SummaryUnique(s: ShardSummary, t: ShardSummary, group: seq<BlockHeader>)
    requires IsSummary(s, group) && IsSummary(t, group)
    ensures s == t
  {
    DescendingUnique(s.uniqBlocks, t.uniqBlocks);
    DescendingUnique(s.uniqEpochs, t.uniqEpochs);
    var i :| 0 <= i < |group| && group[i] == s.latest && group[i].number == s.blockMax
      && forall j :: 0 <= j < i ==> group[j].number < s.blockMax;
    var k :| 0 <= k < |group| && group[k] == t.latest && group[k].number == t.blockMax
      && forall j :: 0 <= j < k ==> group[j].number < t.blockMax;
    assert i == k;
  }

  // ----- the whole summary -----

  /** The groups partition the headers: each occurrence is in the group of its own shard only. */
  lemma {:induction false} GroupCounts(hs: seq<BlockHeader>, s: uint32, h: BlockHeader)
    ensures multiset(InShard(hs, s))[h] == if h.shard == s then multiset(hs)[h] else 0
  {
    if hs == [] {
    } else {
      var n := |hs| - 1;
      GroupCounts(hs[..n], s, h);
      assert hs == hs[..n] + [hs[n]];
    }
  }

  /** A group is the list of the headers of its shard, in order. */
  lemma {:induction false} GroupIsListing(hs: seq<BlockHeader>, s: uint32)
    ensures Gathers(InShard(hs, s),
                    seq(|hs|, i requires 0 <= i < |hs| => if hs[i].shard == s then Some(hs[i]) else None))
  {
    var ys := seq(|hs|, i requires 0 <= i < |hs| => if hs[i].shard == s then Some(hs[i]) else None);
    if hs == [] {
      GatherNothing(ys);
    } else {
      var n := |hs| - 1;
      var front := hs[..n];
      GroupIsListing(front, s);
      var zs := seq(n, i requires 0 <= i < n => if front[i].shard == s then Some(front[i]) else None);
      assert ys[..n] == zs;
      GatherStep(InShard(front, s), InShard(hs, s), zs, ys);
    }
  }

  lemma {:induction false} GroupNonEmpty(hs: seq<BlockHeader>, s: uint32)
    ensures InShard(hs, s) != [] <==> s in Shards(hs)
  {
    if hs == [] {
    } else {
      var n := |hs| - 1;
      GroupNonEmpty(hs[..n], s);
      assert Shards(hs) == Shards(hs[..n]) + {hs[n].shard};
    }
  }

  /** The key of a shard in the summary map. */
  function Name(s: uint32): string {
    Decimal(s as nat)
  }

  /** It is the number itself, in the format in which shard 0 is "0". */
  lemma NameIsNumber(s: uint32)
    ensures Parse(Name(s)) == s as int && (Name(s) == "0" <==> s == 0)
  {
    DecimalRoundTrip(s as nat);
    DecimalIsCanonical(s as nat);
  }

  ghost function Names(shards: set<uint32>): set<string> {
    set s | s in shards :: Name(s)
  }

  /** f of every group, under the names of the given shards and no other key. */
  ghost predicate MappedOn<T>(hs: seq<BlockHeader>, f: seq<BlockHeader> -> T, sum: map<string, T>,
                              shards: set<uint32>) {
    sum.Keys == Names(shards) && forall s :: s in shards ==> Name(s) in sum && sum[Name(s)] == f(InShard(hs, s))
  }

  /** One entry per shard that occurs, under the decimal name of the shard, and nothing else. */
  ghost predicate Mapped<T>(hs: seq<BlockHeader>, f: seq<BlockHeader> -> T, sum: map<string, T>) {
    MappedOn(hs, f, sum, Shards(hs))
  }

  /** The headers determine the map, whatever the order of the groups. */
  lemma MappedUnique<T>(hs: seq<BlockHeader>, f: seq<BlockHeader> -> T, a: map<string, T>, b: map<string, T>)
    requires Mapped(hs, f, a) && Mapped(hs, f, b)
    ensures a == b
  {
  }

  /** Distinct shards get distinct keys. */
  lemma NameInjective(s: uint32, t: uint32)
    requires s != t
    ensures Name(s) != Name(t)
  {
    DecimalRoundTrip(s as nat);
    DecimalRoundTrip(t as nat);
  }

  lemma MapOneMore<T>(hs: seq<BlockHeader>, f: seq<BlockHeader> -> T, sum: map<string, T>, done: set<uint32>, s: uint32)
    requires MappedOn(hs, f, sum, done) && s !in done
    ensures MappedOn(hs, f, sum[Name(s) := f(InShard(hs, s))], done + {s})
  {
    forall t | t in done ensures Name(t) != Name(s) {
      NameInjective(s, t);
    }
    assert Names(done + {s}) == Names(done) + {Name(s)};
  }

  /** `GroupBy(...).ForEach(...)`: the groups come in any order. */
  method ForEachGroup<T>(headers: seq<BlockHeader>, keys: set<uint32>, f: seq<BlockHeader> -> T)
    returns (sum: map<string, T>)
    ensures MappedOn(headers, f, sum, keys)
  {
    sum := map[];
    var todo := keys;
    while todo != {}
      invariant todo <= keys
      invariant MappedOn(headers, f, sum, keys - todo)
      decreases |todo|
    {
      var shard :| shard in todo;
      MapOneMore(headers, f, sum, keys - todo, shard);
      sum := sum[Name(shard) := f(InShard(headers, shard))];
      assert keys - (todo - {shard}) == (keys - todo) + {shard};
      todo := todo - {shard};
    }
    assert keys - todo == keys;
  }

  method BlockHeaderSummary(headers: seq<BlockHeader>) returns (sum: map<string, ShardSummary>)
    ensures Mapped(headers, Summarize, sum)
  {
    sum := ForEachGroup(headers, Shards(headers), Summarize);
  }

  /** Every entry of the result is the summary of the headers of its shard. */
  lemma EntryIsSummary(hs: seq<BlockHeader>, sum: map<string, ShardSummary>, s: uint32)
    requires Mapped(hs, Summarize, sum) && s in Shards(hs)
    ensures Name(s) in sum && IsSummary(sum[Name(s)], InShard(hs, s))
  {
    GroupNonEmpty(hs, s);
    SummarizeIsSummary(InShard(hs, s));
  }

  /** Header i is the first of its shard at the given height, and none of the shard is higher. */
  ghost predicate FirstHighest(hs: seq<BlockHeader>, s: uint32, i: nat, height: uint64) {
    && i < |hs| && hs[i].shard == s && hs[i].number == height
    && (forall j :: 0 <= j < |hs| && hs[j].shard == s ==> hs[j].number <= height)
    && (forall j :: 0 <= j < i && hs[j].shard == s ==> hs[j].number < height)
  }

  lemma FirstInGroup(hs: seq<BlockHeader>, s: uint32, group: seq<BlockHeader>, m: nat, height: uint64)
    returns (i: nat)
    requires Gathers(group, seq(|hs|, i requires 0 <= i < |hs| => if hs[i].shard == s then Some(hs[i]) else None))
    requires m < |group| && group[m].number == height
    requires forall j :: 0 <= j < |group| ==> group[j].number <= height
    requires forall j :: 0 <= j < m ==> group[j].number < height
    ensures FirstHighest(hs, s, i, height) && hs[i] == group[m]
  {
    var ys := seq(|hs|, i requires 0 <= i < |hs| => if hs[i].shard == s then Some(hs[i]) else None);
    i := GatheredFrom(group, ys, m);
    forall j | 0 <= j < |hs| && hs[j].shard == s
      ensures hs[j].number <= height && (j < i ==> hs[j].number < height)
    {
      assert ys[j] == Some(hs[j]);
      var p :| 0 <= p < |group| && group[p] == ys[j].value && (j < i ==> p < m);
    }
  }

  /** In the whole list, `latest-block` is the first header of the shard that has its greatest height. */
  lemma LatestIsFirst(hs: seq<BlockHeader>, sum: map<string, ShardSummary>, s: uint32) returns (i: nat)
    requires Mapped(hs, Summarize, sum) && s in Shards(hs)
    ensures Name(s) in sum && FirstHighest(hs, s, i, sum[Name(s)].blockMax) && hs[i] == sum[Name(s)].latest
  {
    EntryIsSummary(hs, sum, s);
    GroupIsListing(hs, s);
    var entry, group := sum[Name(s)], InShard(hs, s);
    var m: nat :| m < |group| && group[m] == entry.latest && group[m].number == entry.blockMax
      && forall j :: 0 <= j < m ==> group[j].number < entry.blockMax;
    forall j | 0 <= j < |group| ensures group[j].number <= entry.blockMax {
      assert Numbers(group)[j] == group[j].number;
    }
    i := FirstInGroup(hs, s, group, m, entry.blockMax);
  }

  lemma GroupMember(hs: seq<BlockHeader>, shard: uint32, h: BlockHeader)
    ensures h in InShard(hs, shard) <==> h in hs && h.shard == shard
  {
    GroupCounts(hs, shard, h);
    assert h in multiset(InShard(hs, shard)) <==> h in InShard(hs, shard);
    assert h in multiset(hs) <==> h in hs;
  }

  lemma NumbersOfShard(hs: seq<BlockHeader>, s: uint32, n: uint64)
    ensures n in Numbers(InShard(hs, s)) <==> exists i :: 0 <= i < |hs| && hs[i].shard == s && hs[i].number == n
  {
    var group := InShard(hs, s);
    if n in Numbers(group) {
      var j :| 0 <= j < |group| && Numbers(group)[j] == n;
      GroupMember(hs, s, group[j]);
      var i :| 0 <= i < |hs| && hs[i] == group[j];
    }
    if i :| 0 <= i < |hs| && hs[i].shard == s && hs[i].number == n {
      GroupMember(hs, s, hs[i]);
      var j :| 0 <= j < |group| && group[j] == hs[i];
      assert Numbers(group)[j] == n;
    }
  }

  lemma EpochsOfShard(hs: seq<BlockHeader>, s: uint32, n: uint64)
    ensures n in Epochs(InShard(hs, s)) <==> exists i :: 0 <= i < |hs| && hs[i].shard == s && hs[i].epoch == n
  {
    var group := InShard(hs, s);
    if n in Epochs(group) {
      var j :| 0 <= j < |group| && Epochs(group)[j] == n;
      GroupMember(hs, s, group[j]);
      var i :| 0 <= i < |hs| && hs[i] == group[j];
    }
    if i :| 0 <= i < |hs| && hs[i].shard == s && hs[i].epoch == n {
      GroupMember(hs, s, hs[i]);
      var j :| 0 <= j < |group| && group[j] == hs[i];
      assert Epochs(group)[j] == n;
    }
  }

  /** And its lists hold exactly the heights and epochs of the shard's headers, in descending order. */
  lemma EntryLists(hs: seq<BlockHeader>, sum: map<string, ShardSummary>, s: uint32, n: uint64)
    requires Mapped(hs, Summarize, sum) && s in Shards(hs)
    ensures Name(s) in sum
    ensures StrictlyDescending(sum[Name(s)].uniqBlocks) && StrictlyDescending(sum[Name(s)].uniqEpochs)
    ensures n in sum[Name(s)].uniqBlocks <==> exists i :: 0 <= i < |hs| && hs[i].shard == s && hs[i].number == n
    ensures n in sum[Name(s)].uniqEpochs <==> exists i :: 0 <= i < |hs| && hs[i].shard == s && hs[i].epoch == n
  {
    EntryIsSummary(hs, sum, s);
    NumbersOfShard(hs, s, n);
    EpochsOfShard(hs, s, n);
    assert n in sum[Name(s)].uniqBlocks <==> n in Numbers(InShard(hs, s));
    assert n in sum[Name(s)].uniqEpochs <==> n in Epochs(InShard(hs, s));
  }
}
