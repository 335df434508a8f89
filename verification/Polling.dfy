/**
 Vocabulary shared by every monitor: node addresses, what one HTTP request yields, Go's
 fixed-width arithmetic where a monitor depends on it, and a few facts about bags.
 */
module Polling {

  type Address = string

  datatype Option<+T> = None | Some(value: T)

  /** What `request` returns: a body, or an error together with the request that failed. */
  datatype Outcome = Body(bytes: string) | Oops(reason: string, payload: string)

  /** A reply as a monitor reads it from a reply channel. */
  datatype Reply = Reply(address: Address, outcome: Outcome)

  /** Who sent the replies, in order. */
  ghost function Senders(replies: seq<Reply>): seq<Address> {
    seq(|replies|, i requires 0 <= i < |replies| => replies[i].address)
  }

  /** A block header as a node reports it, with the address that reported it. */
  datatype BlockHeader = BlockHeader(
    ip: Address, number: uint64, shard: uint32, epoch: uint64, unixTime: int,
    hash: string, leader: string, viewId: uint64, timestamp: string,
    lastCommitSig: string, lastCommitBitmap: string)

  // ----- Go durations -----

  const NANOS: int := 1_000_000_000
  const MAX_DURATION: int := 0x7FFF_FFFF_FFFF_FFFF

  /** The longest Go duration in whole seconds. */
  const MAX_DURATION_SECONDS: int := 9_223_372_036

  /** `time.Time.Sub`: the difference in nanoseconds, saturating at the ends of int64. */
  function Sub(later: int, earlier: int): int {
    var d := later - earlier;
    if d > MAX_DURATION then MAX_DURATION
    else if d < -MAX_DURATION - 1 then -MAX_DURATION - 1
    else d
  }

  /** `uint64(d.Seconds())` for a duration that is not negative. */
  function WholeSeconds(d: nat): nat {
    d / NANOS
  }

  // ----- Go unsigned arithmetic -----

  const U64: int := 0x1_0000_0000_0000_0000

  newtype uint64 = x: int | 0 <= x < U64
  newtype uint32 = x: int | 0 <= x < 0x1_0000_0000

  /** Unsigned 64-bit subtraction, which wraps around. */
  function Minus64(a: uint64, b: uint64): (r: uint64)
    ensures r as int == if b <= a then a as int - b as int else U64 + a as int - b as int
  {
    if b <= a then a - b else ((U64 + a as int) - b as int) as uint64
  }

  /** `int(h)` on a 64-bit platform: the same bits read as two's complement. */
  function AsInt(h: uint64): int {
    if h as int <= MAX_DURATION then h as int else h as int - U64
  }

  /** `uint64(i)`: the same bits read as unsigned. */
  function AsUint(i: int): uint64 {
    (i % U64) as uint64
  }

  // ----- sequences and bags -----

  ghost predicate Distinct<T>(s: seq<T>) {
    forall i, j :: 0 <= i < j < |s| ==> s[i] != s[j]
  }

  ghost function Elements<T>(s: seq<T>): set<T> {
    set x | x in s
  }

  ghost predicate SameElements<T(!new)>(s: seq<T>, t: seq<T>) {
    forall x :: x in s <==> x in t
  }

  /** Some element of a non-empty set. */
  ghost function Pick<T>(s: set<T>): (x: T)
    requires s != {}
    ensures x in s
  {
    var x :| x in s;
    x
  }

  lemma RepeatCountsTwice<T>(s: seq<T>, i: nat, j: nat)
    requires i < j < |s|
    ensures s[i] == s[j] ==> multiset(s)[s[j]] >= 2
  {
    assert s == s[..j] + [s[j]] + s[j + 1..];
    assert s[i] in s[..j];
  }

  /** A sequence whose bag is the bag of a set lists every element of that set exactly once. */
  lemma BagOfSetIsListing<T>(s: seq<T>, t: set<T>)
    requires multiset(s) == multiset(t)
    ensures Distinct(s) && Elements(s) == t && |s| == |t|
  {
    forall x ensures x in s <==> x in t {
      assert x in s <==> x in multiset(s);
    }
    forall i, j | 0 <= i < j < |s| ensures s[i] != s[j] {
      RepeatCountsTwice(s, i, j);
      assert multiset(t)[s[j]] <= 1;
    }
    assert |multiset(s)| == |s|;
  }

  /** The converse: a listing of a set has the bag of that set. */
  lemma {:induction false} ListingIsBagOfSet<T>(s: seq<T>)
    requires Distinct(s)
    ensures multiset(s) == multiset(Elements(s)) && |Elements(s)| == |s|
    decreases |s|
  {
    if s == [] {
    } else {
      var n := |s| - 1;
      assert s == s[..n] + [s[n]];
      ListingIsBagOfSet(s[..n]);
      assert s[n] !in Elements(s[..n]);
      assert Elements(s) == Elements(s[..n]) + {s[n]};
    }
  }

  lemma BagExchange<T>(a: multiset<T>, b: multiset<T>, b': multiset<T>, x: multiset<T>, y: multiset<T>)
    requires b' + x == b + y
    ensures (a + b') + x == (a + b) + y
  {
    calc {
      (a + b') + x;
      a + (b' + x);
      a + (b + y);
      (a + b) + y;
    }
  }

  lemma BagCancel<T>(a: multiset<T>, b: multiset<T>, x: multiset<T>)
    requires a + x == b + x
    ensures a == b
  {
    forall e ensures a[e] == b[e] {
      assert (a + x)[e] == (b + x)[e];
    }
  }

  lemma BagRotate<T>(x: multiset<T>, a: multiset<T>, b: multiset<T>)
    ensures a + (b + x) == (x + a) + b
  {
  }

  lemma BagAssoc<T>(a: multiset<T>, b: multiset<T>, c: multiset<T>)
    ensures a + (b + c) == (a + b) + c
  {
  }

  // ----- lists gathered in order -----

  /** Output j is the value at position idx[j] of ys, and idx lists the positions with a value in order. */
  ghost predicate GathersAt<T>(out: seq<T>, ys: seq<Option<T>>, idx: seq<nat>) {
    && |idx| == |out|
    && (forall j, k :: 0 <= j < k < |idx| ==> idx[j] < idx[k])
    && (forall j :: 0 <= j < |idx| ==> idx[j] < |ys| && ys[idx[j]] == Some(out[j]))
    && (forall i {:trigger i in idx} :: 0 <= i < |ys| && ys[i].Some? ==> i in idx)
  }

  /** The list holds exactly the values that are there, in their order. */
  ghost predicate Gathers<T>(out: seq<T>, ys: seq<Option<T>>) {
    exists idx :: GathersAt(out, ys, idx)
  }

  lemma GatherNothing<T>(ys: seq<Option<T>>)
    requires ys == []
    ensures Gathers([], ys)
  {
    assert GathersAt([], ys, []);
  }

  lemma GatherMore<T>(out: seq<T>, ys: seq<Option<T>>, n: nat)
    requires n < |ys| && Gathers(out, ys[..n])
    ensures Gathers(if ys[n].Some? then out + [ys[n].value] else out, ys[..n + 1])
  {
    var idx :| GathersAt(out, ys[..n], idx);
    if ys[n].Some? {
      var idx', out' := idx + [n], out + [ys[n].value];
      forall i | 0 <= i < |ys[..n + 1]| && ys[..n + 1][i].Some? ensures i in idx' {
        assert i < n ==> ys[..n][i] == ys[i] && i in idx;
        assert idx'[|idx|] == n;
      }
      assert GathersAt(out', ys[..n + 1], idx');
    } else {
      forall i | 0 <= i < |ys[..n + 1]| && ys[..n + 1][i].Some? ensures i in idx {
        assert ys[..n][i] == ys[i] && i in idx;
      }
      assert GathersAt(out, ys[..n + 1], idx);
    }
  }

  /** The same with the whole lists: one more place, with or without a value. */
  lemma GatherStep<T>(front: seq<T>, out: seq<T>, before: seq<Option<T>>, ys: seq<Option<T>>)
    requires ys != [] && ys[..|ys| - 1] == before && Gathers(front, before)
    requires out == if ys[|ys| - 1].Some? then front + [ys[|ys| - 1].value] else front
    ensures Gathers(out, ys)
  {
    GatherMore(front, ys, |ys| - 1);
    assert ys[..|ys|] == ys;
  }

  /** Where output m comes from; what stands before that place comes out before m. */
  lemma GatheredFrom<T>(out: seq<T>, ys: seq<Option<T>>, m: nat) returns (i: nat)
    requires Gathers(out, ys) && m < |out|
    ensures i < |ys| && ys[i] == Some(out[m])
    ensures forall j :: 0 <= j < |ys| && ys[j].Some? ==>
      exists p :: 0 <= p < |out| && out[p] == ys[j].value && (j < i ==> p < m)
  {
    var idx :| GathersAt(out, ys, idx);
    i := idx[m];
    forall j | 0 <= j < |ys| && ys[j].Some?
      ensures exists p :: 0 <= p < |out| && out[p] == ys[j].value && (j < i ==> p < m)
    {
      assert j in idx;
      var p :| 0 <= p < |idx| && idx[p] == j;
      assert out[p] == ys[j].value;
    }
  }

  lemma Inhabited<T>(s: seq<T>)
    ensures s != [] ==> exists x :: x in s
  {
    if s != [] {
      assert s[0] in s;
    }
  }

  /** Two increasing lists of the same positions are the same. */
  lemma {:induction false} SamePositions(a: seq<nat>, b: seq<nat>)
    requires forall j, k :: 0 <= j < k < |a| ==> a[j] < a[k]
    requires forall j, k :: 0 <= j < k < |b| ==> b[j] < b[k]
    requires SameElements(a, b)
    ensures a == b
  {
    Inhabited(a);
    Inhabited(b);
    if a == [] || b == [] {
    } else {
      var m, n := |a| - 1, |b| - 1;
      assert a[m] in b && b[n] in a;
      forall x ensures x in a[..m] <==> x in b[..n] {
        assert x in a <==> x in a[..m] || x == a[m];
        assert x in b <==> x in b[..n] || x == b[n];
      }
      SamePositions(a[..m], b[..n]);
    }
  }

  /** So the values determine the list. */
  lemma GathersUnique<T>(a: seq<T>, b: seq<T>, ys: seq<Option<T>>)
    requires Gathers(a, ys) && Gathers(b, ys)
    ensures a == b
  {
    var i :| GathersAt(a, ys, i);
    var j :| GathersAt(b, ys, j);
    SamePositions(i, j);
    assert forall k :: 0 <= k < |a| ==> Some(a[k]) == ys[i[k]] == Some(b[k]);
  }
}
