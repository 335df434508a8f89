/**
 `summaryMaps` on the published headers: signatures are shortened in place, in the snapshot
 itself, before the headers are summarised.  A report may be asked for any number of times.
 */
module Snapshot {
  import opened Polling
  import opened HeaderSummary
  import opened ManagerRound

  /** The signatures that the slicing expressions accept: none, or at least five characters. */
  predicate Shortable(s: string) {
    s == "" || |s| >= 5
  }

  /** `s[:5] + "..." + s[len(s)-5:]`, for a signature that is there. */
  function Shorten(s: string): string
    requires Shortable(s)
  {
    if s == "" then "" else s[..5] + "..." + s[|s| - 5..]
  }

  /** The first and the last five characters with an ellipsis between them; nothing stays nothing. */
  lemma ShortenKeepsEnds(s: string)
    requires Shortable(s)
    ensures s == "" ==> Shorten(s) == ""
    ensures s != "" ==> |s| >= 5 && |Shorten(s)| == 13
    ensures s != "" ==> Shorten(s)[..5] == s[..5] && Shorten(s)[5..8] == "..." && Shorten(s)[8..] == s[|s| - 5..]
  {
  }

  lemma ShortenIdempotent(s: string)
    requires Shortable(s)
    ensures Shortable(Shorten(s)) && Shorten(Shorten(s)) == Shorten(s)
  {
  }

  predicate HeaderOk(h: BlockHeader) {
    Shortable(h.lastCommitSig)
  }

  function ShortenHeader(h: BlockHeader): BlockHeader
    requires HeaderOk(h)
  {
    h.(lastCommitSig := Shorten(h.lastCommitSig))
  }

  ghost predicate AllOk(hs: seq<BlockHeader>) {
    forall i :: 0 <= i < |hs| ==> HeaderOk(hs[i])
  }

  ghost function ShortenAll(hs: seq<BlockHeader>): seq<BlockHeader>
    requires AllOk(hs)
  {
    seq(|hs|, i requires 0 <= i < |hs| => ShortenHeader(hs[i]))
  }

  lemma ShortenAllIdempotent(hs: seq<BlockHeader>)
    requires AllOk(hs)
    ensures AllOk(ShortenAll(hs)) && ShortenAll(ShortenAll(hs)) == ShortenAll(hs)
  {
    forall i | 0 <= i < |hs|
      ensures HeaderOk(ShortenAll(hs)[i]) && ShortenHeader(ShortenAll(hs)[i]) == ShortenAll(hs)[i]
    {
      ShortenIdempotent(hs[i].lastCommitSig);
    }
  }

  /** How many headers the loop handles: all of them, or those before the first bad signature. */
  function Handled(hs: seq<BlockHeader>): (n: nat)
    ensures n <= |hs| && AllOk(hs[..n]) && (n < |hs| ==> !HeaderOk(hs[n]))
  {
    if hs == [] || !HeaderOk(hs[0]) then 0 else 1 + Handled(hs[1..])
  }

  /** The stored headers after one report, whether or not it panicked. */
  ghost function Reported(hs: seq<BlockHeader>): seq<BlockHeader> {
    ShortenAll(hs[..Handled(hs)]) + hs[Handled(hs)..]
  }

  lemma ReportedAll(hs: seq<BlockHeader>)
    requires AllOk(hs)
    ensures Reported(hs) == ShortenAll(hs)
  {
    assert Handled(hs) == |hs| && hs[..|hs|] == hs;
  }

  /** A loop that stops at the first bad signature, if there is one, leaves the reported list. */
  lemma ReportedIs(hs: seq<BlockHeader>, done: nat, now: seq<BlockHeader>)
    requires done <= |hs| == |now| && AllOk(hs[..done]) && (done < |hs| ==> !HeaderOk(hs[done]))
    requires now[..done] == ShortenAll(hs[..done]) && now[done..] == hs[done..]
    ensures now == Reported(hs) && (AllOk(hs) <==> done == |hs|)
  {
    assert Handled(hs) == done;
    assert now == now[..done] + now[done..];
  }

  /**
   The loop of `summaryMaps` over the headers; `done` is how many it handled.  A signature of one to
   four characters makes the slicing panic, after the headers before it have been rewritten.
   */
  method ShortenInPlace(headers: Slice<BlockHeader>) returns (done: nat)
    requires SliceOk(headers)
    modifies headers.arr
    ensures done <= headers.len && AllOk(old(headers.arr[..done]))
    ensures done < headers.len ==> !HeaderOk(old(headers.arr[done]))
    ensures headers.arr[..done] == ShortenAll(old(headers.arr[..done]))
    ensures headers.arr[done..] == old(headers.arr[done..])
    ensures forall j :: 0 <= j < done ==> var s := old(headers.arr[j].lastCommitSig);
      && (s == "" || |s| >= 5)
      && headers.arr[j] == old(headers.arr[j]).(lastCommitSig := if s == "" then "" else s[..5] + "..." + s[|s| - 5..])
    ensures done < headers.len ==> 0 < |old(headers.arr[done].lastCommitSig)| < 5
  {
    done := 0;
    while done < headers.len
      invariant done <= headers.len
      invariant forall j :: 0 <= j < done ==>
        HeaderOk(old(headers.arr[j])) && headers.arr[j] == ShortenHeader(old(headers.arr[j]))
      invariant forall j :: done <= j < headers.arr.Length ==> headers.arr[j] == old(headers.arr[j])
    {
      var s := headers.arr[done].lastCommitSig;
      if |s| > 0 {
        if |s| < 5 {
          return;
        }
        headers.arr[done] := headers.arr[done].(lastCommitSig := s[..5] + "..." + s[|s| - 5..]);
      }
      done := done + 1;
    }
  }

  // ----- the lock -----

  /** The published headers, the shards of the summary kept for downloads, and the lock over both. */
  datatype Service = Service(headers: seq<BlockHeader>, kept: set<string>, locked: bool)

  /** What asks for the lock: a manager with a new snapshot, or one of the HTTP handlers. */
  datatype Event =
    | Publication(headers: seq<BlockHeader>)
    | Report                                  // `summaryMaps` in `networkSnapshot` or `statusSnapshot`
    | Keep(names: set<string>)                // `summaryCopy` at the end of `renderReport`
    | Download(shard: string)                 // the block-header part of `produceCSV`

  /**
   One event.  While the lock is held its caller waits, and nothing happens.  A handler that panics
   has locked and never unlocks: no `Unlock` is deferred, and the server goes on.  A report panics on
   a short signature, a download on a shard that the kept summary does not have.
   */
  ghost function Serve(v: Service, e: Event): Service {
    if v.locked then v
    else match e
      case Publication(headers) => v.(headers := headers)
      case Report => v.(headers := Reported(v.headers), locked := !AllOk(v.headers))
      case Keep(names) => v.(kept := names)
      case Download(shard) => v.(locked := shard !in v.kept)
  }

  /** `monitor` as the HTTP handlers see it: the store of the block headers and the kept summary. */
  class Reports {
    const store: Store<BlockHeader>
    var summary: map<string, ShardSummary>

    constructor (store: Store<BlockHeader>)
      requires store.Valid()
      ensures this.store == store && summary == map[]
    {
      this.store, summary := store, map[];
    }

    ghost function View(): Service
      requires store.Valid()
      reads this, store, store.snapNodes.arr
    {
      Service(Contents(store.snapNodes), summary.Keys, store.inUse)
    }

    /** The locked part of `networkSnapshot` and `statusSnapshot`, for the block headers. */
    method SummarizeSnapshot() returns (ok: bool, sum: map<string, ShardSummary>)
      requires store.Valid() && !store.inUse
      modifies store`inUse, store.snapNodes.arr
      ensures store.Valid() && (ok <==> AllOk(old(Contents(store.snapNodes))))
      ensures store.inUse <==> !ok
      ensures View() == Serve(old(View()), Report)
      ensures ok ==> Contents(store.snapNodes) == ShortenAll(old(Contents(store.snapNodes)))
      ensures ok ==> Mapped(Contents(store.snapNodes), Summarize, sum)
      ensures Contents(store.workNodes) == old(Contents(store.workNodes))
    {
      sum := map[];
      store.inUse := true;
      ghost var was := Contents(store.snapNodes);
      var done := ShortenInPlace(store.snapNodes);
      assert was[..done] == old(store.snapNodes.arr[..done]);
      ReportedIs(was, done, Contents(store.snapNodes));
      ok := done == store.snapNodes.len;
      if ok {
        sum := BlockHeaderSummary(store.snapNodes.arr[..store.snapNodes.len]);
        store.inUse := false;
        ReportedAll(was);
      }
    }

    /** The end of a round of the header manager: `blockHeaderCopy`, under the lock. */
    method PublishHeaders()
      requires store.Valid() && !store.inUse
      modifies store
      ensures store.Valid() && fresh(store.snapNodes.arr)
      ensures View() == Serve(old(View()), Publication(old(Contents(store.workNodes))))
    {
      store.Publish();
    }

    /** `summaryCopy`, under the lock. */
    method KeepSummary(sum: map<string, ShardSummary>)
      requires store.Valid() && !store.inUse
      modifies this
      ensures store.Valid() && summary == sum && View() == Serve(old(View()), Keep(sum.Keys))
    {
      summary := sum;
    }

    /** The rows of one shard; without an entry the type assertion panics between `Lock` and `Unlock`. */
    method DownloadHeaders(shard: string) returns (ok: bool, rows: seq<BlockHeader>)
      requires store.Valid() && !store.inUse
      modifies store`inUse
      ensures store.Valid() && (ok <==> shard in summary) && View() == Serve(old(View()), Download(shard))
      ensures ok ==> rows == summary[shard].records
    {
      rows, ok := [], false;
      store.inUse := true;
      if shard !in summary {
        return;
      }
      rows, ok := summary[shard].records, true;
      store.inUse := false;
    }
  }

  ghost function ServedAt(v: Service, events: seq<Event>, k: nat): Service
    requires k <= |events|
  {
    if k == 0 then v else Serve(ServedAt(v, events, k - 1), events[k - 1])
  }

  /** The headers that the last of the first k events to publish asked to publish. */
  function Latest(v: Service, events: seq<Event>, k: nat): seq<BlockHeader>
    requires k <= |events|
  {
    if k == 0 then v.headers
    else if events[k - 1].Publication? then events[k - 1].headers
    else Latest(v, events, k - 1)
  }

  /** The shards that the last of the first k events to keep a summary asked to keep. */
  function LastKept(v: Service, events: seq<Event>, k: nat): set<string>
    requires k <= |events|
  {
    if k == 0 then v.kept
    else if events[k - 1].Keep? then events[k - 1].names
    else LastKept(v, events, k - 1)
  }

  /** After a handler that panicked nothing is ever published again. */
  lemma {:induction false} LockIsHeldForEver(v: Service, events: seq<Event>, i: nat, k: nat)
    requires i <= k <= |events| && ServedAt(v, events, i).locked
    ensures ServedAt(v, events, k) == ServedAt(v, events, i)
  {
    if k == i {
    } else {
      LockIsHeldForEver(v, events, i, k - 1);
    }
  }

  ghost predicate PerhapsShortened(hs: seq<BlockHeader>, stored: seq<BlockHeader>) {
    stored == hs || (AllOk(hs) && stored == ShortenAll(hs))
  }

  /** A report on a list that may have been reported before. */
  lemma ReportAgain(hs: seq<BlockHeader>, stored: seq<BlockHeader>)
    requires PerhapsShortened(hs, stored)
    ensures AllOk(stored) <==> AllOk(hs)
    ensures AllOk(hs) ==> Reported(stored) == ShortenAll(hs)
  {
    if AllOk(hs) {
      ShortenAllIdempotent(hs);
      ReportedAll(hs);
      ReportedAll(ShortenAll(hs));
    }
  }

  /** Event i has what it needs: signatures that can be shortened, or a summary of its shard. */
  ghost predicate Harmless(v: Service, events: seq<Event>, i: nat)
    requires i < |events|
  {
    && (events[i].Report? ==>
          var hs := Latest(v, events, i);
          forall j :: 0 <= j < |hs| ==> |hs[j].lastCommitSig| == 0 || |hs[j].lastCommitSig| >= 5)
    && (events[i].Download? ==> events[i].shard in LastKept(v, events, i))
  }

  /**
   The lock is free after k events if and only if every report was due on signatures that can be
   shortened and every download was for a shard of the summary last kept; and then what is stored is
   what was last published and kept.
   */
  lemma {:induction false} LockIsFreeExactly(v: Service, events: seq<Event>, k: nat)
    requires !v.locked && k <= |events|
    ensures !ServedAt(v, events, k).locked <==> forall i :: 0 <= i < k ==> Harmless(v, events, i)
    ensures !ServedAt(v, events, k).locked ==>
      && PerhapsShortened(Latest(v, events, k), ServedAt(v, events, k).headers)
      && ServedAt(v, events, k).kept == LastKept(v, events, k)
  {
    if k == 0 {
    } else {
      LockIsFreeExactly(v, events, k - 1);
      var before := ServedAt(v, events, k - 1);
      if !before.locked {
        var hs := Latest(v, events, k - 1);
        ReportAgain(hs, before.headers);
        assert AllOk(hs) <==>
          forall j :: 0 <= j < |hs| ==> |hs[j].lastCommitSig| == 0 || |hs[j].lastCommitSig| >= 5;
        assert Serve(before, events[k - 1]).locked <==> !Harmless(v, events, k - 1);
      }
    }
  }

  /** One short signature is enough: the report locks, and the next round is never published. */
  lemma ShortSignatureLocks(h: BlockHeader, kept: set<string>, next: seq<BlockHeader>)
    requires 0 < |h.lastCommitSig| < 5
    ensures ServedAt(Service([h], kept, false), [Report, Publication(next)], 2) == Service([h], kept, true)
  {
    var v, events := Service([h], kept, false), [Report, Publication(next)];
    assert Handled([h]) == 0 && Reported([h]) == [h] && !HeaderOk([h][0]);
    assert ServedAt(v, events, 1) == Serve(ServedAt(v, events, 0), events[0]) == v.(locked := true);
  }

  /** So is one download before the first report was rendered, whatever the signatures are. */
  lemma EarlyDownloadLocks(hs: seq<BlockHeader>, shard: string, next: seq<BlockHeader>)
    ensures ServedAt(Service(hs, {}, false), [Download(shard), Publication(next)], 2) == Service(hs, {}, true)
  {
    var v, events := Service(hs, {}, false), [Download(shard), Publication(next)];
    assert ServedAt(v, events, 1) == Serve(ServedAt(v, events, 0), events[0]) == v.(locked := true);
  }

  // ----- reports between rounds -----

  /** The stored headers after n report requests. */
  ghost function AfterReports(hs: seq<BlockHeader>, n: nat): seq<BlockHeader>
    requires AllOk(hs)
    ensures AllOk(AfterReports(hs, n))
  {
    if n == 0 then hs
    else
      ShortenAllIdempotent(AfterReports(hs, n - 1));
      ShortenAll(AfterReports(hs, n - 1))
  }

  /** Any number of report requests leaves the headers as the first one left them. */
  lemma {:induction false} ReportsAreIdempotent(hs: seq<BlockHeader>, n: nat)
    requires AllOk(hs) && n > 0
    ensures AfterReports(hs, n) == ShortenAll(hs)
  {
    if n == 1 {
    } else {
      ReportsAreIdempotent(hs, n - 1);
      ShortenAllIdempotent(hs);
    }
  }

  /** And every request reports the same summary. */
  lemma ReportsAgree(hs: seq<BlockHeader>, m: nat, n: nat, a: map<string, ShardSummary>, b: map<string, ShardSummary>)
    requires AllOk(hs) && m > 0 && n > 0
    requires Mapped(AfterReports(hs, m), Summarize, a) && Mapped(AfterReports(hs, n), Summarize, b)
    ensures a == b
  {
    ReportsAreIdempotent(hs, m);
    ReportsAreIdempotent(hs, n);
    MappedUnique(ShortenAll(hs), Summarize, a, b);
  }

  lemma ShortenSnoc(hs: seq<BlockHeader>, h: BlockHeader)
    requires AllOk(hs) && HeaderOk(h)
    ensures AllOk(hs + [h]) && ShortenAll(hs + [h]) == ShortenAll(hs) + [ShortenHeader(h)]
  {
  }

  lemma {:induction false} ShorteningKeepsGroups(hs: seq<BlockHeader>, s: uint32)
    requires AllOk(hs)
    ensures AllOk(InShard(hs, s)) && InShard(ShortenAll(hs), s) == ShortenAll(InShard(hs, s))
    decreases |hs|
  {
    if hs == [] {
    } else {
      var n := |hs| - 1;
      ShorteningKeepsGroups(hs[..n], s);
      ShortenSnoc(hs[..n], hs[n]);
      assert hs == hs[..n] + [hs[n]];
      var short := ShortenAll(hs);
      assert short[..n] == ShortenAll(hs[..n]) && short[n].shard == hs[n].shard;
      if hs[n].shard == s {
        ShortenSnoc(InShard(hs[..n], s), hs[n]);
      }
    }
  }

  /** Shortening does not change what the summary of a shard says about heights and epochs. */
  lemma ShorteningKeepsSummary(hs: seq<BlockHeader>, s: uint32)
    requires AllOk(hs)
    ensures var a, b := Summarize(InShard(hs, s)), Summarize(InShard(ShortenAll(hs), s));
      && a.blockMin == b.blockMin && a.blockMax == b.blockMax && a.uniqBlocks == b.uniqBlocks
      && a.epochMin == b.epochMin && a.epochMax == b.epochMax && a.uniqEpochs == b.uniqEpochs
  {
    ShorteningKeepsGroups(hs, s);
    var g := InShard(hs, s);
    assert Numbers(ShortenAll(g)) == Numbers(g);
    assert Epochs(ShortenAll(g)) == Epochs(g);
  }
}
