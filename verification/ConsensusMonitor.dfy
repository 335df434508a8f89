/**
 `consensusMonitor`: the per-shard stall detector.  A tick either alerts on a shard and keeps what
 was recorded for it, or records the shard's height and block time.
 */
module ConsensusMonitor {
  import opened Polling
  import opened HeaderSummary

  /** `lastSuccessfulBlock`; times are nanoseconds since the epoch. */
  datatype Last = Last(height: uint64, ts: int)

  /** What the monitor keeps about one shard: its entries in `lastShardData` and `consensusStatus`. */
  datatype Cell = Cell(last: Last, ok: bool)

  type Book = map<string, Cell>

  /** The record that a summary gives rise to. */
  function Recorded(s: ShardSummary): Last {
    Last(s.blockMax, s.latest.unixTime * NANOS)
  }

  /** The time test: positive, and more whole seconds than the warning. */
  predicate Overdue(now: int, ts: int, warning: uint64) {
    var d := Sub(now, ts);
    d > 0 && WholeSeconds(d) > warning as nat
  }

  /** Whether a tick that sees s alerts on a shard with the given cell. */
  predicate Alert(cell: Option<Cell>, now: int, s: ShardSummary, warning: uint64) {
    cell.Some? && s.blockMax <= cell.value.last.height && Overdue(now, cell.value.last.ts, warning)
  }

  function Visit(cell: Option<Cell>, now: int, s: ShardSummary, warning: uint64): Cell {
    if Alert(cell, now, s, warning) then Cell(cell.value.last, false) else Cell(Recorded(s), true)
  }

  function Lookup(book: Book, shard: string): Option<Cell> {
    if shard in book then Some(book[shard]) else None
  }

  /** The book after visiting the shards of done. */
  function Visited(book: Book, now: int, sum: map<string, ShardSummary>, warning: uint64, done: set<string>): Book
    requires done <= sum.Keys
  {
    map k | k in book.Keys + done ::
      if k in done then Visit(Lookup(book, k), now, sum[k], warning) else book[k]
  }

  /** The book after a whole tick. */
  function Tick(book: Book, now: int, sum: map<string, ShardSummary>, warning: uint64): Book {
    Visited(book, now, sum, warning, sum.Keys)
  }

  lemma VisitOneMore(book: Book, now: int, sum: map<string, ShardSummary>, warning: uint64, done: set<string>,
                     k: string)
    requires done <= sum.Keys && k in sum && k !in done
    ensures var so := Visited(book, now, sum, warning, done);
      && Lookup(so, k) == Lookup(book, k)
      && Visited(book, now, sum, warning, done + {k}) == so[k := Visit(Lookup(book, k), now, sum[k], warning)]
  {
  }

  class Monitor {
    var lastShardData: map<string, Last>
    var consensusStatus: map<string, bool>

    /** The two maps always have the same shards. */
    ghost predicate Valid()
      reads this
    {
      lastShardData.Keys == consensusStatus.Keys
    }

    ghost function Contents(): Book
      reads this
      requires Valid()
    {
      map k | k in lastShardData :: Cell(lastShardData[k], consensusStatus[k])
    }

    constructor ()
      ensures Valid() && Contents() == map[]
    {
      lastShardData, consensusStatus := map[], map[];
    }

    /** The body of the loop over `blockHeaderData`. */
    method VisitShard(now: int, shard: string, summary: ShardSummary, warning: uint64) returns (stuck: bool)
      requires Valid()
      modifies this
      ensures Valid() && stuck == Alert(Lookup(old(Contents()), shard), now, summary, warning)
      ensures Contents() == old(Contents())[shard := Visit(Lookup(old(Contents()), shard), now, summary, warning)]
    {
      if shard in lastShardData {
        var lastBlock := lastShardData[shard];
        if summary.blockMax <= lastBlock.height {
          var timeSinceLastSuccess := Sub(now, lastBlock.ts);
          if timeSinceLastSuccess > 0 && WholeSeconds(timeSinceLastSuccess) > warning as nat {
            consensusStatus := consensusStatus[shard := false];
            return true;
          }
        }
      }
      lastShardData := lastShardData[shard := Recorded(summary)];
      consensusStatus := consensusStatus[shard := true];
      return false;
    }

    /** That loop, in any order. */
    method VisitShards(now: int, sum: map<string, ShardSummary>, warning: uint64) returns (alerts: set<string>)
      requires Valid()
      modifies this
      ensures Valid() && Contents() == Tick(old(Contents()), now, sum, warning)
      ensures forall k :: k in alerts <==> k in sum && Alert(Lookup(old(Contents()), k), now, sum[k], warning)
    {
      ghost var book := Contents();
      alerts := {};
      var todo := sum.Keys;
      while todo != {}
        invariant todo <= sum.Keys && Valid()
        invariant Contents() == Visited(book, now, sum, warning, sum.Keys - todo)
        invariant forall k :: k in alerts <==> k in sum && k !in todo && Alert(Lookup(book, k), now, sum[k], warning)
        decreases |todo|
      {
        var shard :| shard in todo;
        VisitOneMore(book, now, sum, warning, sum.Keys - todo, shard);
        var stuck := VisitShard(now, shard, sum[shard], warning);
        if stuck {
          alerts := alerts + {shard};
        }
        assert sum.Keys - (todo - {shard}) == (sum.Keys - todo) + {shard};
        todo := todo - {shard};
      }
      assert sum.Keys - todo == sum.Keys;
    }

    /** One tick over the headers that answered. */
    method Round(now: int, headers: seq<BlockHeader>, warning: uint64)
      returns (alerts: set<string>, sum: map<string, ShardSummary>)
      requires Valid()
      modifies this
      ensures Valid() && Mapped(headers, Summarize, sum)
      ensures Contents() == Tick(old(Contents()), now, sum, warning)
      ensures forall k :: k in alerts <==> k in sum && Alert(Lookup(old(Contents()), k), now, sum[k], warning)
    {
      sum := BlockHeaderSummary(headers);
      alerts := VisitShards(now, sum, warning);
    }
  }

  // ----- runs -----

  /** What one tick sees. */
  datatype Reading = Reading(now: int, sum: map<string, ShardSummary>)

  /** The book after the first k ticks. */
  ghost function BookAt(run: seq<Reading>, warning: uint64, k: nat): Book
    requires k <= |run|
  {
    if k == 0 then map[] else Tick(BookAt(run, warning, k - 1), run[k - 1].now, run[k - 1].sum, warning)
  }

  /** The same, for one shard only. */
  ghost function CellAt(run: seq<Reading>, warning: uint64, shard: string, k: nat): Option<Cell>
    requires k <= |run|
  {
    if k == 0 then None
    else if shard in run[k - 1].sum then
      Some(Visit(CellAt(run, warning, shard, k - 1), run[k - 1].now, run[k - 1].sum[shard], warning))
    else CellAt(run, warning, shard, k - 1)
  }

  /** Shards do not influence one another, and the book holds exactly the shards summarised so far. */
  lemma {:induction false} ShardsAreIndependent(run: seq<Reading>, warning: uint64, shard: string, k: nat)
    requires k <= |run|
    ensures Lookup(BookAt(run, warning, k), shard) == CellAt(run, warning, shard, k)
    ensures shard in BookAt(run, warning, k) <==> exists i :: 0 <= i < k && shard in run[i].sum
  {
    if k == 0 {
    } else {
      ShardsAreIndependent(run, warning, shard, k - 1);
    }
  }

  ghost predicate AlertsAt(run: seq<Reading>, warning: uint64, shard: string, k: nat)
    requires k < |run|
  {
    shard in run[k].sum && Alert(CellAt(run, warning, shard, k), run[k].now, run[k].sum[shard], warning)
  }

  ghost predicate ClockMonotone(run: seq<Reading>) {
    forall i, j :: 0 <= i <= j < |run| ==> run[i].now <= run[j].now
  }

  /** In ticks a to b - 1 the shard is never reported above the given height. */
  ghost predicate NeverAbove(run: seq<Reading>, shard: string, a: nat, b: nat, height: uint64)
    requires a <= b <= |run|
  {
    forall k :: a <= k < b && shard in run[k].sum ==> run[k].sum[shard].blockMax <= height
  }

  lemma OverdueStays(now: int, later: int, ts: int, warning: uint64)
    requires now <= later && Overdue(now, ts, warning)
    ensures Overdue(later, ts, warning)
  {
  }

  /** A tick that reports more than the recorded height does not alert and sets the status true. */
  lemma RiseClears(run: seq<Reading>, warning: uint64, shard: string, k: nat)
    requires k < |run| && shard in run[k].sum && CellAt(run, warning, shard, k).Some?
    requires run[k].sum[shard].blockMax > CellAt(run, warning, shard, k).value.last.height
    ensures !AlertsAt(run, warning, shard, k)
    ensures CellAt(run, warning, shard, k + 1) == Some(Cell(Recorded(run[k].sum[shard]), true))
  {
  }

  /**
   Persistence and recovery: after an alert at tick i, as long as no tick reported more than the
   recorded height, the record and the false status stay; the next tick that summarises the shard
   alerts if and only if it does not report more either, and otherwise records and clears.
   */
  lemma {:induction false} AlertPersists(run: seq<Reading>, warning: uint64, shard: string, i: nat, k: nat)
    requires ClockMonotone(run) && i < k < |run| && AlertsAt(run, warning, shard, i)
    requires NeverAbove(run, shard, i + 1, k, CellAt(run, warning, shard, i).value.last.height)
    ensures CellAt(run, warning, shard, k) == Some(Cell(CellAt(run, warning, shard, i).value.last, false))
    ensures AlertsAt(run, warning, shard, k) <==>
      shard in run[k].sum && run[k].sum[shard].blockMax <= CellAt(run, warning, shard, i).value.last.height
    ensures shard in run[k].sum && !AlertsAt(run, warning, shard, k) ==>
      CellAt(run, warning, shard, k + 1) == Some(Cell(Recorded(run[k].sum[shard]), true))
  {
    if k - 1 == i {
    } else {
      AlertPersists(run, warning, shard, i, k - 1);
    }
    if shard in run[k].sum && run[k].sum[shard].blockMax > CellAt(run, warning, shard, i).value.last.height {
      RiseClears(run, warning, shard, k);
    } else {
      OverdueStays(run[i].now, run[k].now, CellAt(run, warning, shard, i).value.last.ts, warning);
    }
  }

  /** After an alert, all ticks that summarise the shard alert exactly as long as none reports a rise. */
  lemma {:induction false} AlertsUntilRise(run: seq<Reading>, warning: uint64, shard: string, i: nat, k: nat)
    requires ClockMonotone(run) && i < k <= |run| && AlertsAt(run, warning, shard, i)
    ensures (forall j :: i < j < k && shard in run[j].sum ==> AlertsAt(run, warning, shard, j)) <==>
      NeverAbove(run, shard, i + 1, k, CellAt(run, warning, shard, i).value.last.height)
  {
    if k == i + 1 {
    } else {
      AlertsUntilRise(run, warning, shard, i, k - 1);
      if NeverAbove(run, shard, i + 1, k - 1, CellAt(run, warning, shard, i).value.last.height) {
        AlertPersists(run, warning, shard, i, k - 1);
      }
    }
  }

  /** The status of a shard is false exactly when the last tick that summarised it alerted. */
  lemma {:induction false} StatusMeansLastTick(run: seq<Reading>, warning: uint64, shard: string, k: nat, end: nat)
    requires k < end <= |run| && shard in run[k].sum
    requires forall j :: k < j < end ==> shard !in run[j].sum
    ensures CellAt(run, warning, shard, end).Some?
    ensures CellAt(run, warning, shard, end).value.ok <==> !AlertsAt(run, warning, shard, k)
    decreases end
  {
    if end - 1 == k {
    } else {
      StatusMeansLastTick(run, warning, shard, k, end - 1);
    }
  }

  /** The time test against the exact age of the block; a warning no duration can reach never fires. */
  lemma OverdueIsAge(now: int, ts: int, warning: uint64)
    ensures Overdue(now, ts, warning) <==>
      now > ts && (now - ts) / NANOS > warning as int && warning as int < MAX_DURATION_SECONDS
  {
  }

  // ----- what is recorded, and when a tick alerts -----

  /** Of the first k ticks, j is the last that summarised the shard without alerting on it. */
  ghost predicate LastRecord(run: seq<Reading>, warning: uint64, shard: string, j: nat, k: nat) {
    && j < k <= |run| && shard in run[j].sum && !AlertsAt(run, warning, shard, j)
    && forall m :: j < m < k && shard in run[m].sum ==> AlertsAt(run, warning, shard, m)
  }

  /** The record is the height and the block time, in nanoseconds, of that tick's summary. */
  lemma {:induction false} RecordIsLast(run: seq<Reading>, warning: uint64, shard: string, k: nat)
    requires k <= |run|
    ensures CellAt(run, warning, shard, k).Some? <==> exists j: nat :: LastRecord(run, warning, shard, j, k)
    ensures forall j: nat :: LastRecord(run, warning, shard, j, k) ==>
      CellAt(run, warning, shard, k).value.last
      == Last(run[j].sum[shard].blockMax, run[j].sum[shard].latest.unixTime * 1_000_000_000)
  {
    if k == 0 {
    } else {
      var n := k - 1;
      RecordIsLast(run, warning, shard, n);
      forall j: nat | LastRecord(run, warning, shard, j, k) && j != n ensures LastRecord(run, warning, shard, j, n) {
      }
      if shard in run[n].sum && !AlertsAt(run, warning, shard, n) {
        assert LastRecord(run, warning, shard, n, k);
      } else if j: nat :| LastRecord(run, warning, shard, j, n) {
        assert LastRecord(run, warning, shard, j, k);
      }
    }
  }

  /** The age of a block of the given unix time, in nanoseconds. */
  function Age(now: int, unixTime: int): int {
    now - unixTime * 1_000_000_000
  }

  /** It is more than `warning` whole seconds; a warning that no Go duration exceeds is never reached. */
  ghost predicate TooOld(now: int, unixTime: int, warning: uint64) {
    && Age(now, unixTime) > 0 && Age(now, unixTime) / 1_000_000_000 > warning as int
    && warning as int < MAX_DURATION_SECONDS
  }

  /**
   The stall detector without its state: tick k alerts on a shard if and only if it summarises the
   shard no higher than the last tick that did so without alerting, and the newest block that tick
   saw is now too old.
   */
  lemma AlertIsStall(run: seq<Reading>, warning: uint64, shard: string, k: nat)
    requires k < |run|
    ensures AlertsAt(run, warning, shard, k) <==>
      && shard in run[k].sum
      && exists j: nat ::
           && LastRecord(run, warning, shard, j, k)
           && run[k].sum[shard].blockMax <= run[j].sum[shard].blockMax
           && TooOld(run[k].now, run[j].sum[shard].latest.unixTime, warning)
  {
    RecordIsLast(run, warning, shard, k);
    forall j: nat | LastRecord(run, warning, shard, j, k)
      ensures Overdue(run[k].now, CellAt(run, warning, shard, k).value.last.ts, warning)
         <==> TooOld(run[k].now, run[j].sum[shard].latest.unixTime, warning)
    {
      OverdueIsAge(run[k].now, run[j].sum[shard].latest.unixTime * 1_000_000_000, warning);
    }
  }

  // ----- when the recorded height falls -----

  ghost function HeightAt(run: seq<Reading>, warning: uint64, shard: string, k: nat): uint64
    requires k <= |run| && CellAt(run, warning, shard, k).Some?
  {
    CellAt(run, warning, shard, k).value.last.height
  }

  /** Tick k reports the shard below its record, and the recorded block is not yet overdue. */
  ghost predicate LowerInTime(run: seq<Reading>, warning: uint64, shard: string, k: nat)
    requires k < |run|
  {
    && CellAt(run, warning, shard, k).Some?
    && shard in run[k].sum && run[k].sum[shard].blockMax < HeightAt(run, warning, shard, k)
    && !Overdue(run[k].now, CellAt(run, warning, shard, k).value.last.ts, warning)
  }

  /** A shard once summarised keeps a record, and its height falls exactly at such a tick. */
  lemma HeightFallsExactly(run: seq<Reading>, warning: uint64, shard: string, k: nat)
    requires k < |run| && CellAt(run, warning, shard, k).Some?
    ensures CellAt(run, warning, shard, k + 1).Some?
    ensures HeightAt(run, warning, shard, k + 1) < HeightAt(run, warning, shard, k) <==>
      LowerInTime(run, warning, shard, k)
  {
  }

  /** The recorded heights of the first ticks never fall. */
  ghost predicate Monotone(run: seq<Reading>, warning: uint64, shard: string, end: nat)
    requires end <= |run|
  {
    forall i, j :: 0 <= i <= j <= end && CellAt(run, warning, shard, i).Some? ==>
      CellAt(run, warning, shard, j).Some? && HeightAt(run, warning, shard, i) <= HeightAt(run, warning, shard, j)
  }

  /** Over any run, the recorded height never falls if and only if no tick reports a lower one in time. */
  lemma {:induction false} MonotoneExactly(run: seq<Reading>, warning: uint64, shard: string, end: nat)
    requires end <= |run|
    ensures Monotone(run, warning, shard, end) <==>
      forall k :: 0 <= k < end ==> !LowerInTime(run, warning, shard, k)
  {
    if end == 0 {
    } else {
      MonotoneExactly(run, warning, shard, end - 1);
      if CellAt(run, warning, shard, end - 1).Some? {
        HeightFallsExactly(run, warning, shard, end - 1);
      }
    }
  }

  /** It does fall: two summaries at the time of the first one's block. */
  lemma HeightCanFall(warning: uint64, shard: string, a: ShardSummary, b: ShardSummary) returns (run: seq<Reading>)
    requires b.blockMax < a.blockMax
    ensures |run| == 2 && LowerInTime(run, warning, shard, 1) && HeightAt(run, warning, shard, 2) == b.blockMax
  {
    var now := Recorded(a).ts;
    run := [Reading(now, map[shard := a]), Reading(now, map[shard := b])];
    assert CellAt(run, warning, shard, 1) == Some(Cell(Recorded(a), true));
  }

  // ----- detection of a stall -----

  /** From tick i on, the shard's summaries always show a newest block of the given height and time. */
  ghost predicate BlockStays(run: seq<Reading>, shard: string, i: nat, height: uint64, unixTime: int)
    requires i < |run|
  {
    shard in run[i].sum &&
    forall k :: i <= k < |run| && shard in run[k].sum ==>
      run[k].sum[shard].blockMax == height && run[k].sum[shard].latest.unixTime == unixTime
  }

  /** While the newest block stays the same, what tick i recorded stays recorded. */
  lemma {:induction false} RecordStays(run: seq<Reading>, warning: uint64, shard: string, i: nat,
                                       height: uint64, unixTime: int, k: nat)
    requires i < k <= |run| && BlockStays(run, shard, i, height, unixTime) && !AlertsAt(run, warning, shard, i)
    ensures CellAt(run, warning, shard, k).Some?
    ensures CellAt(run, warning, shard, k).value.last == Last(height, unixTime * 1_000_000_000)
  {
    if k - 1 == i {
    } else {
      RecordStays(run, warning, shard, i, height, unixTime, k - 1);
    }
  }

  /**
   Detection: when the newest block stays the one that tick i recorded, a later tick alerts exactly
   if it summarises the shard and the block is too old.
   */
  lemma DetectionExact(run: seq<Reading>, warning: uint64, shard: string, i: nat, height: uint64, unixTime: int, k: nat)
    requires i < k < |run| && BlockStays(run, shard, i, height, unixTime) && !AlertsAt(run, warning, shard, i)
    ensures AlertsAt(run, warning, shard, k) <==> shard in run[k].sum && TooOld(run[k].now, unixTime, warning)
  {
    RecordStays(run, warning, shard, i, height, unixTime, k);
    OverdueIsAge(run[k].now, unixTime * 1_000_000_000, warning);
  }

  /**
   Latency: if ticks are at most `gap` apart and tick i saw the block younger than warning + 1
   seconds, the first alert comes when the block is at least warning + 1 seconds old, and less
   than `gap` after that moment.
   */
  lemma {:induction false} FirstAlertInTime(run: seq<Reading>, warning: uint64, shard: string, i: nat,
                                            height: uint64, unixTime: int, j: nat, gap: int)
    returns (k: nat)
    requires i < j < |run| && BlockStays(run, shard, i, height, unixTime) && !AlertsAt(run, warning, shard, i)
    requires warning as int < MAX_DURATION_SECONDS
    requires forall m :: i <= m < |run| ==> shard in run[m].sum
    requires forall m :: i < m < |run| ==> run[m].now - run[m - 1].now <= gap
    requires Age(run[i].now, unixTime) < (warning as int + 1) * NANOS <= Age(run[j].now, unixTime)
    ensures i < k <= j && AlertsAt(run, warning, shard, k)
    ensures forall m :: i <= m < k ==> !AlertsAt(run, warning, shard, m)
    ensures (warning as int + 1) * NANOS <= Age(run[k].now, unixTime) < (warning as int + 1) * NANOS + gap
  {
    var limit := (warning as int + 1) * NANOS;
    k := i + 1;
    while Age(run[k].now, unixTime) < limit
      invariant i < k <= j
      invariant forall m :: i <= m < k ==> Age(run[m].now, unixTime) < limit
      decreases j - k
    {
      k := k + 1;
    }
    assert Age(run[k - 1].now, unixTime) < limit;
    DetectionExact(run, warning, shard, i, height, unixTime, k);
    forall m | i < m < k ensures !AlertsAt(run, warning, shard, m) {
      DetectionExact(run, warning, shard, i, height, unixTime, m);
    }
  }
}
