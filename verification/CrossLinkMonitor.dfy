/**
 `crossLinkMonitor`: `lastProcessed` keeps, per shard, the highest cross link seen and when it was
 first seen.  Only the first successful reply of a tick is processed.
 */
module CrossLinkMonitor {
  import opened Polling

  datatype CrossLink = CrossLink(
    shard: int, number: int, hash: string, signature: string, bitmap: string, epoch: int)

  /** `processedCrossLink`. */
  datatype Entry = Entry(number: int, link: CrossLink, ts: int)

  type Table = map<int, Entry>

  /** No entry is from the future: the clock is monotone. */
  ghost predicate NotAhead(table: Table, now: int) {
    forall s :: s in table ==> table[s].ts <= now
  }

  predicate Stale(table: Table, link: CrossLink) {
    link.shard in table && link.number <= table[link.shard].number
  }

  /** The effect of one cross link. */
  function Handle(table: Table, now: int, link: CrossLink): Table {
    if Stale(table, link) then table else table[link.shard := Entry(link.number, link, now)]
  }

  /** Whether one cross link raises an alert. */
  ghost predicate Alerts(table: Table, now: int, link: CrossLink, warning: uint64)
    requires NotAhead(table, now)
  {
    Stale(table, link) && WholeSeconds(Sub(now, table[link.shard].ts)) >= warning as nat
  }

  // ----- history -----

  /** One processed cross link and the tick that processed it. */
  datatype Event = Event(now: int, link: CrossLink)

  /** The table after a history of events. */
  ghost function TableOf(events: seq<Event>): Table {
    if events == [] then map[]
    else Handle(TableOf(events[..|events| - 1]), events[|events| - 1].now, events[|events| - 1].link)
  }

  ghost function Tag(now: int, links: seq<CrossLink>): (events: seq<Event>)
    ensures |events| == |links| && forall i :: 0 <= i < |links| ==> events[i] == Event(now, links[i])
  {
    seq(|links|, i requires 0 <= i < |links| => Event(now, links[i]))
  }

  ghost predicate Chronological(events: seq<Event>) {
    forall i, j :: 0 <= i <= j < |events| ==> events[i].now <= events[j].now
  }

  /** Event i is the first of its shard to reach the shard's highest block number. */
  ghost predicate FirstMax(events: seq<Event>, shard: int, i: nat) {
    && i < |events| && events[i].link.shard == shard
    && (forall j :: 0 <= j < |events| && events[j].link.shard == shard ==>
          events[j].link.number <= events[i].link.number)
    && (forall j :: 0 <= j < i && events[j].link.shard == shard ==> events[j].link.number < events[i].link.number)
  }

  /**
   The table is the running maximum of the whole history: a shard has an entry exactly when it was
   ever processed, and the entry is the first event that reached the maximum, with its time.
   */
  lemma {:induction false} RunningMaximum(events: seq<Event>, shard: int) returns (i: nat)
    ensures shard in TableOf(events) <==> exists j :: 0 <= j < |events| && events[j].link.shard == shard
    ensures shard in TableOf(events) ==>
      && FirstMax(events, shard, i)
      && TableOf(events)[shard] == Entry(events[i].link.number, events[i].link, events[i].now)
  {
    i := 0;
    if events == [] {
    } else {
      var n := |events| - 1;
      i := RunningMaximum(events[..n], shard);
      var e := events[n];
      var before := TableOf(events[..n]);
      if e.link.shard == shard && !Stale(before, e.link) {
        i := n;
      }
    }
  }

  lemma {:induction false} NeverAhead(events: seq<Event>, now: int)
    requires forall i :: 0 <= i < |events| ==> events[i].now <= now
    ensures NotAhead(TableOf(events), now)
  {
    if events == [] {
    } else {
      NeverAhead(events[..|events| - 1], now);
    }
  }

  lemma FirstMaxUnique(events: seq<Event>, shard: int, i: nat, j: nat)
    requires FirstMax(events, shard, i) && FirstMax(events, shard, j)
    ensures i == j
  {
  }

  /** The time test against the exact age; a warning no duration can reach never fires. */
  lemma SecondsExact(now: int, ts: int, warning: uint64)
    requires ts <= now
    ensures WholeSeconds(Sub(now, ts)) >= warning as nat <==>
      (now - ts) / NANOS >= warning as int && warning as int <= MAX_DURATION_SECONDS
  {
  }

  /** Event k is not above the maximum of its shard's earlier events, which is `warning` seconds old. */
  ghost predicate Overtaken(events: seq<Event>, k: nat, warning: uint64)
    requires k < |events|
  {
    exists i: nat ::
      && FirstMax(events[..k], events[k].link.shard, i)
      && events[k].link.number <= events[i].link.number
      && (events[k].now - events[i].now) / NANOS >= warning as int && warning as int <= MAX_DURATION_SECONDS
  }

  lemma OvertakenEarlier(front: seq<Event>, events: seq<Event>, k: nat, warning: uint64)
    requires k < |front| && front <= events
    ensures Overtaken(front, k, warning) <==> Overtaken(events, k, warning)
  {
    assert front[..k] == events[..k];
  }

  /**
   The k-th event alerts exactly when its number is not above the maximum of the shard's earlier
   events and that maximum was first seen at least `warning` whole seconds before (a warning beyond
   the longest Go duration is never reached).
   */
  lemma AlertExactly(events: seq<Event>, k: nat, warning: uint64)
    requires Chronological(events) && k < |events|
    ensures NotAhead(TableOf(events[..k]), events[k].now)
    ensures Alerts(TableOf(events[..k]), events[k].now, events[k].link, warning) <==>
      Overtaken(events, k, warning)
  {
    var shard := events[k].link.shard;
    NeverAhead(events[..k], events[k].now);
    var m := RunningMaximum(events[..k], shard);
    if shard in TableOf(events[..k]) {
      SecondsExact(events[k].now, events[m].now, warning);
      assert events[..k][m] == events[m];
      forall i: nat | FirstMax(events[..k], shard, i) ensures i == m {
        FirstMaxUnique(events[..k], shard, i, m);
      }
      assert FirstMax(events[..k], shard, m);
    } else {
      forall i: nat ensures !FirstMax(events[..k], shard, i) {
        assert i < k ==> events[..k][i] == events[i];
      }
    }
  }

  /** The recorded number of a shard never falls, and its time changes only when it rises. */
  lemma {:induction false} NumbersOnlyRise(events: seq<Event>, k: nat, shard: int)
    requires k <= |events| && shard in TableOf(events[..k])
    ensures shard in TableOf(events) && TableOf(events[..k])[shard].number <= TableOf(events)[shard].number
    ensures TableOf(events[..k])[shard].number == TableOf(events)[shard].number ==>
      TableOf(events[..k])[shard] == TableOf(events)[shard]
    decreases |events|
  {
    if k < |events| {
      var n := |events| - 1;
      assert events[..n][..k] == events[..k];
      NumbersOnlyRise(events[..n], k, shard);
    } else {
      assert events[..k] == events;
    }
  }

  // ----- the monitor -----

  /** The links of the first successful reply, or none. */
  function FirstAnswer(replies: seq<Reply>, decode: string -> seq<CrossLink>): seq<CrossLink> {
    if replies == [] then []
    else if replies[0].outcome.Body? then decode(replies[0].outcome.bytes)
    else FirstAnswer(replies[1..], decode)
  }

  /** Reply i is the first that succeeded. */
  ghost predicate FirstSuccess(replies: seq<Reply>, i: nat) {
    i < |replies| && replies[i].outcome.Body? && forall j :: 0 <= j < i ==> replies[j].outcome.Oops?
  }

  /** All links of that reply, or none if no reply succeeded. */
  lemma {:induction false} FirstAnswerIs(replies: seq<Reply>, decode: string -> seq<CrossLink>)
    ensures forall i: nat :: FirstSuccess(replies, i) ==>
      FirstAnswer(replies, decode) == decode(replies[i].outcome.bytes)
    ensures (forall i :: 0 <= i < |replies| ==> replies[i].outcome.Oops?) ==> FirstAnswer(replies, decode) == []
  {
    if replies == [] {
    } else if replies[0].outcome.Body? {
      forall i: nat | FirstSuccess(replies, i) ensures i == 0 {
      }
    } else {
      FirstAnswerIs(replies[1..], decode);
      forall i: nat | FirstSuccess(replies, i) ensures i > 0 && FirstSuccess(replies[1..], i - 1) {
      }
    }
  }

  /** The links that raise an alert, in order. */
  ghost function AlertLog(events: seq<Event>, now: int, links: seq<CrossLink>, warning: uint64): seq<CrossLink>
    requires forall i :: 0 <= i < |events| ==> events[i].now <= now
  {
    if links == [] then []
    else
      var n := |links| - 1;
      var before := events + Tag(now, links[..n]);
      NeverAhead(before, now);
      AlertLog(events, now, links[..n], warning) +
      if Alerts(TableOf(before), now, links[n], warning) then [links[n]] else []
  }

  lemma HistoryStep(start: seq<Event>, now: int, links: seq<CrossLink>, i: nat)
    requires i < |links|
    ensures var so := start + Tag(now, links[..i]);
      && start + Tag(now, links[..i + 1]) == so + [Event(now, links[i])]
      && TableOf(so + [Event(now, links[i])]) == Handle(TableOf(so), now, links[i])
  {
  }

  lemma AlertLogStep(events: seq<Event>, now: int, links: seq<CrossLink>, i: nat, warning: uint64)
    requires i < |links| && forall k :: 0 <= k < |events| ==> events[k].now <= now
    ensures NotAhead(TableOf(events + Tag(now, links[..i])), now)
    ensures AlertLog(events, now, links[..i + 1], warning)
         == AlertLog(events, now, links[..i], warning)
            + if Alerts(TableOf(events + Tag(now, links[..i])), now, links[i], warning) then [links[i]] else []
  {
    NeverAhead(events + Tag(now, links[..i]), now);
    assert links[..i + 1][..i] == links[..i];
  }

  /** The links of a round, without those that do not meet the alert condition in the whole history. */
  ghost function AlertSlots(events: seq<Event>, now: int, links: seq<CrossLink>, warning: uint64)
    : seq<Option<CrossLink>>
  {
    seq(|links|, i requires 0 <= i < |links| =>
      if Overtaken(events + Tag(now, links), |events| + i, warning) then Some(links[i]) else None)
  }

  lemma AlertSlotsFront(events: seq<Event>, now: int, links: seq<CrossLink>, n: nat, warning: uint64)
    requires n <= |links|
    ensures AlertSlots(events, now, links, warning)[..n] == AlertSlots(events, now, links[..n], warning)
  {
    var ys, zs := AlertSlots(events, now, links, warning), AlertSlots(events, now, links[..n], warning);
    forall i | 0 <= i < n ensures ys[i] == zs[i] {
      OvertakenEarlier(events + Tag(now, links[..n]), events + Tag(now, links), |events| + i, warning);
    }
  }

  lemma {:induction false} AlertOfLink(events: seq<Event>, now: int, links: seq<CrossLink>, n: nat, warning: uint64)
    requires Chronological(events) && n < |links| && forall i :: 0 <= i < |events| ==> events[i].now <= now
    ensures NotAhead(TableOf(events + Tag(now, links[..n])), now)
    ensures Alerts(TableOf(events + Tag(now, links[..n])), now, links[n], warning) <==>
      Overtaken(events + Tag(now, links), |events| + n, warning)
  {
    var all := events + Tag(now, links);
    assert all[..|events| + n] == events + Tag(now, links[..n]);
    assert all[|events| + n] == Event(now, links[n]);
    AlertExactly(all, |events| + n, warning);
  }

  lemma {:induction false} AlertLogEnds(events: seq<Event>, now: int, links: seq<CrossLink>, warning: uint64)
    requires Chronological(events) && links != [] && forall i :: 0 <= i < |events| ==> events[i].now <= now
    ensures var n := |links| - 1; var before := AlertLog(events, now, links[..n], warning);
      var slot := AlertSlots(events, now, links, warning)[n];
      AlertLog(events, now, links, warning) == if slot.Some? then before + [slot.value] else before
  {
    var n := |links| - 1;
    AlertLogStep(events, now, links, n, warning);
    assert links[..n + 1] == links;
    AlertOfLink(events, now, links, n, warning);
  }

  /**
   The alerts of a round are exactly the links, in order, that are not above the maximum of the
   shard's earlier events, of the history and of the round itself, when that maximum was first seen
   at least `warning` whole seconds before.
   */
  lemma {:induction false} AlertLogIsListing(events: seq<Event>, now: int, links: seq<CrossLink>, warning: uint64)
    requires Chronological(events) && forall i :: 0 <= i < |events| ==> events[i].now <= now
    ensures Gathers(AlertLog(events, now, links, warning), AlertSlots(events, now, links, warning))
  {
    var ys := AlertSlots(events, now, links, warning);
    if links == [] {
      GatherNothing(ys);
    } else {
      var n := |links| - 1;
      AlertLogIsListing(events, now, links[..n], warning);
      AlertSlotsFront(events, now, links, n, warning);
      AlertLogEnds(events, now, links, warning);
      GatherStep(AlertLog(events, now, links[..n], warning), AlertLog(events, now, links, warning),
                 AlertSlots(events, now, links[..n], warning), ys);
    }
  }

  class Monitor {
    var lastProcessed: Table
    var lastCrossLinks: seq<CrossLink>
    ghost var history: seq<Event>

    ghost predicate Valid()
      reads this
    {
      lastProcessed == TableOf(history) && Chronological(history)
    }

    ghost predicate ClockReached(now: int)
      reads this
    {
      forall i :: 0 <= i < |history| ==> history[i].now <= now
    }

    constructor ()
      ensures Valid() && history == [] && lastCrossLinks == []
    {
      lastProcessed, lastCrossLinks, history := map[], [], [];
    }

    /** The body of the loop over one reply's cross links. */
    method ProcessLink(now: int, result: CrossLink, warning: uint64) returns (alert: bool)
      requires NotAhead(lastProcessed, now)
      modifies this`lastProcessed
      ensures lastProcessed == Handle(old(lastProcessed), now, result)
      ensures alert == Alerts(old(lastProcessed), now, result, warning)
    {
      alert := false;
      if result.shard in lastProcessed {
        var entry := lastProcessed[result.shard];
        if result.number <= entry.number {
          if WholeSeconds(Sub(now, entry.ts)) >= warning as nat {
            alert := true;
          }
          return;
        }
      }
      lastProcessed := lastProcessed[result.shard := Entry(result.number, result, now)];
    }

    method ProcessLinks(now: int, links: seq<CrossLink>, warning: uint64) returns (alerts: seq<CrossLink>)
      requires Valid() && ClockReached(now)
      modifies this`lastProcessed, this`history
      ensures Valid() && ClockReached(now)
      ensures history == old(history) + Tag(now, links)
      ensures alerts == AlertLog(old(history), now, links, warning)
    {
      alerts := [];
      assert history + Tag(now, links[..0]) == history;
      for i := 0 to |links|
        invariant history == old(history)
        invariant lastProcessed == TableOf(history + Tag(now, links[..i]))
        invariant alerts == AlertLog(history, now, links[..i], warning)
      {
        AlertLogStep(history, now, links, i, warning);
        HistoryStep(history, now, links, i);
        var alert := ProcessLink(now, links[i], warning);
        if alert {
          alerts := alerts + [links[i]];
        }
      }
      assert links[..|links|] == links;
      history := history + Tag(now, links);
    }

    /** The second phase of a tick, on the replies in the order in which the channel yields them. */
    method Round(now: int, replies: seq<Reply>, decode: string -> seq<CrossLink>, warning: uint64)
      returns (alerts: seq<CrossLink>)
      requires Valid() && ClockReached(now)
      modifies this
      ensures Valid() && ClockReached(now)
      ensures forall i: nat :: FirstSuccess(replies, i) ==> lastCrossLinks == decode(replies[i].outcome.bytes)
      ensures (forall i :: 0 <= i < |replies| ==> replies[i].outcome.Oops?) ==> lastCrossLinks == []
      ensures lastCrossLinks == FirstAnswer(replies, decode)
      ensures history == old(history) + Tag(now, lastCrossLinks)
      ensures alerts == AlertLog(old(history), now, lastCrossLinks, warning)
    {
      var crossLinks: seq<CrossLink> := [];
      alerts := [];
      var i := 0;
      while i < |replies|
        invariant 0 <= i <= |replies| && Valid() && ClockReached(now)
        invariant FirstAnswer(replies, decode) == FirstAnswer(replies[i..], decode)
        invariant crossLinks == [] && alerts == [] && history == old(history)
      {
        if replies[i].outcome.Body? {
          crossLinks := decode(replies[i].outcome.bytes);
          alerts := ProcessLinks(now, crossLinks, warning);
          break;
        }
        assert replies[i..][1..] == replies[i + 1..];
        i := i + 1;
      }
      if i == |replies| {
        assert history == old(history) + Tag(now, []);
      }
      lastCrossLinks := crossLinks;
      FirstAnswerIs(replies, decode);
    }
  }
}
