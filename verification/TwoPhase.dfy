/**
 `cxMonitor` and `crossLinkMonitor`: one goroutine drives two lanes of its engine.  Lane 0 asks who
 leads, lane 1 asks the leaders; both channels are replaced after the second phase.  The order in
 which that goroutine acts restricts the runs of the engine.
 */
module TwoPhase {
  import opened Polling
  import opened WorkerPool
  import opened WorkerPoolInvariant
  import opened WorkerPoolTheorems
  import opened EndToEnd
  import LeaderQuery

  /** Whether the program order of a two-phase monitor allows the label. */
  predicate Allowed(s: State, l: Label) {
    |s.lanes| == 2 &&
    match l
    case Tick(r, _) => if r == 0 then s.lanes[1].phase.Idle? else s.lanes[0].phase.Drained?
    case Abandon(r) => r == 1
    case Replace(r) => if r == 0 then s.lanes[1].phase.Drained? else s.lanes[0].phase.Idle?
    case _ => true
  }

  /** A run that keeps to that order. */
  predicate Follows(s: State, ls: seq<Label>)
    decreases |ls|
  {
    ls == [] || (Enabled(s, ls[0]) && Allowed(s, ls[0]) && Follows(Apply(s, ls[0]), ls[1..]))
  }

  lemma {:induction false} FollowsRuns(s: State, ls: seq<Label>)
    requires Follows(s, ls)
    ensures CanRun(s, ls) && Abandon(0) !in ls
    decreases |ls|
  {
    if ls == [] {
    } else {
      FollowsRuns(Apply(s, ls[0]), ls[1..]);
      assert ls == [ls[0]] + ls[1..];
    }
  }

  /** Lane 1 is at work only while lane 0 has been read and not replaced, or both are being replaced. */
  ghost predicate InOrder(s: State) {
    && |s.lanes| == 2
    && (s.lanes[1].phase.Idle? || s.lanes[0].phase.Drained? || (s.lanes[0].phase.Idle? && s.lanes[1].phase.Drained?))
  }

  /** A second phase is still to come for the tick under way. */
  function Due(s: State): nat
    requires |s.lanes| == 2
  {
    if !s.lanes[0].phase.Idle? && s.lanes[1].phase.Idle? then 1 else 0
  }

  function TicksOf(ls: seq<Label>, r: nat): nat {
    if ls == [] then 0 else (if ls[0].Tick? && ls[0].rpc == r then 1 else 0) + TicksOf(ls[1..], r)
  }

  lemma StepKeepsOrder(s: State, l: Label)
    requires InOrder(s) && Enabled(s, l) && Allowed(s, l)
    ensures InOrder(Apply(s, l))
    ensures Due(Apply(s, l)) + TicksOf([l], 1) == Due(s) + TicksOf([l], 0)
    ensures Ticks([l]) == TicksOf([l], 0) + TicksOf([l], 1)
  {
  }

  /** Over any such run: the order is kept, and every first phase has one second phase, done or due. */
  lemma {:induction false} RunKeepsOrder(s: State, ls: seq<Label>)
    requires InOrder(s) && Follows(s, ls) && CanRun(s, ls)
    ensures InOrder(After(s, ls))
    ensures Due(After(s, ls)) + TicksOf(ls, 1) == Due(s) + TicksOf(ls, 0)
    ensures Ticks(ls) == TicksOf(ls, 0) + TicksOf(ls, 1)
    decreases |ls|
  {
    if ls == [] {
    } else {
      StepKeepsOrder(s, ls[0]);
      RunKeepsOrder(Apply(s, ls[0]), ls[1..]);
    }
  }

  lemma Larger(a: nat, b: nat, budget: nat)
    requires a <= b
    ensures a * budget <= b * budget
  {
  }

  /** A run with t ticks of the monitor has at most 2 * t rounds' worth of steps. */
  lemma TicksAreFinite(nodes: set<Address>, poolSize: nat, ls: seq<Label>)
    requires Follows(Initial(nodes, 2, poolSize), ls)
    ensures |ls| <= 2 * TicksOf(ls, 0) * RoundBudget(nodes)
  {
    var s0 := Initial(nodes, 2, poolSize);
    FollowsRuns(s0, ls);
    RunKeepsOrder(s0, ls);
    RoundsAreFinite(nodes, 2, poolSize, ls);
    Larger(Ticks(ls), 2 * TicksOf(ls, 0), RoundBudget(nodes));
  }

  /** The second phase of a parked monitor can start with the leaders that the first one found. */
  lemma PhaseTwoStarts(nodes: set<Address>, poolSize: nat, ls: seq<Label>, s: State,
                       decode: string -> LeaderQuery.Metadata, shards: set<int>, asked: seq<Address>)
    requires CanRun(Initial(nodes, 2, poolSize), ls) && s == After(Initial(nodes, 2, poolSize), ls)
    requires Abandon(0) !in ls && s.fault == NoFault
    requires |s.lanes| == 2 && s.lanes[0].phase.Drained? && s.lanes[1].phase.Idle?
    requires LeaderQuery.AsksLeadersOnce(asked, Heard(s.lanes[0].chan), decode, shards)
    ensures Enabled(s, Tick(1, Elements(asked)))
  {
    assert Reachable(nodes, 2, poolSize, s);
    var k := |s.lanes[0].retired|;
    DrainingLanesComplete(nodes, 2, poolSize, ls, 0, k);
    PhaseTwoIsLegal(nodes, 2, poolSize, s, 0, k, 1, decode, shards, asked);
  }

  /**
   A two-phase monitor never gets stuck: until both its channels are replaced, an action in its own
   order is possible.  If that action starts the second phase, it asks exactly the leaders found.
   */
  lemma NeverStuck(nodes: set<Address>, poolSize: nat, ls: seq<Label>, s: State,
                   decode: string -> LeaderQuery.Metadata, shards: set<int>, asked: seq<Address>)
    returns (l: Label)
    requires Follows(Initial(nodes, 2, poolSize), ls) && CanRun(Initial(nodes, 2, poolSize), ls)
    requires s == After(Initial(nodes, 2, poolSize), ls) && poolSize > 0 && s.fault == NoFault && !AllIdle(s)
    requires |s.lanes| == 2 && (s.lanes[0].phase.Drained? ==>
      LeaderQuery.AsksLeadersOnce(asked, Heard(s.lanes[0].chan), decode, shards))
    ensures Enabled(s, l) && Allowed(s, l) && (l.Tick? ==> l == Tick(1, Elements(asked)))
  {
    var s0 := Initial(nodes, 2, poolSize);
    assert Reachable(nodes, 2, poolSize, s);
    ReachableInv(nodes, 2, poolSize, s);
    FollowsRuns(s0, ls);
    RunKeepsOrder(s0, ls);
    if !AllParked(s) {
      l := Progress(s);
    } else if s.lanes[0].phase.Idle? {
      l := Replace(1);
    } else if s.lanes[1].phase.Drained? {
      l := Replace(0);
    } else {
      PhaseTwoStarts(nodes, poolSize, ls, s, decode, shards, asked);
      l := Tick(1, Elements(asked));
    }
  }
}
