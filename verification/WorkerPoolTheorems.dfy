/**
 What holds over every run of the polling engine: channel life cycle, barrier exactness, the
 WaitGroup counter, freedom from deadlock, and termination of rounds.
 */
module WorkerPoolTheorems {
  import opened Polling
  import opened WorkerPool
  import opened WorkerPoolInvariant

  // ----- runs -----

  lemma StepKeepsShape(s: State, l: Label)
    requires Enabled(s, l)
    ensures var s' := Apply(s, l);
      s'.nodes == s.nodes && |s'.lanes| == |s.lanes| && |s'.workers| == |s.workers|
  {
  }

  lemma {:induction false} RunKeepsShape(s: State, ls: seq<Label>)
    requires CanRun(s, ls)
    ensures var s' := After(s, ls);
      s'.nodes == s.nodes && |s'.lanes| == |s.lanes| && |s'.workers| == |s.workers|
    decreases |ls|
  {
    if ls == [] {
    } else {
      StepKeepsShape(s, ls[0]);
      RunKeepsShape(Apply(s, ls[0]), ls[1..]);
    }
  }

  /** A state of some run of the engine that `update` starts with the given sizes. */
  ghost predicate Reachable(nodes: set<Address>, rpcs: nat, poolSize: nat, s: State) {
    exists ls :: CanRun(Initial(nodes, rpcs, poolSize), ls) && s == After(Initial(nodes, rpcs, poolSize), ls)
  }

  lemma ReachableInv(nodes: set<Address>, rpcs: nat, poolSize: nat, s: State)
    requires Reachable(nodes, rpcs, poolSize, s)
    ensures Inv(s) && s.nodes == nodes && |s.lanes| == rpcs && |s.workers| == poolSize
  {
    var s0 := Initial(nodes, rpcs, poolSize);
    var ls :| CanRun(s0, ls) && s == After(s0, ls);
    InitialInv(nodes, rpcs, poolSize);
    RunKeepsInv(s0, ls);
    RunKeepsShape(s0, ls);
  }

  lemma PrependLabel(s: State, l: Label, ls: seq<Label>)
    requires Enabled(s, l) && CanRun(Apply(s, l), ls)
    ensures CanRun(s, [l] + ls) && After(s, [l] + ls) == After(Apply(s, l), ls)
  {
  }

  // ----- channel life cycle -----

  /**
   No run sends on a closed reply channel or closes one twice; a channel is closed exactly from
   its manager's `close` on; and every reply lands in the channel of its own RPC and round.
   */
  lemma ChannelLifeCycle(nodes: set<Address>, rpcs: nat, poolSize: nat, s: State, r: nat)
    requires Reachable(nodes, rpcs, poolSize, s) && r < rpcs
    ensures r < |s.lanes| && s.fault != SendOnClosed && s.fault != CloseOfClosed
    ensures s.lanes[r].chan.closed <==> s.lanes[r].phase.Draining? || s.lanes[r].phase.Drained?
    ensures forall k :: 0 <= k < |s.lanes[r].retired| ==> s.lanes[r].retired[k].closed
    ensures forall k :: 0 <= k <= |s.lanes[r].retired| ==> Tagged(ChanAt(s.lanes[r], k).sent, r, k)
  {
    ReachableInv(nodes, rpcs, poolSize, s);
    assert Good(s, r);
    forall k | 0 <= k <= |s.lanes[r].retired| ensures Tagged(ChanAt(s.lanes[r], k).sent, r, k) {
      assert k < |s.lanes[r].retired| ==> RetiredOk(s.nodes, s.lanes[r].retired[k], r, k);
    }
  }

  // ----- the barrier -----

  /** The channel holds exactly one reply from each of its targets and none from anyone else. */
  ghost predicate OneReplyEach(c: Chan) {
    Distinct(Addresses(c.sent)) && Elements(Addresses(c.sent)) == c.targets
  }

  /** The manager received every reply of the channel, unless it broke out of the loop over it. */
  ghost predicate AllReceived(c: Chan) {
    !c.abandoned ==> c.received == |c.sent|
  }

  /**
   When `Wait` has returned, the current channel holds exactly one reply per target; so did every
   former channel, and the manager received them all unless it broke out of its loop.
   */
  lemma BarrierExact(nodes: set<Address>, rpcs: nat, poolSize: nat, s: State, r: nat)
    requires Reachable(nodes, rpcs, poolSize, s) && r < rpcs
    ensures r < |s.lanes|
    ensures s.lanes[r].phase.Released? || s.lanes[r].phase.Draining? || s.lanes[r].phase.Drained? ==>
      OneReplyEach(s.lanes[r].chan)
    ensures s.lanes[r].phase.Drained? ==> AllReceived(s.lanes[r].chan)
    ensures forall k :: 0 <= k < |s.lanes[r].retired| ==>
      var c := s.lanes[r].retired[k]; OneReplyEach(c) && AllReceived(c)
  {
    ReachableInv(nodes, rpcs, poolSize, s);
    assert Good(s, r);
    var lane := s.lanes[r];
    if lane.phase.Released? || lane.phase.Draining? || lane.phase.Drained? {
      QuietLane(s, r);
      assert lane.chan.targets - lane.pending == lane.chan.targets;
      BagOfSetIsListing(Addresses(lane.chan.sent), lane.chan.targets);
    }
    forall k | 0 <= k < |lane.retired|
      ensures var c := lane.retired[k]; OneReplyEach(c) && AllReceived(c)
    {
      assert RetiredOk(s.nodes, lane.retired[k], r, k);
      BagOfSetIsListing(Addresses(lane.retired[k].sent), lane.retired[k].targets);
    }
  }

  /** The targets of the lane's rounds so far, the one under way included. */
  ghost function Asked(lane: Lane): seq<set<Address>> {
    var former := seq(|lane.retired|, k requires 0 <= k < |lane.retired| => lane.retired[k].targets);
    if lane.phase.Idle? then former else former + [lane.chan.targets]
  }

  function Named(l: Label, r: nat): seq<set<Address>> {
    if l.Tick? && l.rpc == r then [l.targets] else []
  }

  /** The targets that the ticks of the lane name. */
  function TickTargets(ls: seq<Label>, r: nat): seq<set<Address>> {
    if ls == [] then [] else Named(ls[0], r) + TickTargets(ls[1..], r)
  }

  lemma MoveAsks(nodes: set<Address>, lane: Lane, l: Label)
    requires OwnLaneOnly(l) && Ready(nodes, lane, l)
    ensures Asked(Moved(lane, l)) == if l.Tick? then Asked(lane) + [l.targets] else Asked(lane)
  {
  }

  lemma StepAsks(s: State, l: Label, r: nat)
    requires Enabled(s, l) && r < |s.lanes|
    ensures Asked(Apply(s, l).lanes[r]) == Asked(s.lanes[r]) + Named(l, r)
  {
    if OwnLaneOnly(l) {
      MoveAsks(s.nodes, s.lanes[l.rpc], l);
    } else {
      assert Asked(Apply(s, l).lanes[r]) == Asked(s.lanes[r]);
    }
  }

  lemma Regroup<T>(a: seq<T>, b: seq<T>, c: seq<T>)
    ensures (a + b) + c == a + (b + c)
  {
  }

  /** Round k of a lane asks exactly the targets that its k-th tick named. */
  lemma {:induction false} RoundsAskTheirTargets(s: State, ls: seq<Label>, r: nat)
    requires CanRun(s, ls) && r < |s.lanes|
    ensures r < |After(s, ls).lanes| && Asked(After(s, ls).lanes[r]) == Asked(s.lanes[r]) + TickTargets(ls, r)
    decreases |ls|
  {
    if ls == [] {
    } else {
      StepAsks(s, ls[0], r);
      StepKeepsShape(s, ls[0]);
      RoundsAskTheirTargets(Apply(s, ls[0]), ls[1..], r);
      Regroup(Asked(s.lanes[r]), Named(ls[0], r), TickTargets(ls[1..], r));
    }
  }

  /** No channel of the lane, present or former, was abandoned. */
  ghost predicate NoneAbandoned(s: State, r: nat) {
    r < |s.lanes| && forall k :: 0 <= k <= |s.lanes[r].retired| ==> !ChanAt(s.lanes[r], k).abandoned
  }

  lemma StepAbandonsNone(s: State, l: Label, r: nat)
    requires Enabled(s, l) && l != Abandon(r) && NoneAbandoned(s, r)
    ensures NoneAbandoned(Apply(s, l), r)
  {
    var s' := Apply(s, l);
    forall k | 0 <= k <= |s'.lanes[r].retired| ensures !ChanAt(s'.lanes[r], k).abandoned {
      assert k <= |s.lanes[r].retired| ==> !ChanAt(s.lanes[r], k).abandoned;
    }
  }

  lemma {:induction false} RunAbandonsNone(s: State, ls: seq<Label>, r: nat)
    requires CanRun(s, ls) && NoneAbandoned(s, r) && Abandon(r) !in ls
    ensures NoneAbandoned(After(s, ls), r)
    decreases |ls|
  {
    if ls == [] {
    } else {
      StepAbandonsNone(s, ls[0], r);
      RunAbandonsNone(Apply(s, ls[0]), ls[1..], r);
    }
  }

  /** A lane whose loop is never left early receives all replies of all its rounds. */
  lemma DrainingLanesDrain(nodes: set<Address>, rpcs: nat, poolSize: nat, ls: seq<Label>, r: nat)
    requires CanRun(Initial(nodes, rpcs, poolSize), ls) && r < rpcs && Abandon(r) !in ls
    ensures var s := After(Initial(nodes, rpcs, poolSize), ls);
      && NoneAbandoned(s, r)
      && (forall k :: 0 <= k < |s.lanes[r].retired| ==> s.lanes[r].retired[k].received == |s.lanes[r].retired[k].sent|)
      && (s.lanes[r].phase.Drained? ==> s.lanes[r].chan.received == |s.lanes[r].chan.sent|)
  {
    var s0 := Initial(nodes, rpcs, poolSize);
    var s := After(s0, ls);
    RunAbandonsNone(s0, ls, r);
    BarrierExact(nodes, rpcs, poolSize, s, r);
    forall k | 0 <= k < |s.lanes[r].retired|
      ensures s.lanes[r].retired[k].received == |s.lanes[r].retired[k].sent|
    {
      assert !ChanAt(s.lanes[r], k).abandoned && AllReceived(s.lanes[r].retired[k]);
    }
    assert !ChanAt(s.lanes[r], |s.lanes[r].retired|).abandoned;
  }

  /** A loop over the channel that was left early was left on a successful reply. */
  ghost predicate LeftOnSuccess(c: Chan) {
    c.abandoned ==> c.closed && 0 < c.received <= |c.sent| && c.sent[c.received - 1].outcome.Body?
  }

  ghost predicate BreaksOk(lane: Lane) {
    && (lane.chan.abandoned ==> lane.phase.Drained?)
    && forall k :: 0 <= k <= |lane.retired| ==> LeftOnSuccess(ChanAt(lane, k))
  }

  lemma MoveKeepsBreaks(nodes: set<Address>, lane: Lane, l: Label)
    requires BreaksOk(lane) && OwnLaneOnly(l) && Ready(nodes, lane, l)
    requires lane.phase.Draining? ==> lane.chan.closed
    ensures BreaksOk(Moved(lane, l))
  {
    var lane' := Moved(lane, l);
    assert LeftOnSuccess(ChanAt(lane, |lane.retired|));
    forall k | 0 <= k <= |lane'.retired| ensures LeftOnSuccess(ChanAt(lane', k)) {
      assert k < |lane.retired| ==> LeftOnSuccess(ChanAt(lane, k));
    }
  }

  lemma DeliveryKeepsBreaks(lane: Lane, x: Answer)
    requires BreaksOk(lane) && !lane.chan.closed
    ensures BreaksOk(lane.(chan := lane.chan.(sent := lane.chan.sent + [x])))
  {
    var lane' := lane.(chan := lane.chan.(sent := lane.chan.sent + [x]));
    assert LeftOnSuccess(ChanAt(lane, |lane.retired|));
    forall k | 0 <= k <= |lane'.retired| ensures LeftOnSuccess(ChanAt(lane', k)) {
      assert k < |lane.retired| ==> LeftOnSuccess(ChanAt(lane, k));
    }
  }

  lemma OtherStepsKeepBreaks(s: State, l: Label, r: nat)
    requires Enabled(s, l) && r < |s.lanes| && BreaksOk(s.lanes[r]) && !OwnLaneOnly(l) && !l.Deliver?
    requires s.lanes[r].phase.Sending? ==> !s.lanes[r].chan.closed
    ensures BreaksOk(Apply(s, l).lanes[r])
  {
    var lane' := Apply(s, l).lanes[r];
    forall k | 0 <= k <= |lane'.retired| ensures LeftOnSuccess(ChanAt(lane', k)) {
      assert LeftOnSuccess(ChanAt(s.lanes[r], k));
    }
  }

  lemma StepKeepsBreaks(s: State, l: Label, r: nat)
    requires Inv(s) && Enabled(s, l) && r < |s.lanes| && BreaksOk(s.lanes[r])
    ensures BreaksOk(Apply(s, l).lanes[r])
  {
    assert Good(s, r);
    if OwnLaneOnly(l) {
      if l.rpc == r {
        MoveKeepsBreaks(s.nodes, s.lanes[r], l);
      }
    } else if l.Deliver? {
      HeldChannelAccepts(s, l.worker);
      if s.workers[l.worker].job.rpc == r {
        var x := Apply(s, l).lanes[r].chan.sent[|s.lanes[r].chan.sent|];
        DeliveryKeepsBreaks(s.lanes[r], x);
      }
    } else {
      OtherStepsKeepBreaks(s, l, r);
    }
  }

  lemma {:induction false} RunKeepsBreaks(s: State, ls: seq<Label>, r: nat)
    requires Inv(s) && CanRun(s, ls) && r < |s.lanes| && BreaksOk(s.lanes[r])
    ensures r < |After(s, ls).lanes| && BreaksOk(After(s, ls).lanes[r])
    decreases |ls|
  {
    if ls == [] {
    } else {
      StepKeepsBreaks(s, ls[0], r);
      StepKeepsInv(s, ls[0]);
      StepKeepsShape(s, ls[0]);
      RunKeepsBreaks(Apply(s, ls[0]), ls[1..], r);
    }
  }

  /** In every run, a manager that did not receive all replies had received a success last. */
  lemma BreaksOnSuccess(nodes: set<Address>, rpcs: nat, poolSize: nat, s: State, r: nat)
    requires Reachable(nodes, rpcs, poolSize, s) && r < rpcs
    ensures r < |s.lanes| && BreaksOk(s.lanes[r])
  {
    var s0 := Initial(nodes, rpcs, poolSize);
    var ls :| CanRun(s0, ls) && s == After(s0, ls);
    InitialInv(nodes, rpcs, poolSize);
    RunKeepsBreaks(s0, ls, r);
  }

  /** What a label does to the lane's WaitGroup: `Add(1)` by its manager, `Done` by a worker on its job. */
  function Delta(s: State, l: Label, r: nat): int {
    if l == Add(r) then 1
    else if l.Done? && l.worker < |s.workers| && s.workers[l.worker] == Finishing(r) then -1
    else 0
  }

  function Balance(s: State, ls: seq<Label>, r: nat): int
    requires CanRun(s, ls)
    decreases |ls|
  {
    if ls == [] then 0 else Delta(s, ls[0], r) + Balance(Apply(s, ls[0]), ls[1..], r)
  }

  lemma StepBalances(s: State, l: Label, r: nat)
    requires Enabled(s, l) && r < |s.lanes|
    ensures Apply(s, l).lanes[r].counter == s.lanes[r].counter + Delta(s, l, r)
  {
  }

  /** Over any run the counter is the `Add(1)` calls of the lane's manager minus the `Done` calls for it. */
  lemma {:induction false} CounterIsBalance(s: State, ls: seq<Label>, r: nat)
    requires CanRun(s, ls) && r < |s.lanes|
    ensures r < |After(s, ls).lanes| && After(s, ls).lanes[r].counter == s.lanes[r].counter + Balance(s, ls, r)
    decreases |ls|
  {
    if ls == [] {
    } else {
      StepBalances(s, ls[0], r);
      StepKeepsShape(s, ls[0]);
      CounterIsBalance(Apply(s, ls[0]), ls[1..], r);
    }
  }

  /** The counter is adds minus dones and at least -1, and -1 only between `jobs <-` and `Add(1)`. */
  lemma CounterExact(nodes: set<Address>, rpcs: nat, poolSize: nat, s: State, r: nat)
    requires Reachable(nodes, rpcs, poolSize, s) && r < rpcs
    ensures r < |s.lanes| && s.lanes[r].counter == s.lanes[r].adds - s.lanes[r].dones >= -1
    ensures s.lanes[r].counter == -1 ==> s.lanes[r].phase.Adding? && s.fault == NegativeCounter
    ensures s.fault == NegativeCounter ==> exists q :: 0 <= q < |s.lanes| && s.lanes[q].counter == -1
  {
    ReachableInv(nodes, rpcs, poolSize, s);
    forall q: nat | q < |s.lanes| ensures s.lanes[q].counter >= -1 {
      assert Good(s, q);
    }
    assert Good(s, r);
  }

  /**
   A `Done` panics exactly when its manager stands between `jobs <-` and `Add(1)` and the calling
   worker's job is the only one of the lane that is not finished.
   */
  lemma DonePanicsExactly(nodes: set<Address>, rpcs: nat, poolSize: nat, s: State, w: nat)
    requires Reachable(nodes, rpcs, poolSize, s) && Enabled(s, Done(w))
    ensures Apply(s, Done(w)).fault == NegativeCounter <==>
      var r := s.workers[w].rpc;
      s.lanes[r].phase.Adding? && |Open(s, r)| == 0 && Finishers(s.workers, r) == 1
  {
    ReachableInv(nodes, rpcs, poolSize, s);
    assert Good(s, s.workers[w].rpc);
    InFlightMember(s.workers, w, s.workers[w].rpc);
  }

  /** No other label ever causes a fault. */
  lemma OnlyDonePanics(nodes: set<Address>, rpcs: nat, poolSize: nat, s: State, l: Label)
    requires Reachable(nodes, rpcs, poolSize, s) && Enabled(s, l)
    ensures Apply(s, l).fault != NoFault ==> l.Done?
  {
    ReachableInv(nodes, rpcs, poolSize, s);
    if l.Deliver? {
      HeldChannelAccepts(s, l.worker);
    }
    if l.Close? {
      assert Good(s, l.rpc);
    }
  }

  /** Once a worker holds its reply and the `Add` is still to come, it can finish first. */
  lemma GapPanicsHolding(s5: State, a: Address) returns (s: State, ls: seq<Label>)
    requires s5.fault == NoFault && |s5.lanes| > 0 && |s5.workers| > 0 && |s5.nodes| > 0
    requires s5.workers[0] == Holding(Work(a, 0, 0), Body(""), 0)
    requires var lane := s5.lanes[0];
      lane.counter == 0 && lane.retired == [] && !lane.chan.closed && lane.chan.sent == []
    ensures CanRun(s5, ls) && s == After(s5, ls) && s.fault == NegativeCounter
  {
    var s6 := Apply(s5, Deliver(0));
    s := Apply(s6, Done(0));
    PrependLabel(s6, Done(0), []);
    PrependLabel(s5, Deliver(0), [Done(0)]);
    ls := [Deliver(0)] + [Done(0)];
  }

  /** The same as soon as it has its answer. */
  lemma GapPanicsAnswered(s4: State, a: Address) returns (s: State, ls: seq<Label>)
    requires s4.fault == NoFault && |s4.lanes| > 0 && |s4.workers| > 0 && |s4.nodes| > 0
    requires s4.workers[0] == Answered(Work(a, 0, 0), Body(""))
    requires var lane := s4.lanes[0];
      lane.counter == 0 && lane.retired == [] && !lane.chan.closed && lane.chan.sent == []
    ensures CanRun(s4, ls) && s == After(s4, ls) && s.fault == NegativeCounter
  {
    s, ls := GapPanicsHolding(Apply(s4, Lookup(0)), a);
    PrependLabel(s4, Lookup(0), ls);
    ls := [Lookup(0)] + ls;
  }

  /** The same as soon as the job is queued. */
  lemma GapPanicsQueued(s2: State, a: Address) returns (s: State, ls: seq<Label>)
    requires s2.fault == NoFault && |s2.lanes| > 0 && |s2.workers| > 0 && |s2.nodes| > 0
    requires s2.workers[0].Free? && s2.jobs == [Work(a, 0, 0)]
    requires var lane := s2.lanes[0];
      lane.counter == 0 && lane.retired == [] && !lane.chan.closed && lane.chan.sent == []
    ensures CanRun(s2, ls) && s == After(s2, ls) && s.fault == NegativeCounter
  {
    var s3 := Apply(s2, Take(0));
    var s4 := Apply(s3, Respond(0, Body("")));
    s, ls := GapPanicsAnswered(s4, a);
    PrependLabel(s3, Respond(0, Body("")), ls);
    ls := [Respond(0, Body(""))] + ls;
    PrependLabel(s2, Take(0), ls);
    ls := [Take(0)] + ls;
  }

  /** The panic is real: any engine with a node, a lane and a worker has a run that ends in it. */
  lemma GapPanics(nodes: set<Address>, rpcs: nat, poolSize: nat, a: Address)
    returns (s: State)
    requires a in nodes && rpcs > 0 && poolSize > 0
    ensures Reachable(nodes, rpcs, poolSize, s) && s.fault == NegativeCounter
  {
    var s0 := Initial(nodes, rpcs, poolSize);
    var s1 := Apply(s0, Tick(0, nodes));
    var s2 := Apply(s1, Send(0, a));
    var ls;
    s, ls := GapPanicsQueued(s2, a);
    PrependLabel(s1, Send(0, a), ls);
    PrependLabel(s0, Tick(0, nodes), [Send(0, a)] + ls);
  }

  /** Every `Send` is followed at once by its `Add`, as if the two were one step. */
  predicate Paired(ls: seq<Label>)
    decreases |ls|
  {
    ls == [] ||
    (if ls[0].Send? then |ls| > 1 && ls[1] == Add(ls[0].rpc) && Paired(ls[2..])
     else !ls[0].Add? && Paired(ls[1..]))
  }

  ghost predicate NoGap(s: State) {
    forall r :: 0 <= r < |s.lanes| ==> !s.lanes[r].phase.Adding?
  }

  lemma NoGapNoFault(s: State)
    requires Inv(s) && NoGap(s)
    ensures s.fault == NoFault
  {
    forall r: nat | r < |s.lanes| ensures s.lanes[r].counter >= 0 {
      assert Good(s, r);
    }
  }

  /** Only a `Send` opens the gap. */
  lemma StepKeepsNoGap(s: State, l: Label)
    requires Inv(s) && NoGap(s) && Enabled(s, l) && !l.Send?
    ensures Inv(Apply(s, l)) && NoGap(Apply(s, l))
  {
    StepKeepsInv(s, l);
  }

  /** And the `Add` of its lane closes it. */
  lemma PairKeepsNoGap(s: State, l: Label)
    requires Inv(s) && NoGap(s) && Enabled(s, l) && l.Send? && Enabled(Apply(s, l), Add(l.rpc))
    ensures var s' := Apply(Apply(s, l), Add(l.rpc)); Inv(s') && NoGap(s')
  {
    StepKeepsInv(s, l);
    StepKeepsInv(Apply(s, l), Add(l.rpc));
  }

  /** With send-and-add as one step no run panics, so no counter is ever negative. */
  lemma {:induction false} PairedNeverPanics(s: State, ls: seq<Label>)
    requires Inv(s) && NoGap(s) && CanRun(s, ls) && Paired(ls)
    ensures After(s, ls).fault == NoFault && NoGap(After(s, ls))
    decreases |ls|
  {
    if ls == [] {
      NoGapNoFault(s);
    } else if ls[0].Send? {
      assert ls[1..][0] == ls[1] && ls[1..][1..] == ls[2..];
      PairKeepsNoGap(s, ls[0]);
      PairedNeverPanics(Apply(Apply(s, ls[0]), ls[1]), ls[2..]);
    } else {
      StepKeepsNoGap(s, ls[0]);
      PairedNeverPanics(Apply(s, ls[0]), ls[1..]);
    }
  }

  /** The same for whole runs of the engine, and for the counters of all lanes. */
  lemma PairedRunsNeverPanic(nodes: set<Address>, rpcs: nat, poolSize: nat, ls: seq<Label>)
    requires CanRun(Initial(nodes, rpcs, poolSize), ls) && Paired(ls)
    ensures var s := After(Initial(nodes, rpcs, poolSize), ls);
      s.fault == NoFault && forall r :: 0 <= r < |s.lanes| ==> s.lanes[r].counter >= 0
  {
    var s0 := Initial(nodes, rpcs, poolSize);
    InitialInv(nodes, rpcs, poolSize);
    PairedNeverPanics(s0, ls);
    RunKeepsInv(s0, ls);
  }

  // ----- deadlock freedom -----

  /** One lane's queued, in-flight and buffered replies fit its channel, so a reply never blocks. */
  lemma CapacitySuffices(nodes: set<Address>, rpcs: nat, poolSize: nat, s: State)
    requires Reachable(nodes, rpcs, poolSize, s)
    ensures |s.lanes| == rpcs && |s.workers| == poolSize
    ensures forall r :: 0 <= r < rpcs ==>
      |Queued(s.jobs, r)| + |InFlight(s.workers, r)| + |s.lanes[r].chan.sent| <= |nodes|
    ensures s.fault == NoFault ==>
      forall w :: 0 <= w < poolSize && s.workers[w].Holding? ==> Enabled(s, Deliver(w))
  {
    ReachableInv(nodes, rpcs, poolSize, s);
    forall r | 0 <= r < rpcs
      ensures |Queued(s.jobs, r)| + |InFlight(s.workers, r)| + |s.lanes[r].chan.sent| <= |nodes|
    {
      IssuedBound(s, r);
    }
    forall w | 0 <= w < poolSize && s.workers[w].Holding? && s.fault == NoFault ensures Enabled(s, Deliver(w)) {
      HeldChannelAccepts(s, w);
    }
  }

  lemma {:induction false} AllFree(ws: seq<Worker>, r: nat)
    requires forall w :: 0 <= w < |ws| ==> ws[w].Free?
    ensures InFlight(ws, r) == multiset{} && Finishers(ws, r) == 0
  {
    if ws == [] {
    } else {
      AllFree(ws[1..], r);
    }
  }

  /** The label a busy worker can perform, whatever it is doing. */
  lemma WorkerCanMove(s: State, w: nat) returns (l: Label)
    requires Inv(s) && s.fault == NoFault && w < |s.workers| && !s.workers[w].Free?
    ensures Enabled(s, l) && !l.Tick? && !l.Replace? && !l.Abandon?
  {
    assert WorkerOk(s.lanes, s.workers[w]);
    match s.workers[w]
    case Requesting(_) => l := Respond(w, Body(""));
    case Answered(_, _) => l := Lookup(w);
    case Holding(_, _, _) =>
      HeldChannelAccepts(s, w);
      l := Deliver(w);
    case Finishing(_) => l := Done(w);
  }

  /** The round is not over, and its manager has not yet read the replies to the end. */
  predicate Busy(lane: Lane) {
    !lane.phase.Idle? && !lane.phase.Drained?
  }

  /** Every manager waits for its ticker, or stands before the replacement of its channel. */
  ghost predicate AllParked(s: State) {
    forall r :: 0 <= r < |s.lanes| ==> !Busy(s.lanes[r])
  }

  ghost predicate AllIdle(s: State) {
    forall r :: 0 <= r < |s.lanes| ==> s.lanes[r].phase.Idle?
  }

  /** The label a manager in mid-round can perform when no job is open. */
  lemma ManagerCanMove(s: State, r: nat) returns (l: Label)
    requires Inv(s) && s.fault == NoFault && r < |s.lanes| && Busy(s.lanes[r])
    requires s.jobs == [] && InFlight(s.workers, r) == multiset{} && Finishers(s.workers, r) == 0
    ensures Enabled(s, l) && !l.Tick? && !l.Replace? && !l.Abandon?
  {
    assert Good(s, r);
    var lane := s.lanes[r];
    match lane.phase
    case Sending =>
      if lane.pending == {} {
        l := EnterWait(r);
      } else {
        var a :| a in lane.pending;
        assert a in s.nodes;
        l := Send(r, a);
      }
    case Adding => l := Add(r);
    case Waiting =>
      assert Open(s, r) == multiset{};
      l := WaitReturns(r);
    case Released => l := Close(r);
    case Draining => l := if lane.chan.received < |lane.chan.sent| then Receive(r) else EndDrain(r);
  }

  /**
   Up to the end of its replies no round needs anything but the engine: while some manager is
   busy, some goroutine can move without a tick and without the replacement of a channel.
   */
  lemma Progress(s: State) returns (l: Label)
    requires Inv(s) && s.fault == NoFault && |s.workers| > 0 && !AllParked(s)
    ensures Enabled(s, l) && !l.Tick? && !l.Replace? && !l.Abandon?
  {
    if w :| 0 <= w < |s.workers| && !s.workers[w].Free? {
      l := WorkerCanMove(s, w);
    } else if s.jobs != [] {
      l := Take(0);
    } else {
      var r :| 0 <= r < |s.lanes| && Busy(s.lanes[r]);
      AllFree(s.workers, r);
      l := ManagerCanMove(s, r);
    }
  }

  lemma ParkedLaneIsQuiet(s: State, r: nat)
    requires Inv(s) && r < |s.lanes| && !Busy(s.lanes[r])
    ensures forall i :: 0 <= i < |s.jobs| ==> s.jobs[i].rpc != r
    ensures forall w :: 0 <= w < |s.workers| ==> Owed(s.workers[w], r) == multiset{} && s.workers[w] != Finishing(r)
  {
    assert Good(s, r);
    QuietLane(s, r);
  }

  /** With every manager parked the queue is empty and every worker is free. */
  lemma ParkedIsQuiet(s: State)
    requires Inv(s) && AllParked(s)
    ensures s.jobs == [] && forall w :: 0 <= w < |s.workers| ==> s.workers[w].Free?
  {
    if s.jobs != [] {
      assert JobOk(s.lanes, s.jobs[0]);
      ParkedLaneIsQuiet(s, s.jobs[0].rpc);
    }
    forall w | 0 <= w < |s.workers| ensures s.workers[w].Free? {
      assert WorkerOk(s.lanes, s.workers[w]);
      if !s.workers[w].Free? {
        ParkedLaneIsQuiet(s, if s.workers[w].Finishing? then s.workers[w].rpc else s.workers[w].job.rpc);
      }
    }
  }

  /**
   A move of the program other than a new tick.  `manager` and `consensusMonitor` replace a channel
   only after they have taken and released the lock.
   */
  predicate Moves(s: State, l: Label, lockFree: bool) {
    Enabled(s, l) && !l.Tick? && (l.Replace? ==> lockFree)
  }

  ghost predicate Stalled(s: State, lockFree: bool) {
    forall l :: !Moves(s, l, lockFree)
  }

  // ----- termination of rounds -----

  function PhaseCost(p: Phase): nat {
    match p
    case Idle => 0 case Drained => 1 case Draining => 2 case Released => 3
    case Waiting => 4 case Sending => 5 case Adding => 6
  }

  ghost function LaneCost(lane: Lane): int {
    9 * |lane.pending| + PhaseCost(lane.phase) + |lane.chan.sent| - lane.chan.received
  }

  function WorkerCost(w: Worker): nat {
    match w
    case Free => 0 case Finishing(_) => 2 case Holding(_, _, _) => 4
    case Answered(_, _) => 5 case Requesting(_) => 6
  }

  ghost function LanesCost(lanes: seq<Lane>): int {
    if lanes == [] then 0 else LaneCost(lanes[0]) + LanesCost(lanes[1..])
  }

  ghost function WorkersCost(ws: seq<Worker>): nat {
    if ws == [] then 0 else WorkerCost(ws[0]) + WorkersCost(ws[1..])
  }

  /** The work that the rounds under way still need. */
  ghost function Measure(s: State): int {
    7 * |s.jobs| + LanesCost(s.lanes) + WorkersCost(s.workers)
  }

  lemma {:induction false} LanesCostUpdate(lanes: seq<Lane>, r: nat, lane: Lane)
    requires r < |lanes|
    ensures LanesCost(lanes[r := lane]) == LanesCost(lanes) - LaneCost(lanes[r]) + LaneCost(lane)
  {
    if r == 0 {
      assert lanes[r := lane][1..] == lanes[1..];
    } else {
      assert lanes[r := lane][1..] == lanes[1..][r - 1 := lane];
      LanesCostUpdate(lanes[1..], r - 1, lane);
    }
  }

  lemma {:induction false} WorkersCostUpdate(ws: seq<Worker>, w: nat, worker: Worker)
    requires w < |ws|
    ensures WorkersCost(ws[w := worker]) == WorkersCost(ws) - WorkerCost(ws[w]) + WorkerCost(worker)
  {
    if w == 0 {
      assert ws[w := worker][1..] == ws[1..];
    } else {
      assert ws[w := worker][1..] == ws[1..][w - 1 := worker];
      WorkersCostUpdate(ws[1..], w - 1, worker);
    }
  }

  lemma {:induction false} LanesCostNonNegative(lanes: seq<Lane>)
    requires forall r :: 0 <= r < |lanes| ==> lanes[r].chan.received <= |lanes[r].chan.sent|
    ensures LanesCost(lanes) >= 0
  {
    if lanes == [] {
    } else {
      LanesCostNonNegative(lanes[1..]);
    }
  }

  lemma MeasureNonNegative(s: State)
    requires Inv(s)
    ensures Measure(s) >= 0
  {
    forall r: nat | r < |s.lanes| ensures s.lanes[r].chan.received <= |s.lanes[r].chan.sent| {
      assert Good(s, r);
    }
    LanesCostNonNegative(s.lanes);
  }

  lemma MovePays(nodes: set<Address>, lane: Lane, l: Label, open: multiset<Address>, finishing: nat)
    requires OwnLaneOnly(l) && Ready(nodes, lane, l) && LaneOk(nodes, lane, open, finishing)
    ensures LaneCost(Moved(lane, l)) <= LaneCost(lane) + (if l.Tick? then 9 * |nodes| + 5 else -1)
  {
    if l.Tick? {
      assert nodes == l.targets + (nodes - l.targets);
    }
  }

  lemma ManagerPays(s: State, l: Label)
    requires Inv(s) && Enabled(s, l) && OwnLaneOnly(l)
    ensures Measure(Apply(s, l)) <= Measure(s) + (if l.Tick? then 9 * |s.nodes| + 5 else -1)
  {
    var r := l.rpc;
    assert Good(s, r);
    LanesCostUpdate(s.lanes, r, Moved(s.lanes[r], l));
    MovePays(s.nodes, s.lanes[r], l, Open(s, r), Finishers(s.workers, r));
  }

  lemma WorkerPays(s: State, l: Label)
    requires Inv(s) && Enabled(s, l) && !OwnLaneOnly(l) && !l.Send?
    ensures Measure(Apply(s, l)) < Measure(s)
  {
    var s' := Apply(s, l);
    var w := l.worker;
    if l.Deliver? {
      HeldChannelAccepts(s, w);
      LanesCostUpdate(s.lanes, s.workers[w].job.rpc, s'.lanes[s.workers[w].job.rpc]);
    }
    if l.Done? {
      LanesCostUpdate(s.lanes, s.workers[w].rpc, s'.lanes[s.workers[w].rpc]);
    }
    WorkersCostUpdate(s.workers, w, s'.workers[w]);
  }

  /** Every step but a tick lowers the measure, and a tick raises it by no more than its round costs. */
  lemma StepPays(s: State, l: Label)
    requires Inv(s) && Enabled(s, l)
    ensures Measure(Apply(s, l)) <= Measure(s) + (if l.Tick? then 9 * |s.nodes| + 5 else -1)
  {
    if OwnLaneOnly(l) {
      ManagerPays(s, l);
    } else if l.Send? {
      LanesCostUpdate(s.lanes, l.rpc, Apply(s, l).lanes[l.rpc]);
      assert |s.lanes[l.rpc].pending - {l.address}| == |s.lanes[l.rpc].pending| - 1;
    } else {
      WorkerPays(s, l);
    }
  }

  function Ticks(ls: seq<Label>): nat {
    if ls == [] then 0 else (if ls[0].Tick? then 1 else 0) + Ticks(ls[1..])
  }

  /** The most a tick adds to the measure, plus one for the tick itself. */
  ghost function RoundBudget(nodes: set<Address>): nat {
    9 * |nodes| + 6
  }

  lemma Accumulate(steps: int, before: int, next: int, end: int, ticks: nat, budget: nat, ticked: bool)
    requires next <= before + (if ticked then budget - 1 else -1)
    requires steps + end <= next + ticks * budget
    ensures steps + 1 + end <= before + (ticks + if ticked then 1 else 0) * budget
  {
  }

  /** Steps taken and work left are bounded by the work at the start and the ticks on the way. */
  lemma {:induction false} RunPays(s: State, ls: seq<Label>)
    requires Inv(s) && CanRun(s, ls)
    ensures |ls| + Measure(After(s, ls)) <= Measure(s) + Ticks(ls) * RoundBudget(s.nodes)
    decreases |ls|
  {
    if ls == [] {
    } else {
      var s1 := Apply(s, ls[0]);
      StepPays(s, ls[0]);
      StepKeepsInv(s, ls[0]);
      StepKeepsShape(s, ls[0]);
      RunPays(s1, ls[1..]);
      Accumulate(|ls[1..]|, Measure(s), Measure(s1), Measure(After(s1, ls[1..])),
                 Ticks(ls[1..]), RoundBudget(s.nodes), ls[0].Tick?);
    }
  }

  lemma {:induction false} NewLanesCostNothing(n: nat)
    ensures LanesCost(seq(n, _ => NEW_LANE)) == 0 && WorkersCost(seq(n, _ => Free)) == 0
  {
    if n == 0 {
    } else {
      assert seq(n, _ => NEW_LANE)[1..] == seq(n - 1, _ => NEW_LANE);
      assert seq(n, _ => Free)[1..] == seq(n - 1, _ => Free);
      NewLanesCostNothing(n - 1);
    }
  }

  lemma InitialMeasure(nodes: set<Address>, rpcs: nat, poolSize: nat)
    ensures Measure(Initial(nodes, rpcs, poolSize)) == 0
  {
    NewLanesCostNothing(rpcs);
    NewLanesCostNothing(poolSize);
  }

  /** A run with t ticks has at most t * (9 * len(shardMap) + 6) steps: every round is finite. */
  lemma RoundsAreFinite(nodes: set<Address>, rpcs: nat, poolSize: nat, ls: seq<Label>)
    requires CanRun(Initial(nodes, rpcs, poolSize), ls)
    ensures |ls| <= Ticks(ls) * RoundBudget(nodes)
  {
    var s := Initial(nodes, rpcs, poolSize);
    InitialInv(nodes, rpcs, poolSize);
    InitialMeasure(nodes, rpcs, poolSize);
    RunPays(s, ls);
    RunKeepsInv(s, ls);
    MeasureNonNegative(After(s, ls));
  }

  lemma CalmStep(s: State, l: Label)
    requires Inv(s) && NoGap(s) && Enabled(s, l)
    ensures Apply(s, l).fault == NoFault
  {
    if !l.Send? {
      StepKeepsNoGap(s, l);
      NoGapNoFault(Apply(s, l));
    }
  }

  /**
   The move of a careful scheduler: an `Add` that is due comes first, and then no counter can go
   negative, because no manager stands between `jobs <-` and `Add(1)`.
   */
  lemma CalmMove(s: State, lockFree: bool) returns (l: Label)
    requires Inv(s) && s.fault == NoFault && |s.workers| > 0
    requires if lockFree then !AllIdle(s) else !AllParked(s)
    ensures Moves(s, l, lockFree) && Apply(s, l).fault == NoFault
  {
    if r :| 0 <= r < |s.lanes| && s.lanes[r].phase.Adding? {
      l := Add(r);
    } else {
      if AllParked(s) {
        var r :| 0 <= r < |s.lanes| && !s.lanes[r].phase.Idle?;
        l := Replace(r);
      } else {
        l := Progress(s);
      }
      CalmStep(s, l);
    }
  }

  /** The run is made of moves of the program, so it has no tick and, with the lock taken, no replacement. */
  ghost predicate OnlyMoves(ls: seq<Label>, lockFree: bool) {
    Ticks(ls) == 0 && forall i :: 0 <= i < |ls| && ls[i].Replace? ==> lockFree
  }

  /**
   From every state without a fault the rounds under way can all be brought to their end without
   one, and if the lock is free all channels are replaced.
   */
  lemma {:induction false} Settles(s: State, lockFree: bool) returns (ls: seq<Label>)
    requires Inv(s) && |s.workers| > 0
    ensures CanRun(s, ls) && OnlyMoves(ls, lockFree)
    ensures s.fault == NoFault ==>
      After(s, ls).fault == NoFault && if lockFree then AllIdle(After(s, ls)) else AllParked(After(s, ls))
    decreases Measure(s)
  {
    if s.fault != NoFault || (if lockFree then AllIdle(s) else AllParked(s)) {
      ls := [];
    } else {
      var l := CalmMove(s, lockFree);
      StepPays(s, l);
      StepKeepsInv(s, l);
      StepKeepsShape(s, l);
      MeasureNonNegative(s);
      MeasureNonNegative(Apply(s, l));
      var rest := Settles(Apply(s, l), lockFree);
      ls := [l] + rest;
      PrependLabel(s, l, rest);
      assert ls[1..] == rest;
    }
  }

  /**
   Every engine with a worker, with an unfinished round: it can move, and then in a way that lowers
   the measure, unless the lock is taken and every manager stands before the replacement of its
   channel or waits for its ticker; and then it cannot.
   */
  lemma StallsExactly(nodes: set<Address>, rpcs: nat, poolSize: nat, s: State, lockFree: bool)
    requires Reachable(nodes, rpcs, poolSize, s) && poolSize > 0 && s.fault == NoFault && !AllIdle(s)
    ensures Stalled(s, lockFree) <==> !lockFree && AllParked(s)
    ensures (exists l :: Moves(s, l, lockFree) && Measure(Apply(s, l)) < Measure(s)) <==> lockFree || !AllParked(s)
  {
    ReachableInv(nodes, rpcs, poolSize, s);
    if lockFree || !AllParked(s) {
      var l := CalmMove(s, lockFree);
      StepPays(s, l);
    } else {
      ParkedIsQuiet(s);
    }
  }

  // ----- an empty pool -----

  ghost predicate NothingSent(s: State) {
    |s.workers| == 0 &&
    forall r: nat :: r < |s.lanes| ==>
      s.lanes[r].chan.sent == [] && forall k :: 0 <= k < |s.lanes[r].retired| ==> s.lanes[r].retired[k].sent == []
  }

  lemma {:induction false} NothingIsSent(s: State, ls: seq<Label>)
    requires NothingSent(s) && CanRun(s, ls)
    ensures NothingSent(After(s, ls))
    decreases |ls|
  {
    if ls == [] {
    } else {
      assert NothingSent(Apply(s, ls[0]));
      NothingIsSent(Apply(s, ls[0]), ls[1..]);
    }
  }

  /** Progress needs a worker: an empty pool completes no round that has a target. */
  lemma EmptyPoolCompletesNothing(nodes: set<Address>, rpcs: nat, s: State, r: nat, k: nat)
    requires Reachable(nodes, rpcs, 0, s) && r < |s.lanes| && k < |s.lanes[r].retired|
    ensures s.lanes[r].retired[k].targets == {}
  {
    var s0 := Initial(nodes, rpcs, 0);
    var ls :| CanRun(s0, ls) && s == After(s0, ls);
    NothingIsSent(s0, ls);
    ReachableInv(nodes, rpcs, 0, s);
    assert Good(s, r);
    var c := s.lanes[r].retired[k];
    assert RetiredOk(s.nodes, c, r, k);
    BagOfSetIsListing(Addresses(c.sent), c.targets);
  }
}
