/**
 The polling engine: managers share one buffered `jobs` channel and a pool of workers.

 A lane is one RPC of the engine: its manager, its WaitGroup and its current reply channel.
 Every atomic action of a goroutine is one label, so a run is any interleaving of any number of
 lanes and workers over any number of rounds.  `jobs <-` and `Add(1)` are two labels, in the
 order in which the source performs them.  Go's panics are states with a fault.

 A round queries a set of targets, which is all of `shardMap` for the managers of `update` and
 `consensusMonitor`, and the shard-0 nodes or the leaders for the two-phase monitors.
 */
module WorkerPool {
  import opened Polling

  /** A job; `round` is a bookkeeping tag that no transition branches on. */
  datatype Work = Work(address: Address, rpc: nat, round: nat)

  /** A reply in a channel, with the tag of the job it answers. */
  datatype Answer = Answer(address: Address, rpc: nat, round: nat, outcome: Outcome)

  /**
   A reply channel: all that was ever sent on it, and how much of that was received.  It is
   abandoned when its manager broke out of the loop over it.
   */
  datatype Chan = Chan(
    targets: set<Address>, sent: seq<Answer>, received: nat, closed: bool, abandoned: bool)

  datatype Phase =
    | Idle      // waiting for a tick
    | Sending   // in the loop, before `jobs <-`
    | Adding    // in the loop, between `jobs <-` and `Add(1)`
    | Waiting   // in `group.Wait()`
    | Released  // `Wait` has returned
    | Draining  // the channel is closed and being ranged over
    | Drained   // about to replace `channels[rpc]`

  /** `retired` are the lane's former channels; `chan` is what `channels[rpc]` holds now. */
  datatype Lane = Lane(
    phase: Phase, pending: set<Address>,
    counter: int, adds: nat, dones: nat,
    retired: seq<Chan>, chan: Chan)

  datatype Worker =
    | Free
    | Requesting(job: Work)
    | Answered(job: Work, outcome: Outcome)
    | Holding(job: Work, outcome: Outcome, chanId: nat)  // has read `channels[j.rpc]`
    | Finishing(rpc: nat)                                // has sent, will call `Done`

  datatype Fault = NoFault | SendOnClosed | CloseOfClosed | NegativeCounter

  /** `log` remembers what each request returned; no transition reads it. */
  datatype State = State(
    nodes: set<Address>, jobs: seq<Work>, lanes: seq<Lane>, workers: seq<Worker>,
    fault: Fault, log: map<Work, Outcome>)

  datatype Label =
    | Tick(rpc: nat, targets: set<Address>)
    | Send(rpc: nat, address: Address)
    | Add(rpc: nat)
    | EnterWait(rpc: nat)
    | WaitReturns(rpc: nat)
    | Close(rpc: nat)
    | Receive(rpc: nat)
    | EndDrain(rpc: nat)
    | Abandon(rpc: nat)
    | Replace(rpc: nat)
    | Take(worker: nat)
    | Respond(worker: nat, outcome: Outcome)
    | Lookup(worker: nat)
    | Deliver(worker: nat)
    | Done(worker: nat)

  const NEW_CHAN := Chan({}, [], 0, false, false)
  const NEW_LANE := Lane(Idle, {}, 0, 0, 0, [], NEW_CHAN)

  /** The engine as `update` starts it. */
  function Initial(nodes: set<Address>, rpcs: nat, poolSize: nat): State {
    State(nodes, [], seq(rpcs, _ => NEW_LANE), seq(poolSize, _ => Free), NoFault, map[])
  }

  function ChanAt(lane: Lane, id: nat): Chan
    requires id <= |lane.retired|
  {
    if id == |lane.retired| then lane.chan else lane.retired[id]
  }

  function WithChan(lane: Lane, id: nat, c: Chan): Lane
    requires id <= |lane.retired|
  {
    if id == |lane.retired| then lane.(chan := c) else lane.(retired := lane.retired[id := c])
  }

  /** The labels with which a manager changes nothing but its own lane. */
  predicate OwnLaneOnly(l: Label) {
    || l.Tick? || l.Add? || l.EnterWait? || l.WaitReturns? || l.Close? || l.Receive? || l.EndDrain?
    || l.Abandon? || l.Replace?
  }

  /** The guard of such a label.  A loop is left early only on a successful reply. */
  predicate Ready(nodes: set<Address>, lane: Lane, l: Label)
    requires OwnLaneOnly(l)
  {
    match l
    case Tick(_, targets) => lane.phase.Idle? && targets <= nodes
    case Add(_) => lane.phase.Adding?
    case EnterWait(_) => lane.phase.Sending? && lane.pending == {}
    case WaitReturns(_) => lane.phase.Waiting? && lane.counter == 0
    case Close(_) => lane.phase.Released?
    case Receive(_) => lane.phase.Draining? && lane.chan.received < |lane.chan.sent|
    case EndDrain(_) => lane.phase.Draining? && lane.chan.received == |lane.chan.sent|
    case Abandon(_) =>
      && lane.phase.Draining? && 0 < lane.chan.received <= |lane.chan.sent|
      && lane.chan.sent[lane.chan.received - 1].outcome.Body?
    case Replace(_) => lane.phase.Drained?
  }

  /** Whether a goroutine can perform the labelled action now; blocking operations are guards. */
  predicate Enabled(s: State, l: Label) {
    s.fault == NoFault &&
    match l
    case Send(r, a) =>
      r < |s.lanes| && s.lanes[r].phase.Sending? && a in s.lanes[r].pending && |s.jobs| < |s.nodes|
    case Take(w) => w < |s.workers| && s.workers[w].Free? && |s.jobs| > 0
    case Respond(w, _) => w < |s.workers| && s.workers[w].Requesting?
    case Lookup(w) => w < |s.workers| && s.workers[w].Answered? && s.workers[w].job.rpc < |s.lanes|
    case Deliver(w) =>
      && w < |s.workers| && s.workers[w].Holding?
      && s.workers[w].job.rpc < |s.lanes|
      && s.workers[w].chanId <= |s.lanes[s.workers[w].job.rpc].retired|
      && var c := ChanAt(s.lanes[s.workers[w].job.rpc], s.workers[w].chanId);
         c.closed || |s.nodes| + c.received > |c.sent|
    case Done(w) => w < |s.workers| && s.workers[w].Finishing? && s.workers[w].rpc < |s.lanes|
    case _ => l.rpc < |s.lanes| && Ready(s.nodes, s.lanes[l.rpc], l)
  }

  function SetLane(s: State, r: nat, lane: Lane): State
    requires r < |s.lanes|
  {
    s.(lanes := s.lanes[r := lane])
  }

  function SetWorker(s: State, w: nat, worker: Worker): State
    requires w < |s.workers|
  {
    s.(workers := s.workers[w := worker])
  }

  /** The lane after a manager's own label. */
  function Moved(lane: Lane, l: Label): Lane
    requires OwnLaneOnly(l)
  {
    match l
    case Tick(_, targets) =>
      lane.(phase := Sending, pending := targets, chan := lane.chan.(targets := targets))
    case Add(_) => lane.(phase := Sending, counter := lane.counter + 1, adds := lane.adds + 1)
    case EnterWait(_) => lane.(phase := Waiting)
    case WaitReturns(_) => lane.(phase := Released)
    case Close(_) => lane.(phase := Draining, chan := lane.chan.(closed := true))
    case Receive(_) => lane.(chan := lane.chan.(received := lane.chan.received + 1))
    case EndDrain(_) => lane.(phase := Drained)
    case Abandon(_) => lane.(phase := Drained, chan := lane.chan.(abandoned := true))
    case Replace(_) => lane.(phase := Idle, retired := lane.retired + [lane.chan], chan := NEW_CHAN)
  }

  /** The effect of the labelled action. */
  function Apply(s: State, l: Label): State
    requires Enabled(s, l)
  {
    match l
    case Send(r, a) =>
      var lane := s.lanes[r];
      SetLane(s, r, lane.(phase := Adding, pending := lane.pending - {a}))
      .(jobs := s.jobs + [Work(a, r, |lane.retired|)])
    case Take(w) => SetWorker(s, w, Requesting(s.jobs[0])).(jobs := s.jobs[1..])
    case Respond(w, outcome) =>
      var job := s.workers[w].job;
      SetWorker(s, w, Answered(job, outcome)).(log := s.log[job := outcome])
    case Lookup(w) =>
      var Answered(job, outcome) := s.workers[w];
      SetWorker(s, w, Holding(job, outcome, |s.lanes[job.rpc].retired|))
    case Deliver(w) =>
      var Holding(job, outcome, id) := s.workers[w];
      var lane := s.lanes[job.rpc];
      var c := ChanAt(lane, id);
      var answer := Answer(job.address, job.rpc, job.round, outcome);
      if c.closed then s.(fault := SendOnClosed)
      else SetWorker(SetLane(s, job.rpc, WithChan(lane, id, c.(sent := c.sent + [answer]))), w, Finishing(job.rpc))
    case Done(w) =>
      var r := s.workers[w].rpc;
      var lane := s.lanes[r];
      SetWorker(SetLane(s, r, lane.(counter := lane.counter - 1, dones := lane.dones + 1)), w, Free)
      .(fault := if lane.counter - 1 < 0 then NegativeCounter else NoFault)
    case Close(r) =>
      SetLane(s, r, Moved(s.lanes[r], l)).(fault := if s.lanes[r].chan.closed then CloseOfClosed else NoFault)
    case _ => SetLane(s, l.rpc, Moved(s.lanes[l.rpc], l))
  }

  /** The labels can be performed one after the other, from s on. */
  predicate CanRun(s: State, ls: seq<Label>)
    decreases |ls|
  {
    ls == [] || (Enabled(s, ls[0]) && CanRun(Apply(s, ls[0]), ls[1..]))
  }

  function After(s: State, ls: seq<Label>): State
    requires CanRun(s, ls)
    decreases |ls|
  {
    if ls == [] then s else After(Apply(s, ls[0]), ls[1..])
  }
}
