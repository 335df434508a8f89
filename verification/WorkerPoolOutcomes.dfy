/**
 What travels through the engine unchanged: every reply in every channel carries the outcome of
 the request it answers.
 */
module WorkerPoolOutcomes {
  import opened Polling
  import opened WorkerPool
  import opened WorkerPoolInvariant
  import opened WorkerPoolTheorems

  ghost predicate Logged(log: map<Work, Outcome>, job: Work, outcome: Outcome) {
    job in log && log[job] == outcome
  }

  ghost predicate ChanLogged(log: map<Work, Outcome>, sent: seq<Answer>) {
    forall i :: 0 <= i < |sent| ==> Logged(log, Work(sent[i].address, sent[i].rpc, sent[i].round), sent[i].outcome)
  }

  ghost predicate LaneLogged(log: map<Work, Outcome>, lane: Lane) {
    ChanLogged(log, lane.chan.sent) && forall k :: 0 <= k < |lane.retired| ==> ChanLogged(log, lane.retired[k].sent)
  }

  ghost predicate WorkerLogged(log: map<Work, Outcome>, w: Worker) {
    w.Answered? || w.Holding? ==> Logged(log, w.job, w.outcome)
  }

  /** Whoever has an outcome, worker or channel, has the one that the request returned. */
  ghost predicate LogOk(s: State) {
    && (forall w :: 0 <= w < |s.workers| ==> WorkerLogged(s.log, s.workers[w]))
    && (forall r :: 0 <= r < |s.lanes| ==> LaneLogged(s.log, s.lanes[r]))
  }

  /** A lane owes each address at most once, and only while it has not been replied. */
  lemma OwedOnce(s: State, r: nat, a: Address)
    requires Inv(s) && r < |s.lanes|
    ensures InFlight(s.workers, r)[a] + Repliers(s.lanes[r].chan.sent)[a] <= 1
  {
    assert Good(s, r);
    var lane := s.lanes[r];
    var issued := multiset(lane.chan.targets - lane.pending);
    assert issued[a] <= 1;
    assert (Open(s, r) + Repliers(lane.chan.sent))[a] == issued[a];
    assert Open(s, r)[a] >= InFlight(s.workers, r)[a];
  }

  lemma {:induction false} TwoOwners(ws: seq<Worker>, v: nat, w: nat, r: nat, a: Address)
    requires v < w < |ws| && Owed(ws[v], r) == multiset{a} && Owed(ws[w], r) == multiset{a}
    ensures InFlight(ws, r)[a] >= 2
  {
    if v == 0 {
      InFlightMember(ws[1..], w - 1, r);
    } else {
      TwoOwners(ws[1..], v - 1, w - 1, r, a);
    }
  }

  lemma AnswerIsOther(s: State, w: nat, r: nat, k: nat, i: nat)
    requires Inv(s) && w < |s.workers| && s.workers[w].Requesting?
    requires r < |s.lanes| && k <= |s.lanes[r].retired| && i < |ChanAt(s.lanes[r], k).sent|
    ensures var x := ChanAt(s.lanes[r], k).sent[i]; Work(x.address, x.rpc, x.round) != s.workers[w].job
  {
    var job := s.workers[w].job;
    var sent := ChanAt(s.lanes[r], k).sent;
    assert WorkerOk(s.lanes, s.workers[w]);
    assert Good(s, r);
    if k < |s.lanes[r].retired| {
      assert RetiredOk(s.nodes, s.lanes[r].retired[k], r, k);
    } else if r == job.rpc {
      OwedOnce(s, r, job.address);
      InFlightMember(s.workers, w, r);
      assert Addresses(sent)[i] == sent[i].address;
      assert sent[i].address in Repliers(sent);
    }
  }

  /** A job that is still being requested is in no other worker's hands and in no channel. */
  lemma RequestIsUnique(s: State, w: nat)
    requires Inv(s) && w < |s.workers| && s.workers[w].Requesting?
    ensures forall v :: 0 <= v < |s.workers| && v != w && (s.workers[v].Answered? || s.workers[v].Holding?) ==>
      s.workers[v].job != s.workers[w].job
    ensures forall r, k, i ::
      0 <= r < |s.lanes| && 0 <= k <= |s.lanes[r].retired| && 0 <= i < |ChanAt(s.lanes[r], k).sent| ==>
      var x := ChanAt(s.lanes[r], k).sent[i]; Work(x.address, x.rpc, x.round) != s.workers[w].job
  {
    var job := s.workers[w].job;
    assert WorkerOk(s.lanes, s.workers[w]);
    OwedOnce(s, job.rpc, job.address);
    InFlightMember(s.workers, w, job.rpc);
    forall v | 0 <= v < |s.workers| && v != w && (s.workers[v].Answered? || s.workers[v].Holding?)
      ensures s.workers[v].job != job
    {
      if s.workers[v].job == job {
        TwoOwners(s.workers, if v < w then v else w, if v < w then w else v, job.rpc, job.address);
      }
    }
    forall r, k, i | 0 <= r < |s.lanes| && 0 <= k <= |s.lanes[r].retired| && 0 <= i < |ChanAt(s.lanes[r], k).sent|
      ensures var x := ChanAt(s.lanes[r], k).sent[i]; Work(x.address, x.rpc, x.round) != job
    {
      AnswerIsOther(s, w, r, k, i);
    }
  }

  lemma RespondKeepsLog(s: State, w: nat, o: Outcome)
    requires Inv(s) && LogOk(s) && Enabled(s, Respond(w, o))
    ensures LogOk(Apply(s, Respond(w, o)))
  {
    var s' := Apply(s, Respond(w, o));
    RequestIsUnique(s, w);
    forall v | 0 <= v < |s'.workers| ensures WorkerLogged(s'.log, s'.workers[v]) {
      assert v != w ==> WorkerLogged(s.log, s.workers[v]);
    }
    forall r | 0 <= r < |s'.lanes| ensures LaneLogged(s'.log, s'.lanes[r]) {
      assert LaneLogged(s.log, s.lanes[r]);
      forall k | 0 <= k <= |s.lanes[r].retired| ensures ChanLogged(s'.log, ChanAt(s.lanes[r], k).sent) {
        assert ChanLogged(s.log, ChanAt(s.lanes[r], k).sent);
      }
      assert ChanLogged(s'.log, ChanAt(s.lanes[r], |s.lanes[r].retired|).sent);
      forall k | 0 <= k < |s.lanes[r].retired| ensures ChanLogged(s'.log, s.lanes[r].retired[k].sent) {
        assert ChanLogged(s'.log, ChanAt(s.lanes[r], k).sent);
      }
    }
  }

  lemma DeliverKeepsLog(s: State, w: nat)
    requires Inv(s) && LogOk(s) && Enabled(s, Deliver(w))
    ensures LogOk(Apply(s, Deliver(w)))
  {
  }

  lemma OtherStepsKeepLog(s: State, l: Label)
    requires LogOk(s) && Enabled(s, l) && !l.Respond? && !l.Deliver?
    ensures LogOk(Apply(s, l))
  {
    var s' := Apply(s, l);
    assert s'.log == s.log;
    forall v | 0 <= v < |s'.workers| ensures WorkerLogged(s'.log, s'.workers[v]) {
      assert WorkerLogged(s.log, s.workers[v]);
    }
    forall q | 0 <= q < |s'.lanes| ensures LaneLogged(s'.log, s'.lanes[q]) {
      assert LaneLogged(s.log, s.lanes[q]);
    }
  }

  lemma StepKeepsLog(s: State, l: Label)
    requires Inv(s) && LogOk(s) && Enabled(s, l)
    ensures LogOk(Apply(s, l))
  {
    match l
    case Respond(w, outcome) => RespondKeepsLog(s, w, outcome);
    case Deliver(w) => DeliverKeepsLog(s, w);
    case _ => OtherStepsKeepLog(s, l);
  }

  lemma {:induction false} RunKeepsLog(s: State, ls: seq<Label>)
    requires Inv(s) && LogOk(s) && CanRun(s, ls)
    ensures LogOk(After(s, ls))
    decreases |ls|
  {
    if ls == [] {
    } else {
      StepKeepsLog(s, ls[0]);
      StepKeepsInv(s, ls[0]);
      RunKeepsLog(Apply(s, ls[0]), ls[1..]);
    }
  }

  // ----- the run behind the log -----

  ghost predicate RespondsNow(s: State, l: Label, job: Work, o: Outcome) {
    l.Respond? && l.outcome == o && l.worker < |s.workers| && s.workers[l.worker] == Requesting(job)
  }

  /** In the run, a worker that was requesting the job got the outcome. */
  ghost predicate Responded(s: State, ls: seq<Label>, job: Work, o: Outcome)
    requires CanRun(s, ls)
    decreases |ls|
  {
    ls != [] && (RespondsNow(s, ls[0], job, o) || Responded(Apply(s, ls[0]), ls[1..], job, o))
  }

  ghost predicate InHand(w: Worker, job: Work) {
    (w.Answered? || w.Holding?) && w.job == job
  }

  ghost predicate InHands(ws: seq<Worker>, job: Work) {
    exists w :: 0 <= w < |ws| && InHand(ws[w], job)
  }

  /** Some reply answers the job. */
  ghost predicate In(sent: seq<Answer>, job: Work) {
    exists i :: 0 <= i < |sent| && Work(sent[i].address, sent[i].rpc, sent[i].round) == job
  }

  ghost predicate InChannel(lanes: seq<Lane>, job: Work) {
    job.rpc < |lanes| && job.round <= |lanes[job.rpc].retired| && In(ChanAt(lanes[job.rpc], job.round).sent, job)
  }

  /** Every outcome in the log is still with a worker, or in the channel of its lane and round. */
  ghost predicate LogPlaced(s: State) {
    forall job :: job in s.log ==> InHands(s.workers, job) || InChannel(s.lanes, job)
  }

  lemma HandsUpdate(ws: seq<Worker>, w: nat, worker: Worker, job: Work)
    requires w < |ws| && InHands(ws, job) && (InHand(ws[w], job) ==> InHand(worker, job))
    ensures InHands(ws[w := worker], job)
  {
    var v :| 0 <= v < |ws| && InHand(ws[v], job);
    assert InHand(ws[w := worker][v], job);
  }

  lemma ChannelUpdate(lanes: seq<Lane>, r: nat, lane: Lane, job: Work)
    requires r < |lanes| && InChannel(lanes, job) && |lanes[r].retired| <= |lane.retired|
    requires forall k :: 0 <= k <= |lanes[r].retired| ==> ChanAt(lanes[r], k).sent <= ChanAt(lane, k).sent
    ensures InChannel(lanes[r := lane], job)
  {
    var sent := ChanAt(lanes[job.rpc], job.round).sent;
    var sent' := ChanAt(lanes[r := lane][job.rpc], job.round).sent;
    assert sent <= sent';
    var i :| 0 <= i < |sent| && Work(sent[i].address, sent[i].rpc, sent[i].round) == job;
    assert sent'[i] == sent[i];
  }

  /** A manager's own label takes no reply out of a channel. */
  lemma MoveKeepsReplies(lane: Lane, l: Label)
    requires OwnLaneOnly(l)
    ensures |lane.retired| <= |Moved(lane, l).retired|
    ensures forall k :: 0 <= k <= |lane.retired| ==> ChanAt(lane, k).sent <= ChanAt(Moved(lane, l), k).sent
  {
  }

  lemma ManagerKeepsPlaces(s: State, l: Label, job: Work)
    requires Enabled(s, l) && OwnLaneOnly(l) && (InHands(s.workers, job) || InChannel(s.lanes, job))
    ensures InHands(Apply(s, l).workers, job) || InChannel(Apply(s, l).lanes, job)
  {
    MoveKeepsReplies(s.lanes[l.rpc], l);
    if InChannel(s.lanes, job) {
      ChannelUpdate(s.lanes, l.rpc, Moved(s.lanes[l.rpc], l), job);
    }
  }

  lemma DeliverKeepsPlaces(s: State, w: nat, job: Work)
    requires Inv(s) && Enabled(s, Deliver(w)) && (InHands(s.workers, job) || InChannel(s.lanes, job))
    ensures InHands(Apply(s, Deliver(w)).workers, job) || InChannel(Apply(s, Deliver(w)).lanes, job)
  {
    HeldChannelAccepts(s, w);
    var Holding(own, outcome, id) := s.workers[w];
    var lane := s.lanes[own.rpc];
    var answer := Answer(own.address, own.rpc, own.round, outcome);
    var lane' := lane.(chan := lane.chan.(sent := lane.chan.sent + [answer]));
    if job == own {
      assert lane'.chan.sent[|lane.chan.sent|] == answer;
      assert In(lane'.chan.sent, job);
    } else if InChannel(s.lanes, job) {
      ChannelUpdate(s.lanes, own.rpc, lane', job);
    } else {
      HandsUpdate(s.workers, w, Finishing(own.rpc), job);
    }
  }

  lemma WorkerKeepsPlaces(s: State, l: Label, job: Work)
    requires Enabled(s, l) && (l.Take? || l.Respond? || l.Lookup? || l.Done?)
    requires InHands(s.workers, job) || InChannel(s.lanes, job)
    ensures InHands(Apply(s, l).workers, job) || InChannel(Apply(s, l).lanes, job)
  {
    var s' := Apply(s, l);
    if InHands(s.workers, job) {
      HandsUpdate(s.workers, l.worker, s'.workers[l.worker], job);
    }
  }

  lemma SendKeepsPlaces(s: State, r: nat, a: Address, job: Work)
    requires Enabled(s, Send(r, a)) && (InHands(s.workers, job) || InChannel(s.lanes, job))
    ensures InHands(Apply(s, Send(r, a)).workers, job) || InChannel(Apply(s, Send(r, a)).lanes, job)
  {
    if InChannel(s.lanes, job) {
      ChannelUpdate(s.lanes, r, Apply(s, Send(r, a)).lanes[r], job);
    }
  }

  lemma StepKeepsPlaces(s: State, l: Label, job: Work)
    requires Inv(s) && Enabled(s, l) && (InHands(s.workers, job) || InChannel(s.lanes, job))
    ensures InHands(Apply(s, l).workers, job) || InChannel(Apply(s, l).lanes, job)
  {
    match l
    case Deliver(w) => DeliverKeepsPlaces(s, w, job);
    case Send(r, a) => SendKeepsPlaces(s, r, a, job);
    case _ =>
      if OwnLaneOnly(l) {
        ManagerKeepsPlaces(s, l, job);
      } else {
        WorkerKeepsPlaces(s, l, job);
      }
  }

  /** A job that is being requested is not in the log: no request is made twice. */
  lemma RequestIsNew(s: State, w: nat)
    requires Inv(s) && LogPlaced(s) && w < |s.workers| && s.workers[w].Requesting?
    ensures s.workers[w].job !in s.log
  {
    RequestIsUnique(s, w);
  }

  lemma StepLogs(s: State, l: Label, job: Work, o: Outcome)
    requires Inv(s) && LogPlaced(s) && Enabled(s, l)
    ensures Logged(Apply(s, l).log, job, o) <==> Logged(s.log, job, o) || RespondsNow(s, l, job, o)
  {
    if l.Respond? {
      RequestIsNew(s, l.worker);
    }
  }

  lemma StepKeepsPlaced(s: State, l: Label)
    requires Inv(s) && LogPlaced(s) && Enabled(s, l)
    ensures LogPlaced(Apply(s, l))
  {
    var s' := Apply(s, l);
    forall job | job in s'.log ensures InHands(s'.workers, job) || InChannel(s'.lanes, job) {
      if job in s.log {
        StepKeepsPlaces(s, l, job);
      } else {
        assert InHand(s'.workers[l.worker], job);
      }
    }
  }

  /** The log is the run: a job has an outcome in it exactly if that is what its request returned. */
  lemma {:induction false} LogIsRun(s: State, ls: seq<Label>, job: Work, o: Outcome)
    requires Inv(s) && LogPlaced(s) && CanRun(s, ls)
    ensures Logged(After(s, ls).log, job, o) <==> Logged(s.log, job, o) || Responded(s, ls, job, o)
    decreases |ls|
  {
    if ls == [] {
    } else {
      StepLogs(s, ls[0], job, o);
      StepKeepsPlaced(s, ls[0]);
      StepKeepsInv(s, ls[0]);
      LogIsRun(Apply(s, ls[0]), ls[1..], job, o);
    }
  }

  // ----- theorems -----

  /**
   In every run each reply in each channel carries what its own request returned: a worker that was
   requesting that address, for that RPC and round, got exactly this outcome.
   */
  lemma RepliesAreGenuine(nodes: set<Address>, rpcs: nat, poolSize: nat, ls: seq<Label>, r: nat, k: nat, i: nat)
    requires CanRun(Initial(nodes, rpcs, poolSize), ls)
    requires var s := After(Initial(nodes, rpcs, poolSize), ls);
      r < |s.lanes| && k <= |s.lanes[r].retired| && i < |ChanAt(s.lanes[r], k).sent|
    ensures var x := ChanAt(After(Initial(nodes, rpcs, poolSize), ls).lanes[r], k).sent[i];
      x.rpc == r && x.round == k && Responded(Initial(nodes, rpcs, poolSize), ls, Work(x.address, r, k), x.outcome)
  {
    var s0 := Initial(nodes, rpcs, poolSize);
    var s := After(s0, ls);
    InitialInv(nodes, rpcs, poolSize);
    RunKeepsLog(s0, ls);
    assert Reachable(nodes, rpcs, poolSize, s);
    ReachableInv(nodes, rpcs, poolSize, s);
    ChannelLifeCycle(nodes, rpcs, poolSize, s, r);
    assert LaneLogged(s.log, s.lanes[r]);
    var sent := ChanAt(s.lanes[r], k).sent;
    assert ChanLogged(s.log, sent) && Tagged(sent, r, k);
    LogIsRun(s0, ls, Work(sent[i].address, r, k), sent[i].outcome);
  }

  /** And no request is made twice: in a run it returns one outcome. */
  lemma OneOutcomeEach(nodes: set<Address>, rpcs: nat, poolSize: nat, ls: seq<Label>, job: Work, o: Outcome, p: Outcome)
    requires CanRun(Initial(nodes, rpcs, poolSize), ls)
    requires Responded(Initial(nodes, rpcs, poolSize), ls, job, o)
    requires Responded(Initial(nodes, rpcs, poolSize), ls, job, p)
    ensures o == p
  {
    InitialInv(nodes, rpcs, poolSize);
    LogIsRun(Initial(nodes, rpcs, poolSize), ls, job, o);
    LogIsRun(Initial(nodes, rpcs, poolSize), ls, job, p);
  }
}
