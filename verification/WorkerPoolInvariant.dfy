/**
 The invariant of the polling engine and its preservation by every label.

 The heart is a conservation law per lane: the addresses queued, in flight and replied in the
 current channel are together exactly the targets already issued, each once.
 */
module WorkerPoolInvariant {
  import opened Polling
  import opened WorkerPool

  // ----- where a lane's addresses are -----

  /** The address of lane r that a worker still owes a reply for. */
  ghost function Owed(w: Worker, r: nat): multiset<Address> {
    if (w.Requesting? || w.Answered? || w.Holding?) && w.job.rpc == r then multiset{w.job.address}
    else multiset{}
  }

  ghost function InFlight(ws: seq<Worker>, r: nat): multiset<Address> {
    if ws == [] then multiset{} else Owed(ws[0], r) + InFlight(ws[1..], r)
  }

  ghost function Queued(jobs: seq<Work>, r: nat): multiset<Address> {
    if jobs == [] then multiset{}
    else (if jobs[0].rpc == r then multiset{jobs[0].address} else multiset{}) + Queued(jobs[1..], r)
  }

  ghost function Finisher(w: Worker, r: nat): nat {
    if w == Finishing(r) then 1 else 0
  }

  /** How many workers have replied on lane r but not yet called `Done`. */
  ghost function Finishers(ws: seq<Worker>, r: nat): nat {
    if ws == [] then 0 else Finisher(ws[0], r) + Finishers(ws[1..], r)
  }

  ghost function Addresses(sent: seq<Answer>): seq<Address> {
    seq(|sent|, i requires 0 <= i < |sent| => sent[i].address)
  }

  ghost function Repliers(sent: seq<Answer>): multiset<Address> {
    multiset(Addresses(sent))
  }

  /** Addresses of lane r that are issued and not yet replied. */
  ghost function Open(s: State, r: nat): multiset<Address> {
    Queued(s.jobs, r) + InFlight(s.workers, r)
  }

  lemma {:induction false} InFlightUpdate(ws: seq<Worker>, w: nat, worker: Worker, r: nat)
    requires w < |ws|
    ensures InFlight(ws[w := worker], r) + Owed(ws[w], r) == InFlight(ws, r) + Owed(worker, r)
  {
    var us := ws[w := worker];
    if w == 0 {
      assert us[1..] == ws[1..];
    } else {
      assert us[1..] == ws[1..][w - 1 := worker];
      InFlightUpdate(ws[1..], w - 1, worker, r);
      var rest, rest' := InFlight(ws[1..], r), InFlight(us[1..], r);
      assert InFlight(ws, r) == Owed(ws[0], r) + rest;
      assert InFlight(us, r) == Owed(ws[0], r) + rest';
      BagExchange(Owed(ws[0], r), rest, rest', Owed(ws[w], r), Owed(worker, r));
    }
  }

  lemma InFlightSame(ws: seq<Worker>, w: nat, worker: Worker, r: nat)
    requires w < |ws| && Owed(ws[w], r) == Owed(worker, r)
    ensures InFlight(ws[w := worker], r) == InFlight(ws, r)
  {
    InFlightUpdate(ws, w, worker, r);
    BagCancel(InFlight(ws[w := worker], r), InFlight(ws, r), Owed(worker, r));
  }

  lemma {:induction false} FinishersUpdate(ws: seq<Worker>, w: nat, worker: Worker, r: nat)
    requires w < |ws|
    ensures Finishers(ws[w := worker], r) + Finisher(ws[w], r) == Finishers(ws, r) + Finisher(worker, r)
  {
    if w == 0 {
      assert ws[w := worker][1..] == ws[1..];
    } else {
      assert ws[w := worker][1..] == ws[1..][w - 1 := worker];
      FinishersUpdate(ws[1..], w - 1, worker, r);
    }
  }

  lemma {:induction false} InFlightMember(ws: seq<Worker>, w: nat, r: nat)
    requires w < |ws|
    ensures Owed(ws[w], r) <= InFlight(ws, r) && Finisher(ws[w], r) <= Finishers(ws, r)
  {
    if w == 0 {
    } else {
      InFlightMember(ws[1..], w - 1, r);
    }
  }

  lemma {:induction false} QueuedAppend(jobs: seq<Work>, j: Work, r: nat)
    ensures Queued(jobs + [j], r) == Queued(jobs, r) + (if j.rpc == r then multiset{j.address} else multiset{})
  {
    if jobs == [] {
      assert ([j])[1..] == [];
    } else {
      assert (jobs + [j])[1..] == jobs[1..] + [j];
      QueuedAppend(jobs[1..], j, r);
    }
  }

  lemma {:induction false} QueuedMember(jobs: seq<Work>, i: nat)
    requires i < |jobs|
    ensures jobs[i].address in Queued(jobs, jobs[i].rpc)
  {
    if i == 0 {
    } else {
      QueuedMember(jobs[1..], i - 1);
    }
  }

  lemma RepliersAppend(sent: seq<Answer>, a: Answer)
    ensures Repliers(sent + [a]) == Repliers(sent) + multiset{a.address}
  {
    assert Addresses(sent + [a]) == Addresses(sent) + [a.address];
  }

  // ----- the invariant -----

  /** Open and replied addresses are together the issued ones, each once. */
  ghost predicate Conserved(open: multiset<Address>, sent: seq<Answer>, issued: set<Address>) {
    open + Repliers(sent) == multiset(issued)
  }

  /** A lane against the bag of its open addresses and the number of its unfinished workers. */
  ghost predicate LaneOk(nodes: set<Address>, lane: Lane, open: multiset<Address>, finishing: nat) {
    && lane.pending <= lane.chan.targets <= nodes
    && Conserved(open, lane.chan.sent, lane.chan.targets - lane.pending)
    && lane.counter + (if lane.phase.Adding? then 1 else 0) == |open| + finishing
    && lane.counter == lane.adds - lane.dones
    && (!lane.phase.Sending? && !lane.phase.Adding? ==> lane.pending == {})
    && (lane.phase.Idle? ==> lane.chan == NEW_CHAN)
    && (lane.phase.Idle? || lane.phase.Released? || lane.phase.Draining? || lane.phase.Drained? ==> lane.counter == 0)
    && (lane.chan.closed <==> lane.phase.Draining? || lane.phase.Drained?)
    && lane.chan.received <= |lane.chan.sent|
    && (!lane.chan.closed ==> lane.chan.received == 0)
    && (lane.phase.Drained? && !lane.chan.abandoned ==> lane.chan.received == |lane.chan.sent|)
  }

  /** Every answer in the channel belongs to lane r and to the given round. */
  ghost predicate Tagged(sent: seq<Answer>, r: nat, round: nat) {
    forall i :: 0 <= i < |sent| ==> sent[i].rpc == r && sent[i].round == round
  }

  /** A former channel: closed, received unless abandoned, with one reply per target of its round. */
  ghost predicate RetiredOk(nodes: set<Address>, c: Chan, r: nat, round: nat) {
    && c.closed && (!c.abandoned ==> c.received == |c.sent|) && c.targets <= nodes
    && Repliers(c.sent) == multiset(c.targets)
    && Tagged(c.sent, r, round)
  }

  ghost predicate ChansOk(nodes: set<Address>, lane: Lane, r: nat) {
    && Tagged(lane.chan.sent, r, |lane.retired|)
    && forall k :: 0 <= k < |lane.retired| ==> RetiredOk(nodes, lane.retired[k], r, k)
  }

  ghost predicate JobOk(lanes: seq<Lane>, j: Work) {
    j.rpc < |lanes| && j.round == |lanes[j.rpc].retired|
  }

  ghost predicate WorkerOk(lanes: seq<Lane>, w: Worker) {
    match w
    case Free => true
    case Requesting(j) => JobOk(lanes, j)
    case Answered(j, _) => JobOk(lanes, j)
    case Holding(j, _, id) => JobOk(lanes, j) && id == j.round
    case Finishing(r) => r < |lanes|
  }

  ghost predicate Good(s: State, r: nat)
    requires r < |s.lanes|
  {
    LaneOk(s.nodes, s.lanes[r], Open(s, r), Finishers(s.workers, r)) && ChansOk(s.nodes, s.lanes[r], r)
  }

  ghost predicate LanesOk(s: State) {
    forall r: nat :: r < |s.lanes| ==> Good(s, r)
  }

  ghost predicate TagsOk(s: State) {
    && (forall i :: 0 <= i < |s.jobs| ==> JobOk(s.lanes, s.jobs[i]))
    && (forall w :: 0 <= w < |s.workers| ==> WorkerOk(s.lanes, s.workers[w]))
  }

  ghost predicate FaultOk(s: State) {
    && (s.fault == NoFault || s.fault == NegativeCounter)
    && (s.fault == NoFault <==> forall r :: 0 <= r < |s.lanes| ==> s.lanes[r].counter >= 0)
  }

  ghost predicate Inv(s: State) {
    LanesOk(s) && TagsOk(s) && FaultOk(s) && |s.jobs| <= |s.nodes|
  }

  // ----- establishment and preservation -----

  lemma {:induction false} NothingInFlight(n: nat, r: nat)
    ensures var ws := seq(n, _ => Free); InFlight(ws, r) == multiset{} && Finishers(ws, r) == 0
  {
    if n == 0 {
    } else {
      assert seq(n, _ => Free)[1..] == seq(n - 1, _ => Free);
      NothingInFlight(n - 1, r);
    }
  }

  lemma InitialInv(nodes: set<Address>, rpcs: nat, poolSize: nat)
    ensures Inv(Initial(nodes, rpcs, poolSize))
  {
    var s := Initial(nodes, rpcs, poolSize);
    forall r: nat | r < |s.lanes| ensures Good(s, r) {
      NothingInFlight(poolSize, r);
      assert Addresses([]) == [];
    }
  }

  /** Queued, in flight and buffered replies of one lane never exceed the capacity of its channel. */
  lemma IssuedBound(s: State, r: nat)
    requires Inv(s) && r < |s.lanes|
    ensures |Queued(s.jobs, r)| + |InFlight(s.workers, r)| + |s.lanes[r].chan.sent| <= |s.nodes|
  {
    var lane := s.lanes[r];
    assert Good(s, r);
    var issued := lane.chan.targets - lane.pending;
    assert |multiset(issued)| == |issued|;
    assert |Repliers(lane.chan.sent)| == |lane.chan.sent|;
    assert s.nodes == issued + (s.nodes - issued);
  }

  /** A lane whose counter is zero outside the gap has no job in the queue and no busy worker. */
  lemma QuietLane(s: State, r: nat)
    requires Inv(s) && r < |s.lanes| && s.lanes[r].counter == 0 && !s.lanes[r].phase.Adding?
    ensures Open(s, r) == multiset{} && Finishers(s.workers, r) == 0
    ensures forall i :: 0 <= i < |s.jobs| ==> s.jobs[i].rpc != r
    ensures forall w :: 0 <= w < |s.workers| ==> Owed(s.workers[w], r) == multiset{} && s.workers[w] != Finishing(r)
  {
    assert Good(s, r);
    forall i | 0 <= i < |s.jobs| ensures s.jobs[i].rpc != r {
      QueuedMember(s.jobs, i);
    }
    forall w | 0 <= w < |s.workers| ensures Owed(s.workers[w], r) == multiset{} && s.workers[w] != Finishing(r) {
      InFlightMember(s.workers, w, r);
    }
  }

  lemma MovedLaneOk(nodes: set<Address>, lane: Lane, l: Label, open: multiset<Address>, finishing: nat)
    requires OwnLaneOnly(l) && LaneOk(nodes, lane, open, finishing)
    requires Ready(nodes, lane, l) && (l.Replace? ==> open == multiset{})
    ensures LaneOk(nodes, Moved(lane, l), open, finishing)
  {
  }

  lemma MovedChansOk(nodes: set<Address>, lane: Lane, l: Label, r: nat, finishing: nat)
    requires OwnLaneOnly(l) && ChansOk(nodes, lane, r)
    requires l.Replace? ==> lane.phase.Drained? && LaneOk(nodes, lane, multiset{}, finishing)
    ensures ChansOk(nodes, Moved(lane, l), r)
  {
    if l.Replace? {
      assert lane.chan.targets - lane.pending == lane.chan.targets;
      assert RetiredOk(nodes, lane.chan, r, |lane.retired|);
    }
  }

  /** Tags survive a step that leaves the number of retired channels of every busy lane alone. */
  lemma TagsKept(s: State, s': State)
    requires TagsOk(s) && s'.jobs == s.jobs && s'.workers == s.workers && |s'.lanes| == |s.lanes|
    requires forall i :: 0 <= i < |s.jobs| && s.jobs[i].rpc < |s.lanes| ==>
      |s'.lanes[s.jobs[i].rpc].retired| == |s.lanes[s.jobs[i].rpc].retired|
    requires forall r, w :: 0 <= r < |s.lanes| && 0 <= w < |s.workers| && Owed(s.workers[w], r) != multiset{} ==>
      |s'.lanes[r].retired| == |s.lanes[r].retired|
    ensures TagsOk(s')
  {
  }

  lemma ManagerHere(s: State, l: Label)
    requires Inv(s) && Enabled(s, l) && OwnLaneOnly(l)
    ensures LaneOk(s.nodes, Moved(s.lanes[l.rpc], l), Open(s, l.rpc), Finishers(s.workers, l.rpc))
    ensures ChansOk(s.nodes, Moved(s.lanes[l.rpc], l), l.rpc)
  {
    var r := l.rpc;
    assert Good(s, r);
    if l.Replace? {
      QuietLane(s, r);
    }
    MovedLaneOk(s.nodes, s.lanes[r], l, Open(s, r), Finishers(s.workers, r));
    MovedChansOk(s.nodes, s.lanes[r], l, r, Finishers(s.workers, r));
  }

  lemma ManagerLanes(s: State, l: Label)
    requires Inv(s) && Enabled(s, l) && OwnLaneOnly(l)
    ensures LanesOk(Apply(s, l))
  {
    var s' := Apply(s, l);
    ManagerHere(s, l);
    assert s'.lanes == s.lanes[l.rpc := Moved(s.lanes[l.rpc], l)] && s'.jobs == s.jobs && s'.workers == s.workers;
    forall q: nat | q < |s'.lanes| ensures Good(s', q) {
      assert q != l.rpc ==> Good(s, q);
    }
  }

  lemma ManagerTags(s: State, l: Label)
    requires Inv(s) && Enabled(s, l) && OwnLaneOnly(l)
    ensures TagsOk(Apply(s, l))
  {
    if l.Replace? {
      assert Good(s, l.rpc);
      QuietLane(s, l.rpc);
    }
    TagsKept(s, Apply(s, l));
  }

  lemma ManagerFault(s: State, l: Label)
    requires FaultOk(s) && Enabled(s, l) && OwnLaneOnly(l) && (l.Close? ==> !s.lanes[l.rpc].chan.closed)
    ensures FaultOk(Apply(s, l))
  {
    assert s.lanes[l.rpc].counter >= 0;
  }

  lemma ManagerStep(s: State, l: Label)
    requires Inv(s) && Enabled(s, l) && OwnLaneOnly(l)
    ensures Inv(Apply(s, l))
  {
    ManagerLanes(s, l);
    ManagerTags(s, l);
    assert Good(s, l.rpc);
    ManagerFault(s, l);
  }

  lemma SentLaneOk(nodes: set<Address>, lane: Lane, a: Address, open: multiset<Address>, finishing: nat)
    requires LaneOk(nodes, lane, open, finishing) && lane.phase.Sending? && a in lane.pending
    ensures LaneOk(nodes, lane.(phase := Adding, pending := lane.pending - {a}), open + multiset{a}, finishing)
  {
    var issued := lane.chan.targets - lane.pending;
    assert lane.chan.targets - (lane.pending - {a}) == issued + {a};
    assert multiset(issued + {a}) == multiset(issued) + multiset{a};
    BagExchange(Repliers(lane.chan.sent), open, open + multiset{a}, multiset{}, multiset{a});
  }

  lemma SendHere(s: State, s': State, r: nat, a: Address, j: Work)
    requires r < |s.lanes| && Good(s, r) && s.lanes[r].phase.Sending? && a in s.lanes[r].pending
    requires r < |s'.lanes| && s'.lanes[r] == s.lanes[r].(phase := Adding, pending := s.lanes[r].pending - {a})
    requires s'.nodes == s.nodes && s'.workers == s.workers && s'.jobs == s.jobs + [j]
    requires j.rpc == r && j.address == a
    ensures Good(s', r)
  {
    QueuedAppend(s.jobs, j, r);
    BagRotate(InFlight(s.workers, r), Queued(s.jobs, r), multiset{a});
    assert Open(s', r) == Open(s, r) + multiset{a};
    SentLaneOk(s.nodes, s.lanes[r], a, Open(s, r), Finishers(s.workers, r));
  }

  lemma SendElsewhere(s: State, s': State, j: Work, q: nat)
    requires q < |s.lanes| && Good(s, q) && q < |s'.lanes| && s'.lanes[q] == s.lanes[q]
    requires s'.nodes == s.nodes && s'.workers == s.workers && s'.jobs == s.jobs + [j] && j.rpc != q
    ensures Good(s', q)
  {
    QueuedAppend(s.jobs, j, q);
  }

  lemma SendStep(s: State, r: nat, a: Address)
    requires Inv(s) && Enabled(s, Send(r, a))
    ensures Inv(Apply(s, Send(r, a)))
  {
    var s' := Apply(s, Send(r, a));
    var j := Work(a, r, |s.lanes[r].retired|);
    forall q: nat | q < |s'.lanes| ensures Good(s', q) {
      if q == r {
        SendHere(s, s', r, a, j);
      } else {
        SendElsewhere(s, s', j, q);
      }
    }
    TagsKept(s, s'.(jobs := s.jobs));
  }

  lemma TakeKeepsOpen(jobs: seq<Work>, ws: seq<Worker>, w: nat, q: nat)
    requires jobs != [] && w < |ws| && ws[w].Free?
    ensures Queued(jobs[1..], q) + InFlight(ws[w := Requesting(jobs[0])], q) == Queued(jobs, q) + InFlight(ws, q)
    ensures Finishers(ws[w := Requesting(jobs[0])], q) == Finishers(ws, q)
  {
    var worker := Requesting(jobs[0]);
    InFlightUpdate(ws, w, worker, q);
    FinishersUpdate(ws, w, worker, q);
    BagRotate(Owed(worker, q), Queued(jobs[1..], q), InFlight(ws, q));
  }

  lemma TakeStep(s: State, w: nat)
    requires Inv(s) && Enabled(s, Take(w))
    ensures Inv(Apply(s, Take(w)))
  {
    var s' := Apply(s, Take(w));
    forall q: nat | q < |s'.lanes| ensures Good(s', q) {
      assert Good(s, q);
      TakeKeepsOpen(s.jobs, s.workers, w, q);
    }
    assert JobOk(s.lanes, s.jobs[0]);
    assert forall i :: 0 <= i < |s'.jobs| ==> s'.jobs[i] == s.jobs[i + 1];
  }

  lemma BystanderLane(s: State, s': State, w: nat, worker: Worker, q: nat)
    requires q < |s.lanes| && Good(s, q) && w < |s.workers|
    requires q < |s'.lanes| && s'.lanes[q] == s.lanes[q]
    requires s'.nodes == s.nodes && s'.jobs == s.jobs && s'.workers == s.workers[w := worker]
    requires Owed(s.workers[w], q) == Owed(worker, q) && Finisher(s.workers[w], q) == Finisher(worker, q)
    ensures Good(s', q)
  {
    InFlightSame(s.workers, w, worker, q);
    FinishersUpdate(s.workers, w, worker, q);
  }

  /** The labels with which a worker moves on while owing the same address. */
  lemma OwingStep(s: State, l: Label)
    requires Inv(s) && Enabled(s, l) && (l.Respond? || l.Lookup?)
    ensures Inv(Apply(s, l))
  {
    var s' := Apply(s, l);
    var w := l.worker;
    assert WorkerOk(s.lanes, s.workers[w]);
    forall q: nat | q < |s'.lanes| ensures Good(s', q) {
      BystanderLane(s, s', w, s'.workers[w], q);
    }
  }

  /** A worker holding a reply holds its lane's current channel, which is open and has room. */
  lemma HeldChannelAccepts(s: State, w: nat)
    requires Inv(s) && w < |s.workers| && s.workers[w].Holding?
    ensures WorkerOk(s.lanes, s.workers[w])
    ensures var lane := s.lanes[s.workers[w].job.rpc];
      && s.workers[w].chanId == |lane.retired|
      && !lane.chan.closed
      && |lane.chan.sent| - lane.chan.received < |s.nodes|
  {
    assert WorkerOk(s.lanes, s.workers[w]);
    var r := s.workers[w].job.rpc;
    assert Good(s, r);
    InFlightMember(s.workers, w, r);
    var a := s.workers[w].job.address;
    var flying := InFlight(s.workers, r);
    assert flying == (flying - multiset{a}) + multiset{a};
    assert |flying| >= 1;
    IssuedBound(s, r);
  }

  lemma DeliveredLaneOk(nodes: set<Address>, lane: Lane, answer: Answer, open: multiset<Address>, finishing: nat)
    requires LaneOk(nodes, lane, open + multiset{answer.address}, finishing) && !lane.chan.closed
    requires !lane.phase.Idle?
    ensures LaneOk(nodes, lane.(chan := lane.chan.(sent := lane.chan.sent + [answer])), open, finishing + 1)
  {
    RepliersAppend(lane.chan.sent, answer);
    var x := multiset{answer.address};
    assert open + (Repliers(lane.chan.sent) + x) == (open + x) + Repliers(lane.chan.sent);
  }

  lemma DeliverReleases(ws: seq<Worker>, jobs: seq<Work>, w: nat, r: nat)
    requires w < |ws| && ws[w].Holding? && r == ws[w].job.rpc
    ensures Queued(jobs, r) + InFlight(ws, r)
         == (Queued(jobs, r) + InFlight(ws[w := Finishing(r)], r)) + multiset{ws[w].job.address}
    ensures Finishers(ws[w := Finishing(r)], r) == Finishers(ws, r) + 1
  {
    InFlightUpdate(ws, w, Finishing(r), r);
    FinishersUpdate(ws, w, Finishing(r), r);
    BagAssoc(Queued(jobs, r), InFlight(ws[w := Finishing(r)], r), multiset{ws[w].job.address});
  }

  lemma DeliverHere(s: State, s': State, w: nat, r: nat, answer: Answer)
    requires w < |s.workers| && s.workers[w].Holding? && r == s.workers[w].job.rpc < |s.lanes|
    requires Good(s, r) && !s.lanes[r].chan.closed
    requires answer.address == s.workers[w].job.address && answer.rpc == r && answer.round == |s.lanes[r].retired|
    requires r < |s'.lanes|
    requires s'.lanes[r] == s.lanes[r].(chan := s.lanes[r].chan.(sent := s.lanes[r].chan.sent + [answer]))
    requires s'.nodes == s.nodes && s'.jobs == s.jobs && s'.workers == s.workers[w := Finishing(r)]
    ensures Good(s', r)
  {
    DeliverReleases(s.workers, s.jobs, w, r);
    assert Open(s, r) == Open(s', r) + multiset{answer.address};
    assert answer.address in Open(s, r);
    DeliveredLaneOk(s.nodes, s.lanes[r], answer, Open(s', r), Finishers(s.workers, r));
  }

  lemma DeliverLanes(s: State, w: nat)
    requires Inv(s) && Enabled(s, Deliver(w))
    ensures LanesOk(Apply(s, Deliver(w)))
  {
    HeldChannelAccepts(s, w);
    var s' := Apply(s, Deliver(w));
    var job := s.workers[w].job;
    forall q: nat | q < |s'.lanes| ensures Good(s', q) {
      if q == job.rpc {
        DeliverHere(s, s', w, q, Answer(job.address, q, job.round, s.workers[w].outcome));
      } else {
        BystanderLane(s, s', w, Finishing(job.rpc), q);
      }
    }
  }

  lemma DeliverStep(s: State, w: nat)
    requires Inv(s) && Enabled(s, Deliver(w))
    ensures Inv(Apply(s, Deliver(w)))
  {
    HeldChannelAccepts(s, w);
    DeliverLanes(s, w);
    TagsKept(s, Apply(s, Deliver(w)).(workers := s.workers));
  }

  lemma DoneLaneOk(nodes: set<Address>, lane: Lane, open: multiset<Address>, finishing: nat)
    requires LaneOk(nodes, lane, open, finishing + 1)
    ensures LaneOk(nodes, lane.(counter := lane.counter - 1, dones := lane.dones + 1), open, finishing)
  {
  }

  /** A `Done` leaves the open jobs of the lane alone and has one worker less to come. */
  lemma DoneCounts(s: State, s': State, w: nat, r: nat)
    requires w < |s.workers| && s.workers[w] == Finishing(r)
    requires s'.jobs == s.jobs && s'.workers == s.workers[w := Free]
    ensures Open(s', r) == Open(s, r) && Finishers(s'.workers, r) + 1 == Finishers(s.workers, r)
  {
    InFlightSame(s.workers, w, Free, r);
    FinishersUpdate(s.workers, w, Free, r);
  }

  lemma DoneHere(s: State, s': State, w: nat, r: nat)
    requires w < |s.workers| && s.workers[w] == Finishing(r) && r < |s.lanes| && Good(s, r)
    requires r < |s'.lanes|
    requires s'.lanes[r] == s.lanes[r].(counter := s.lanes[r].counter - 1, dones := s.lanes[r].dones + 1)
    requires s'.nodes == s.nodes && s'.jobs == s.jobs && s'.workers == s.workers[w := Free]
    ensures Good(s', r)
  {
    DoneCounts(s, s', w, r);
    DoneLaneOk(s.nodes, s.lanes[r], Open(s, r), Finishers(s'.workers, r));
  }

  lemma DoneLane(s: State, s': State, w: nat, r: nat, q: nat)
    requires w < |s.workers| && s.workers[w] == Finishing(r) && r < |s.lanes| && q < |s.lanes| && Good(s, q)
    requires s'.lanes == s.lanes[r := s.lanes[r].(counter := s.lanes[r].counter - 1, dones := s.lanes[r].dones + 1)]
    requires s'.nodes == s.nodes && s'.jobs == s.jobs && s'.workers == s.workers[w := Free]
    ensures Good(s', q)
  {
    if q == r {
      DoneHere(s, s', w, r);
    } else {
      assert Finisher(s.workers[w], q) == 0;
      BystanderLane(s, s', w, Free, q);
    }
  }

  lemma DoneLanes(s: State, w: nat)
    requires LanesOk(s) && Enabled(s, Done(w))
    ensures LanesOk(Apply(s, Done(w)))
  {
    var s' := Apply(s, Done(w));
    var r := s.workers[w].rpc;
    forall q: nat | q < |s'.lanes| ensures Good(s', q) {
      DoneLane(s, s', w, r, q);
    }
  }

  lemma DoneStep(s: State, w: nat)
    requires Inv(s) && Enabled(s, Done(w))
    ensures Inv(Apply(s, Done(w)))
  {
    var s' := Apply(s, Done(w));
    DoneLanes(s, w);
    assert TagsOk(s') by {
      TagsKept(s, s'.(workers := s.workers));
    }
    var r := s.workers[w].rpc;
    assert s'.lanes[r].counter == s.lanes[r].counter - 1;
  }

  lemma StepKeepsInv(s: State, l: Label)
    requires Inv(s) && Enabled(s, l)
    ensures Inv(Apply(s, l))
  {
    match l
    case Send(r, a) => SendStep(s, r, a);
    case Take(w) => TakeStep(s, w);
    case Respond(_, _) => OwingStep(s, l);
    case Lookup(_) => OwingStep(s, l);
    case Deliver(w) => DeliverStep(s, w);
    case Done(w) => DoneStep(s, w);
    case _ => ManagerStep(s, l);
  }

  /** Every state of every run satisfies the invariant. */
  lemma {:induction false} RunKeepsInv(s: State, ls: seq<Label>)
    requires Inv(s) && CanRun(s, ls)
    ensures Inv(After(s, ls))
    decreases |ls|
  {
    if ls == [] {
    } else {
      StepKeepsInv(s, ls[0]);
      RunKeepsInv(Apply(s, ls[0]), ls[1..]);
    }
  }
}
