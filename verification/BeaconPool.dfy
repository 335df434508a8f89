/**
 `getBeaconHeaders`: a pool of its own, with unbuffered channels.  The producer closes `requests`
 when it has handed out every address; the worker that brings the atomic countdown to zero closes
 `data`; the main loop ranges over `data`.
 */
module BeaconPool {
  import opened Polling

  datatype Worker =
    | Ranging                                         // at `range requests`
    | Requesting(address: Address)
    | Replying(address: Address, outcome: Outcome)    // at `data <- result`
    | Last                                            // brought the countdown to zero
    | Exited

  /** `answered` logs what each request returned; no transition reads it. */
  datatype State = State(
    todo: set<Address>, requestsClosed: bool,
    workers: seq<Worker>, exits: nat,
    dataClosed: bool, closes: nat,
    ret: map<Address, Option<string>>, success: nat, finished: bool,
    answered: map<Address, Outcome>, panicked: bool)

  datatype Label =
    | Handoff(worker: nat, address: Address)
    | CloseRequests
    | Respond(worker: nat, outcome: Outcome)
    | Deliver(worker: nat)
    | Exit(worker: nat)
    | CloseData(worker: nat)
    | Finish

  const INT32_SPAN: int := 0x1_0000_0000

  /** The addresses asked: those of a shard other than 0. */
  function Targets(shardMap: map<Address, int>): set<Address> {
    set a | a in shardMap && shardMap[a] != 0
  }

  function Initial(shardMap: map<Address, int>, poolSize: nat): State {
    State(Targets(shardMap), false, seq(poolSize, _ => Ranging), 0, false, 0, map[], 0, false, map[], false)
  }

  predicate Enabled(s: State, l: Label) {
    !s.panicked &&
    match l
    case Handoff(w, a) => w < |s.workers| && s.workers[w].Ranging? && a in s.todo
    case CloseRequests => s.todo == {} && !s.requestsClosed
    case Respond(w, _) => w < |s.workers| && s.workers[w].Requesting?
    case Deliver(w) => w < |s.workers| && s.workers[w].Replying? && (s.dataClosed || !s.finished)
    case Exit(w) => w < |s.workers| && s.workers[w].Ranging? && s.requestsClosed
    case CloseData(w) => w < |s.workers| && s.workers[w].Last?
    case Finish => s.dataClosed && !s.finished
  }

  /** The header the main loop stores for an outcome: nil for a failed request. */
  function Stored(o: Outcome): Option<string> {
    if o.Body? then Some(o.bytes) else None
  }

  /** What the atomic counter reads, up to a multiple of 2^32, once the given number of workers have left. */
  function Countdown(poolSize: nat, exits: int): int {
    (poolSize - exits) % INT32_SPAN
  }

  function Apply(s: State, l: Label): State
    requires Enabled(s, l)
  {
    match l
    case Handoff(w, a) => s.(todo := s.todo - {a}, workers := s.workers[w := Requesting(a)])
    case CloseRequests => s.(requestsClosed := true)
    case Respond(w, o) =>
      var a := s.workers[w].address;
      s.(workers := s.workers[w := Replying(a, o)], answered := s.answered[a := o])
    case Deliver(w) =>
      if s.dataClosed then s.(panicked := true) else
      var Replying(a, o) := s.workers[w];
      s.(workers := s.workers[w := Ranging],
         ret := s.ret[a := Stored(o)],
         success := s.success + if o.Body? then 1 else 0)
    case Exit(w) =>
      var zero := Countdown(|s.workers|, s.exits + 1) == 0;
      s.(workers := s.workers[w := if zero then Last else Exited], exits := s.exits + 1)
    case CloseData(w) =>
      if s.dataClosed then s.(panicked := true)
      else s.(workers := s.workers[w := Exited], dataClosed := true, closes := s.closes + 1)
    case Finish => s.(finished := true)
  }

  predicate CanRun(s: State, ls: seq<Label>)
    decreases |ls|
  {
    ls == [] || (Enabled(s, ls[0]) && CanRun(Apply(s, ls[0]), ls[1..]))
  }

  function After(s: State, ls: seq<Label>): State
    requires CanRun(s, ls)
    decreases |ls|
  {
    if ls == [] then s else After(Apply(s, ls[0]), ls[1..])
  }

  // ----- the invariant -----

  ghost function HeldBy(w: Worker): multiset<Address> {
    if w.Requesting? || w.Replying? then multiset{w.address} else multiset{}
  }

  ghost function Held(ws: seq<Worker>): multiset<Address> {
    if ws == [] then multiset{} else HeldBy(ws[0]) + Held(ws[1..])
  }

  function Left(w: Worker): nat {
    if w.Last? || w.Exited? then 1 else 0
  }

  /** How many workers have left their loop. */
  ghost function Gone(ws: seq<Worker>): nat {
    if ws == [] then 0 else Left(ws[0]) + Gone(ws[1..])
  }

  lemma {:induction false} HeldUpdate(ws: seq<Worker>, w: nat, worker: Worker)
    requires w < |ws|
    ensures Held(ws[w := worker]) + HeldBy(ws[w]) == Held(ws) + HeldBy(worker)
  {
    var us := ws[w := worker];
    if w == 0 {
      assert us[1..] == ws[1..];
    } else {
      assert us[1..] == ws[1..][w - 1 := worker];
      HeldUpdate(ws[1..], w - 1, worker);
      BagExchange(HeldBy(ws[0]), Held(ws[1..]), Held(us[1..]), HeldBy(ws[w]), HeldBy(worker));
    }
  }

  /** What the pool holds is what worker w holds and what the others hold. */
  lemma HeldApart(ws: seq<Worker>, w: nat)
    requires w < |ws|
    ensures Held(ws) == Held(ws[w := Ranging]) + HeldBy(ws[w])
  {
    HeldUpdate(ws, w, Ranging);
  }

  lemma {:induction false} GoneUpdate(ws: seq<Worker>, w: nat, worker: Worker)
    requires w < |ws|
    ensures Gone(ws[w := worker]) + Left(ws[w]) == Gone(ws) + Left(worker)
  {
    if w == 0 {
      assert ws[w := worker][1..] == ws[1..];
    } else {
      assert ws[w := worker][1..] == ws[1..][w - 1 := worker];
      GoneUpdate(ws[1..], w - 1, worker);
    }
  }

  lemma {:induction false} GoneBound(ws: seq<Worker>)
    ensures Gone(ws) <= |ws|
    ensures Gone(ws) == |ws| ==> forall w :: 0 <= w < |ws| ==> ws[w].Last? || ws[w].Exited?
    ensures Gone(ws) < |ws| ==> exists w :: 0 <= w < |ws| && !ws[w].Last? && !ws[w].Exited?
  {
    if ws == [] {
    } else {
      GoneBound(ws[1..]);
      if Gone(ws) < |ws| && Left(ws[0]) == 1 {
        var w :| 0 <= w < |ws[1..]| && !ws[1..][w].Last? && !ws[1..][w].Exited?;
        assert ws[w + 1] == ws[1..][w];
      }
    }
  }

  lemma {:induction false} NobodyHolds(ws: seq<Worker>)
    requires forall w :: 0 <= w < |ws| ==> !ws[w].Requesting? && !ws[w].Replying?
    ensures Held(ws) == multiset{}
  {
    if ws == [] {
    } else {
      NobodyHolds(ws[1..]);
    }
  }

  lemma {:induction false} HeldMember(ws: seq<Worker>, w: nat)
    requires w < |ws|
    ensures HeldBy(ws[w]) <= Held(ws)
  {
    if w == 0 {
    } else {
      HeldMember(ws[1..], w - 1);
    }
  }

  ghost predicate Split(targets: set<Address>, todo: set<Address>, held: multiset<Address>, done: set<Address>) {
    multiset(targets) == multiset(todo) + (held + multiset(done))
  }

  /** Every target is exactly one of: yet to hand out, held by one worker, in the result. */
  ghost predicate AddressesOk(s: State, targets: set<Address>) {
    Split(targets, s.todo, Held(s.workers), s.ret.Keys)
  }

  ghost function Answers(ret: map<Address, Option<string>>): set<Address> {
    set a | a in ret && ret[a].Some?
  }

  ghost predicate ResultsOk(s: State) {
    && (forall a :: a in s.ret ==> a in s.answered && s.ret[a] == Stored(s.answered[a]))
    && (forall a :: a in s.answered ==>
          a in s.ret || exists w :: 0 <= w < |s.workers| && s.workers[w] == Replying(a, s.answered[a]))
    && (forall w :: 0 <= w < |s.workers| && s.workers[w].Replying? ==>
          s.workers[w].address in s.answered && s.answered[s.workers[w].address] == s.workers[w].outcome)
    && s.success == |Answers(s.ret)|
  }

  ghost predicate ShutdownOk(s: State) {
    && s.exits == Gone(s.workers)
    && (s.exits > 0 ==> s.requestsClosed)
    && (s.requestsClosed ==> s.todo == {})
    && s.closes == (if s.dataClosed then 1 else 0)
    && (s.finished ==> s.dataClosed)
    && (s.dataClosed ==> s.exits == |s.workers|)
    && (forall w :: 0 <= w < |s.workers| && s.workers[w].Last? ==> s.exits == |s.workers| && !s.dataClosed)
    && (s.exits == |s.workers| && !s.dataClosed ==> exists w :: 0 <= w < |s.workers| && s.workers[w].Last?)
    && (forall v, w :: 0 <= v < w < |s.workers| ==> !(s.workers[v].Last? && s.workers[w].Last?))
  }

  ghost predicate Inv(s: State, targets: set<Address>) {
    && 0 < |s.workers| <= INT32_SPAN && !s.panicked
    && AddressesOk(s, targets) && ResultsOk(s) && ShutdownOk(s)
  }

  lemma {:induction false} FreshPool(n: nat)
    ensures var ws := seq(n, _ => Ranging); Held(ws) == multiset{} && Gone(ws) == 0
  {
    if n == 0 {
    } else {
      assert seq(n, _ => Ranging)[1..] == seq(n - 1, _ => Ranging);
      FreshPool(n - 1);
    }
  }

  lemma InitialInv(shardMap: map<Address, int>, poolSize: nat)
    requires 0 < poolSize <= INT32_SPAN
    ensures Inv(Initial(shardMap, poolSize), Targets(shardMap))
  {
    FreshPool(poolSize);
  }

  /** While a worker is in its loop, `data` is open. */
  lemma OpenWhileBusy(s: State, targets: set<Address>, w: nat)
    requires Inv(s, targets) && w < |s.workers| && !s.workers[w].Last? && !s.workers[w].Exited?
    ensures !s.dataClosed && s.exits < |s.workers|
  {
    GoneBound(s.workers);
  }

  /** Every target is accounted for once, so an address in hand is not in the result. */
  lemma HeldIsNew(s: State, targets: set<Address>, w: nat)
    requires AddressesOk(s, targets) && w < |s.workers| && (s.workers[w].Requesting? || s.workers[w].Replying?)
    ensures s.workers[w].address !in s.ret && s.workers[w].address !in s.todo
  {
    var a := s.workers[w].address;
    HeldMember(s.workers, w);
    assert Held(s.workers)[a] >= 1;
    assert multiset(targets)[a] <= 1;
    assert multiset(targets)[a] == multiset(s.todo)[a] + (Held(s.workers)[a] + multiset(s.ret.Keys)[a]);
  }

  lemma HandoffSplit(targets: set<Address>, todo: set<Address>, held: multiset<Address>, done: set<Address>, a: Address)
    requires Split(targets, todo, held, done) && a in todo
    ensures Split(targets, todo - {a}, held + multiset{a}, done)
  {
  }

  lemma DeliverSplit(targets: set<Address>, todo: set<Address>, held: multiset<Address>, done: set<Address>, a: Address)
    requires Split(targets, todo, held + multiset{a}, done) && a !in done
    ensures Split(targets, todo, held, done + {a})
  {
  }

  lemma DeliverAddresses(s: State, targets: set<Address>, w: nat)
    requires AddressesOk(s, targets) && Enabled(s, Deliver(w)) && !s.dataClosed
    ensures AddressesOk(Apply(s, Deliver(w)), targets)
  {
    var s' := Apply(s, Deliver(w));
    var a := s.workers[w].address;
    HeldIsNew(s, targets, w);
    HeldApart(s.workers, w);
    DeliverSplit(targets, s.todo, Held(s'.workers), s.ret.Keys, a);
    assert s'.ret.Keys == s.ret.Keys + {a};
  }

  lemma HandoffAddresses(s: State, targets: set<Address>, w: nat, a: Address)
    requires AddressesOk(s, targets) && Enabled(s, Handoff(w, a))
    ensures AddressesOk(Apply(s, Handoff(w, a)), targets)
  {
    HeldUpdate(s.workers, w, Requesting(a));
    HandoffSplit(targets, s.todo, Held(s.workers), s.ret.Keys, a);
    assert Held(s.workers[w := Requesting(a)]) == Held(s.workers) + multiset{a};
  }

  lemma SameHeld(s: State, targets: set<Address>, s': State, w: nat, worker: Worker)
    requires AddressesOk(s, targets) && w < |s.workers| && HeldBy(worker) == HeldBy(s.workers[w])
    requires s'.workers == s.workers[w := worker] && s'.todo == s.todo && s'.ret == s.ret
    ensures AddressesOk(s', targets)
  {
    HeldUpdate(s.workers, w, worker);
    BagCancel(Held(s'.workers), Held(s.workers), HeldBy(worker));
  }

  lemma RespondAddresses(s: State, targets: set<Address>, w: nat, o: Outcome)
    requires AddressesOk(s, targets) && Enabled(s, Respond(w, o))
    ensures AddressesOk(Apply(s, Respond(w, o)), targets)
  {
    SameHeld(s, targets, Apply(s, Respond(w, o)), w, Replying(s.workers[w].address, o));
  }

  lemma ExitAddresses(s: State, targets: set<Address>, w: nat)
    requires AddressesOk(s, targets) && Enabled(s, Exit(w))
    ensures AddressesOk(Apply(s, Exit(w)), targets)
  {
    SameHeld(s, targets, Apply(s, Exit(w)), w, if Countdown(|s.workers|, s.exits + 1) == 0 then Last else Exited);
  }

  lemma CloseAddresses(s: State, targets: set<Address>, w: nat)
    requires AddressesOk(s, targets) && Enabled(s, CloseData(w)) && !s.dataClosed
    ensures AddressesOk(Apply(s, CloseData(w)), targets)
  {
    SameHeld(s, targets, Apply(s, CloseData(w)), w, Exited);
  }

  lemma AddressesKept(s: State, targets: set<Address>, l: Label)
    requires AddressesOk(s, targets) && Enabled(s, l) && !Apply(s, l).panicked
    ensures AddressesOk(Apply(s, l), targets)
  {
    match l
    case Handoff(w, a) => HandoffAddresses(s, targets, w, a);
    case Deliver(w) => DeliverAddresses(s, targets, w);
    case Respond(w, o) => RespondAddresses(s, targets, w, o);
    case Exit(w) => ExitAddresses(s, targets, w);
    case CloseData(w) => CloseAddresses(s, targets, w);
    case _ =>
  }

  lemma OnceEach(s: State, targets: set<Address>, a: Address)
    requires AddressesOk(s, targets)
    ensures Held(s.workers)[a] <= 1
  {
    assert multiset(targets)[a] <= 1;
    assert multiset(targets)[a] == multiset(s.todo)[a] + (Held(s.workers)[a] + multiset(s.ret.Keys)[a]);
  }

  /** No two workers hold the same address. */
  lemma TwoHolders(s: State, targets: set<Address>, v: nat, w: nat)
    requires AddressesOk(s, targets) && v < |s.workers| && w < |s.workers| && v != w
    requires s.workers[v].Requesting? || s.workers[v].Replying?
    requires s.workers[w].Requesting? || s.workers[w].Replying?
    ensures s.workers[v].address != s.workers[w].address
  {
    var a := s.workers[w].address;
    var us := s.workers[w := Ranging];
    HeldApart(s.workers, w);
    HeldMember(us, v);
    if s.workers[v].address == a {
      assert HeldBy(us[v])[a] == 1 <= Held(us)[a];
      OnceEach(s, targets, a);
    }
  }

  lemma RespondResults(s: State, targets: set<Address>, w: nat, o: Outcome)
    requires AddressesOk(s, targets) && ResultsOk(s) && Enabled(s, Respond(w, o))
    ensures ResultsOk(Apply(s, Respond(w, o)))
  {
    var s' := Apply(s, Respond(w, o));
    var a := s.workers[w].address;
    HeldIsNew(s, targets, w);
    forall v | 0 <= v < |s.workers| && v != w && s.workers[v].Replying? ensures s.workers[v].address != a {
      TwoHolders(s, targets, v, w);
    }
    forall b | b in s'.answered
      ensures b in s'.ret || exists v :: 0 <= v < |s'.workers| && s'.workers[v] == Replying(b, s'.answered[b])
    {
      if b == a {
        assert s'.workers[w] == Replying(a, o);
      } else if b !in s.ret {
        var v :| 0 <= v < |s.workers| && s.workers[v] == Replying(b, s.answered[b]);
        assert s'.workers[v] == s.workers[v];
      }
    }
  }

  lemma AnswersGrow(ret: map<Address, Option<string>>, a: Address, o: Outcome)
    requires a !in ret
    ensures |Answers(ret[a := Stored(o)])| == |Answers(ret)| + if o.Body? then 1 else 0
  {
    assert Answers(ret[a := Stored(o)]) == Answers(ret) + (if o.Body? then {a} else {});
  }

  lemma DeliverResults(s: State, targets: set<Address>, w: nat)
    requires AddressesOk(s, targets) && ResultsOk(s) && Enabled(s, Deliver(w)) && !s.dataClosed
    ensures ResultsOk(Apply(s, Deliver(w)))
  {
    var s' := Apply(s, Deliver(w));
    var a, o := s.workers[w].address, s.workers[w].outcome;
    HeldIsNew(s, targets, w);
    AnswersGrow(s.ret, a, o);
    forall b | b in s'.answered
      ensures b in s'.ret || exists v :: 0 <= v < |s'.workers| && s'.workers[v] == Replying(b, s'.answered[b])
    {
      if b !in s'.ret {
        var v :| 0 <= v < |s.workers| && s.workers[v] == Replying(b, s.answered[b]);
        assert s'.workers[v] == s.workers[v];
      }
    }
  }

  lemma QuietResults(s: State, s': State, w: nat, worker: Worker)
    requires ResultsOk(s) && w < |s.workers| && !worker.Replying? && !s.workers[w].Replying?
    requires s'.workers == s.workers[w := worker]
    requires s'.ret == s.ret && s'.answered == s.answered && s'.success == s.success
    ensures ResultsOk(s')
  {
    forall b | b in s'.answered
      ensures b in s'.ret || exists v :: 0 <= v < |s'.workers| && s'.workers[v] == Replying(b, s'.answered[b])
    {
      if b !in s.ret {
        var v :| 0 <= v < |s.workers| && s.workers[v] == Replying(b, s.answered[b]);
        assert s'.workers[v] == s.workers[v];
      }
    }
  }

  lemma ResultsKept(s: State, targets: set<Address>, l: Label)
    requires AddressesOk(s, targets) && ResultsOk(s) && Enabled(s, l) && !Apply(s, l).panicked
    ensures ResultsOk(Apply(s, l))
  {
    match l
    case Respond(w, o) => RespondResults(s, targets, w, o);
    case Deliver(w) => DeliverResults(s, targets, w);
    case Handoff(w, a) => QuietResults(s, Apply(s, l), w, Requesting(a));
    case Exit(w) => QuietResults(s, Apply(s, l), w, Apply(s, l).workers[w]);
    case CloseData(w) => QuietResults(s, Apply(s, l), w, Exited);
    case _ =>
  }

  lemma ExitShutdown(s: State, targets: set<Address>, w: nat)
    requires Inv(s, targets) && Enabled(s, Exit(w))
    ensures ShutdownOk(Apply(s, Exit(w)))
  {
    var s' := Apply(s, Exit(w));
    OpenWhileBusy(s, targets, w);
    GoneUpdate(s.workers, w, s'.workers[w]);
    var left := |s.workers| - s'.exits;
    assert 0 <= left < INT32_SPAN;
    assert left % INT32_SPAN == left;
    assert s'.workers[w].Last? <==> s'.exits == |s.workers|;
  }

  lemma BusyShutdown(s: State, targets: set<Address>, l: Label)
    requires Inv(s, targets) && Enabled(s, l) && (l.Handoff? || l.Respond? || l.Deliver?)
    ensures !Apply(s, l).panicked && ShutdownOk(Apply(s, l))
  {
    OpenWhileBusy(s, targets, l.worker);
    GoneUpdate(s.workers, l.worker, Apply(s, l).workers[l.worker]);
  }

  lemma CloseShutdown(s: State, targets: set<Address>, w: nat)
    requires Inv(s, targets) && Enabled(s, CloseData(w))
    ensures !Apply(s, CloseData(w)).panicked && ShutdownOk(Apply(s, CloseData(w)))
  {
    GoneUpdate(s.workers, w, Exited);
  }

  lemma StepKeepsInv(s: State, targets: set<Address>, l: Label)
    requires Inv(s, targets) && Enabled(s, l)
    ensures Inv(Apply(s, l), targets)
  {
    match l {
      case Exit(w) => ExitShutdown(s, targets, w);
      case CloseData(w) => CloseShutdown(s, targets, w);
      case CloseRequests =>
      case Finish =>
      case _ => BusyShutdown(s, targets, l);
    }
    AddressesKept(s, targets, l);
    ResultsKept(s, targets, l);
  }

  lemma {:induction false} RunKeepsInv(s: State, targets: set<Address>, ls: seq<Label>)
    requires Inv(s, targets) && CanRun(s, ls)
    ensures Inv(After(s, ls), targets) && |After(s, ls).workers| == |s.workers|
    decreases |ls|
  {
    if ls == [] {
    } else {
      StepKeepsInv(s, targets, ls[0]);
      RunKeepsInv(Apply(s, ls[0]), targets, ls[1..]);
    }
  }

  // ----- theorems -----

  /** A state of some schedule of `getBeaconHeaders(poolSize, shardMap)`. */
  ghost predicate Reachable(shardMap: map<Address, int>, poolSize: nat, s: State) {
    exists ls :: CanRun(Initial(shardMap, poolSize), ls) && s == After(Initial(shardMap, poolSize), ls)
  }

  lemma ReachableInv(shardMap: map<Address, int>, poolSize: nat, s: State)
    requires 0 < poolSize <= INT32_SPAN && Reachable(shardMap, poolSize, s)
    ensures Inv(s, Targets(shardMap)) && |s.workers| == poolSize
  {
    var s0 := Initial(shardMap, poolSize);
    var ls :| CanRun(s0, ls) && s == After(s0, ls);
    InitialInv(shardMap, poolSize);
    RunKeepsInv(s0, Targets(shardMap), ls);
  }

  /** No schedule panics; `data` is closed at most once, and only after every worker has left its loop. */
  lemma ClosedOnceByTheLast(shardMap: map<Address, int>, poolSize: nat, s: State)
    requires 0 < poolSize <= INT32_SPAN && Reachable(shardMap, poolSize, s)
    ensures !s.panicked && s.closes == (if s.dataClosed then 1 else 0)
    ensures s.dataClosed ==> s.todo == {} && forall w :: 0 <= w < |s.workers| ==> s.workers[w].Exited?
  {
    ReachableInv(shardMap, poolSize, s);
    GoneBound(s.workers);
  }

  lemma NothingLeft(targets: set<Address>, done: set<Address>)
    requires Split(targets, {}, multiset{}, done)
    ensures targets == done
  {
    forall a ensures a in targets <==> a in done {
      assert a in multiset(targets) <==> a in multiset(done);
    }
  }

  lemma FailuresCounted(ret: map<Address, Option<string>>, answered: map<Address, Outcome>)
    requires ret.Keys == answered.Keys && forall a :: a in ret ==> ret[a] == Stored(answered[a])
    ensures |ret| - |Answers(ret)| == |set a | a in answered && answered[a].Oops?|
  {
    var failed := set a | a in answered && answered[a].Oops?;
    assert ret.Keys == Answers(ret) + failed;
    assert Answers(ret) !! failed;
    assert |ret| == |ret.Keys|;
  }

  lemma ResultMatchesLog(shardMap: map<Address, int>, poolSize: nat, s: State)
    requires 0 < poolSize <= INT32_SPAN && Reachable(shardMap, poolSize, s) && s.finished
    ensures s.ret.Keys == Targets(shardMap) == s.answered.Keys && s.closes == 1
    ensures forall a :: a in s.ret ==> s.ret[a] == Stored(s.answered[a])
    ensures |s.ret| - s.success == |set a | a in s.answered && s.answered[a].Oops?|
  {
    ClosedOnceByTheLast(shardMap, poolSize, s);
    ReachableInv(shardMap, poolSize, s);
    NobodyHolds(s.workers);
    NothingLeft(Targets(shardMap), s.ret.Keys);
    assert s.answered.Keys == s.ret.Keys;
    FailuresCounted(s.ret, s.answered);
  }

  ghost predicate RespondsNow(s: State, l: Label, a: Address, o: Outcome) {
    l.Respond? && l.outcome == o && l.worker < |s.workers| && s.workers[l.worker] == Requesting(a)
  }

  /** In the schedule, a worker that was requesting the address got the outcome. */
  ghost predicate Responded(s: State, ls: seq<Label>, a: Address, o: Outcome)
    requires CanRun(s, ls)
    decreases |ls|
  {
    ls != [] && (RespondsNow(s, ls[0], a, o) || Responded(Apply(s, ls[0]), ls[1..], a, o))
  }

  ghost predicate Logged(s: State, a: Address, o: Outcome) {
    a in s.answered && s.answered[a] == o
  }

  /** An address that is being requested has no outcome yet: no request is made twice. */
  lemma RequestIsNew(s: State, targets: set<Address>, w: nat)
    requires AddressesOk(s, targets) && ResultsOk(s) && w < |s.workers| && s.workers[w].Requesting?
    ensures s.workers[w].address !in s.answered
  {
    HeldIsNew(s, targets, w);
    forall v | 0 <= v < |s.workers| && v != w && s.workers[v].Replying?
      ensures s.workers[v].address != s.workers[w].address
    {
      TwoHolders(s, targets, v, w);
    }
  }

  lemma StepLogs(s: State, targets: set<Address>, l: Label, a: Address, o: Outcome)
    requires Inv(s, targets) && Enabled(s, l)
    ensures Logged(Apply(s, l), a, o) <==> Logged(s, a, o) || RespondsNow(s, l, a, o)
  {
    if l.Respond? {
      RequestIsNew(s, targets, l.worker);
    }
  }

  /** The log is the schedule. */
  lemma {:induction false} LogIsSchedule(s: State, targets: set<Address>, ls: seq<Label>, a: Address, o: Outcome)
    requires Inv(s, targets) && CanRun(s, ls)
    ensures Logged(After(s, ls), a, o) <==> Logged(s, a, o) || Responded(s, ls, a, o)
    decreases |ls|
  {
    if ls == [] {
    } else {
      StepLogs(s, targets, ls[0], a, o);
      StepKeepsInv(s, targets, ls[0]);
      LogIsSchedule(Apply(s, ls[0]), targets, ls[1..], a, o);
    }
  }

  /**
   The result when the main loop ends: one entry per address of a shard other than 0; a header
   exactly where the request returned that body, nil exactly where it failed; and the failed count
   is the number of nils.
   */
  lemma ResultIsComplete(shardMap: map<Address, int>, poolSize: nat, ls: seq<Label>)
    requires 0 < poolSize <= INT32_SPAN && CanRun(Initial(shardMap, poolSize), ls)
    requires After(Initial(shardMap, poolSize), ls).finished
    ensures var s0 := Initial(shardMap, poolSize); var s := After(s0, ls);
      && s.closes == 1
      && (forall a :: a in s.ret <==> a in shardMap && shardMap[a] != 0)
      && (forall a, body :: Responded(s0, ls, a, Body(body)) <==> a in s.ret && s.ret[a] == Some(body))
      && (forall a :: a in s.ret && s.ret[a].None? <==>
            exists reason, payload :: Responded(s0, ls, a, Oops(reason, payload)))
      && |s.ret| - s.success == |set a | a in s.ret && s.ret[a].None?|
  {
    var s0 := Initial(shardMap, poolSize);
    var s := After(s0, ls);
    assert Reachable(shardMap, poolSize, s);
    ResultMatchesLog(shardMap, poolSize, s);
    InitialInv(shardMap, poolSize);
    forall a, o ensures Responded(s0, ls, a, o) <==> Logged(s, a, o) {
      LogIsSchedule(s0, Targets(shardMap), ls, a, o);
    }
    forall a | a in s.ret && s.ret[a].None?
      ensures exists reason, payload :: Responded(s0, ls, a, Oops(reason, payload))
    {
      var o := s.answered[a];
      assert Responded(s0, ls, a, Oops(o.reason, o.payload));
    }
    assert (set a | a in s.ret && s.ret[a].None?) == (set a | a in s.answered && s.answered[a].Oops?);
  }

  /** Until the main loop has ended, some goroutine can move: there is no deadlock. */
  lemma Progress(s: State, targets: set<Address>) returns (l: Label)
    requires Inv(s, targets) && !s.finished
    ensures Enabled(s, l)
  {
    GoneBound(s.workers);
    if s.exits == |s.workers| {
      if s.dataClosed {
        l := Finish;
      } else {
        var w :| 0 <= w < |s.workers| && s.workers[w].Last?;
        l := CloseData(w);
      }
    } else {
      var w :| 0 <= w < |s.workers| && !s.workers[w].Last? && !s.workers[w].Exited?;
      match s.workers[w]
      case Requesting(_) => l := Respond(w, Body(""));
      case Replying(_, _) => l := Deliver(w);
      case Ranging =>
        if s.todo != {} {
          var a :| a in s.todo;
          l := Handoff(w, a);
        } else {
          l := if s.requestsClosed then Exit(w) else CloseRequests;
        }
    }
  }

  function WorkerCost(w: Worker): nat {
    match w
    case Exited => 0 case Last => 1 case Ranging => 3 case Replying(_, _) => 4 case Requesting(_) => 5
  }

  ghost function WorkersCost(ws: seq<Worker>): nat {
    if ws == [] then 0 else WorkerCost(ws[0]) + WorkersCost(ws[1..])
  }

  ghost function Measure(s: State): nat {
    3 * |s.todo| + WorkersCost(s.workers) + (if s.requestsClosed then 0 else 1) + (if s.finished then 0 else 1)
  }

  lemma {:induction false} WorkersCostUpdate(ws: seq<Worker>, w: nat, worker: Worker)
    requires w < |ws|
    ensures WorkersCost(ws[w := worker]) == WorkersCost(ws) - WorkerCost(ws[w]) + WorkerCost(worker)
  {
    if w == 0 {
      assert ws[w := worker][1..] == ws[1..];
    } else {
      assert ws[w := worker][1..] == ws[1..][w - 1 := worker];
      WorkersCostUpdate(ws[1..], w - 1, worker);
    }
  }

  lemma StepPays(s: State, targets: set<Address>, l: Label)
    requires Inv(s, targets) && Enabled(s, l)
    ensures Measure(Apply(s, l)) < Measure(s)
  {
    StepKeepsInv(s, targets, l);
    var s' := Apply(s, l);
    if !l.CloseRequests? && !l.Finish? {
      WorkersCostUpdate(s.workers, l.worker, s'.workers[l.worker]);
    }
    if l.Handoff? {
      assert s.todo == s'.todo + {l.address};
    }
  }

  lemma {:induction false} RunPays(s: State, targets: set<Address>, ls: seq<Label>)
    requires Inv(s, targets) && CanRun(s, ls)
    ensures |ls| + Measure(After(s, ls)) <= Measure(s)
    decreases |ls|
  {
    if ls == [] {
    } else {
      StepPays(s, targets, ls[0]);
      StepKeepsInv(s, targets, ls[0]);
      RunPays(Apply(s, ls[0]), targets, ls[1..]);
    }
  }

  lemma {:induction false} FreshCost(n: nat)
    ensures WorkersCost(seq(n, _ => Ranging)) == 3 * n
  {
    if n == 0 {
    } else {
      assert seq(n, _ => Ranging)[1..] == seq(n - 1, _ => Ranging);
      FreshCost(n - 1);
    }
  }

  /** Every schedule is finite. */
  lemma SchedulesAreFinite(shardMap: map<Address, int>, poolSize: nat, ls: seq<Label>)
    requires 0 < poolSize <= INT32_SPAN && CanRun(Initial(shardMap, poolSize), ls)
    ensures |ls| <= 3 * |Targets(shardMap)| + 3 * poolSize + 2
  {
    var s0 := Initial(shardMap, poolSize);
    InitialInv(shardMap, poolSize);
    RunPays(s0, Targets(shardMap), ls);
    FreshCost(poolSize);
  }

  /** A schedule that cannot be continued has ended the main loop: there is no deadlock. */
  lemma StuckMeansFinished(shardMap: map<Address, int>, poolSize: nat, s: State)
    requires 0 < poolSize <= INT32_SPAN && Reachable(shardMap, poolSize, s)
    requires forall l :: !Enabled(s, l)
    ensures s.finished
  {
    ReachableInv(shardMap, poolSize, s);
    if !s.finished {
      var l := Progress(s, Targets(shardMap));
    }
  }

  /** The pool must not be empty: without a worker nobody closes `data` and the main loop never ends. */
  lemma {:induction false} EmptyPoolNeverEnds(s: State, ls: seq<Label>)
    requires s.workers == [] && !s.dataClosed && !s.finished && CanRun(s, ls)
    ensures !After(s, ls).finished && !After(s, ls).dataClosed
    decreases |ls|
  {
  }

  /** The countdown reads zero only for the last worker exactly when the pool fits the int32 range. */
  lemma CountdownSinglesOutTheLast(poolSize: nat)
    ensures (forall exits {:trigger Countdown(poolSize, exits)} ::
              0 < exits < poolSize ==> Countdown(poolSize, exits) != 0) <==> poolSize <= INT32_SPAN
  {
    if poolSize > INT32_SPAN {
      assert Countdown(poolSize, poolSize - INT32_SPAN) == 0;
    }
  }
}
