/** What the scheduler's clients get: requests served in order on the machines they name, the machine queue
    first in first out, and no request or worker that is blocked without a reason. */
module SchedulerService {
  import opened Prelude
  import opened Scheduler

  // ---- which request an analysis serves ----

  /** The requests handed to queue_analysis so far. */
  function Submitted(events: seq<Event>): seq<Request> {
    if events == [] then [] else
    var e := events[|events| - 1];
    Submitted(events[..|events| - 1]) + if e.Submit? then [e.req] else []
  }

  /** The machine is the one the request asks for: named, of its own, or from the queue. */
  predicate Suits(req: Request, machine: Option<Name>, fromQueue: bool) {
    match req.want
    case FromQueue => fromQueue && machine.Some?
    case Listed(n) => !fromQueue && machine == Some(n)
    case OtherVm => !fromQueue && machine.None?
    case Absent => false
  }

  /** The request being set up is the last one fetched; it is what stopped the scheduler, if it did, because
      its machine is absent or its script has no class. */
  ghost predicate AtWork(s: State, subs: seq<Request>)
    requires 0 < |s.workers| <= |subs|
  {
    var req := subs[|s.workers| - 1];
    match s.control
    case Enlisting(r) => r == req
    case Choosing(r) => r == req
    case Starting(r, name, fromQueue) => r == req && Suits(req, name, fromQueue)
    case Stopped(held) =>
      (req.want.Absent? || !req.loads) && (held.Some? <==> req.want.FromQueue?)
    case _ => true
  }

  /** Worker i, once started, serves request i, and what is not fetched is still queued in order. */
  ghost predicate InOrder(s: State, subs: seq<Request>) {
    && |s.workers| <= |subs| && s.requests == subs[|s.workers|..]
    && (SettingUp(s.control) ==> |s.workers| > 0 && s.current == Some(|s.workers| - 1) && AtWork(s, subs))
    && (forall i :: 0 <= i < |s.workers| && s.workers[i].pc != Created ==>
          subs[i].loads && Suits(subs[i], s.workers[i].machine, s.workers[i].fromQueue))
  }

  lemma SubmitInOrder(s: State, subs: seq<Request>, req: Request)
    requires InOrder(s, subs)
    ensures InOrder(Step(s, Submit(req)), subs + [req])
  {
    assert (subs + [req])[|s.workers|..] == subs[|s.workers|..] + [req];
  }

  lemma FetchInOrder(s: State, subs: seq<Request>, aid: Id)
    requires Inv(s) && InOrder(s, subs) && s.control.Fetching?
    ensures InOrder(SchedStep(s, aid), subs)
  {
    if s.requests != [] {
      assert s.requests[0] == subs[|s.workers|] && s.requests[1..] == subs[|s.workers| + 1..];
    }
  }

  lemma SchedInOrder(s: State, subs: seq<Request>, aid: Id)
    requires Inv(s) && InOrder(s, subs)
    ensures InOrder(SchedStep(s, aid), subs)
  {
    if s.control.Fetching? {
      FetchInOrder(s, subs, aid);
    }
  }

  lemma WorkInOrder(s: State, subs: seq<Request>, i: Id, t: State)
    requires WorkFrame(s, i, t) && InOrder(s, subs)
    ensures InOrder(t, subs)
  {
  }

  /** In every interleaving the j-th analysis serves the j-th request submitted, and once started it has
      the machine that request names, a machine of its own, or one taken from the queue. */
  lemma {:induction false} ServedInOrder(machines: seq<Name>, events: seq<Event>)
    ensures InOrder(Run(Start(machines), events), Submitted(events))
  {
    if events != [] {
      var before, e := events[..|events| - 1], events[|events| - 1];
      var s := Run(Start(machines), before);
      ServedInOrder(machines, before);
      RunInv(machines, before);
      assert Submitted(before) + [] == Submitted(before);
      match e
      case Put =>
      case Submit(req) => SubmitInOrder(s, Submitted(before), req);
      case Sched(aid) => SchedInOrder(s, Submitted(before), aid);
      case Work(i) =>
        if i < |s.workers| {
          WorkFrames(s, i);
          WorkInOrder(s, Submitted(before), i, WorkStep(s, i));
        }
    }
  }

  // ---- named machines ----

  predicate NoneRaised(s: State) {
    forall i :: 0 <= i < |s.workers| ==> !s.workers[i].raised
  }

  lemma StepNoneRaised(s: State, e: Event)
    requires Inv(s) && NoneRaised(s)
    ensures NoneRaised(Step(s, e))
  {
    if e.Work? && e.id < |s.workers| {
      assert Agrees(s, e.id);
    }
  }

  /** In every interleaving no worker ever fails to find itself in a list, terminated ones included. */
  lemma {:induction false} NobodyRaises(machines: seq<Name>, events: seq<Event>)
    ensures NoneRaised(Run(Start(machines), events))
  {
    if events != [] {
      NobodyRaises(machines, events[..|events| - 1]);
      RunInv(machines, events[..|events| - 1]);
      StepNoneRaised(Run(Start(machines), events[..|events| - 1]), events[|events| - 1]);
    }
  }

  /** Between taking the machine's mutex and releasing it. */
  predicate Busy(w: Worker) {
    w.pc == Locked || w.pc == Moving || w.pc == Working
  }

  /** In every interleaving two analyses whose requests name the same machine are never both at work. */
  lemma NamedMachineIsExclusive(machines: seq<Name>, events: seq<Event>, i: Id, j: Id, n: Name)
    requires i < j < |Run(Start(machines), events).workers|
    requires j < |Submitted(events)|
    requires Submitted(events)[i].want == Listed(n) && Submitted(events)[j].want == Listed(n)
    ensures var s := Run(Start(machines), events); !(Busy(s.workers[i]) && Busy(s.workers[j]))
  {
    ServedInOrder(machines, events);
    NobodyRaises(machines, events);
    WorkersAreTracked(machines, events);
  }

  /** A locked machine is locked by the worker that is at work on it. */
  ghost predicate LockedByBusy(s: State) {
    forall n :: n in s.mutex ==>
      s.mutex[n] < |s.workers| && Busy(s.workers[s.mutex[n]]) && s.workers[s.mutex[n]].machine == Some(n)
  }

  /** The scheduler touches no mutex and moves no worker that is started. */
  lemma SchedLeavesAtWork(s: State, aid: Id, j: Id)
    requires CurrentInv(s) && j < |s.workers| && s.workers[j].pc != Created
    ensures var t := SchedStep(s, aid);
            && t.mutex == s.mutex && j < |t.workers|
            && t.workers[j].pc == s.workers[j].pc && t.workers[j].machine == s.workers[j].machine
  {
  }

  lemma SchedLockedByBusy(s: State, aid: Id)
    requires Inv(s) && LockedByBusy(s)
    ensures LockedByBusy(SchedStep(s, aid))
  {
    var t := SchedStep(s, aid);
    forall n | n in t.mutex
      ensures t.mutex[n] < |t.workers| && Busy(t.workers[t.mutex[n]]) && t.workers[t.mutex[n]].machine == Some(n)
    {
      assert t.mutex == s.mutex;
      SchedLeavesAtWork(s, aid, s.mutex[n]);
    }
  }

  lemma WorkLockedByBusy(s: State, i: Id)
    requires Inv(s) && NoneRaised(s) && LockedByBusy(s) && i < |s.workers|
    ensures LockedByBusy(WorkStep(s, i))
  {
    assert Agrees(s, i);
    WorkFramesOthers(s, i);
  }

  lemma StepLockedByBusy(s: State, e: Event)
    requires Inv(s) && NoneRaised(s) && LockedByBusy(s)
    ensures LockedByBusy(Step(s, e))
  {
    match e
    case Put =>
    case Submit(_) =>
    case Sched(aid) => SchedLockedByBusy(s, aid);
    case Work(i) =>
      if i < |s.workers| {
        WorkLockedByBusy(s, i);
      }
  }

  /** In every interleaving a machine is locked only while the worker that locked it is between taking and
      releasing its mutex: nobody leaves a machine locked behind, except by being terminated there. */
  lemma {:induction false} LocksAreHeld(machines: seq<Name>, events: seq<Event>)
    ensures LockedByBusy(Run(Start(machines), events))
  {
    if events != [] {
      var before := events[..|events| - 1];
      LocksAreHeld(machines, before);
      RunInv(machines, before);
      NobodyRaises(machines, before);
      StepLockedByBusy(Run(Start(machines), before), events[|events| - 1]);
    }
  }

  // ---- the machine queue ----

  /** The machines put into the queue so far: the controller's, and those of returning workers. */
  function PutLog(machines: seq<Name>, events: seq<Event>): seq<Name> {
    if events == [] then [] else
    var before, e := events[..|events| - 1], events[|events| - 1];
    var s := Run(Start(machines), before);
    PutLog(machines, before) + (
      if e.Put? && s.toPut != [] then [s.toPut[0]]
      else if e.Work? && e.id < |s.workers| && s.workers[e.id].pc == Unlisted && Holding(s.workers[e.id])
              && !s.workers[e.id].killed then [s.workers[e.id].machine.value]
      else [])
  }

  /** The machines the scheduler set out to start an analysis on, from the queue. */
  function TakeLog(machines: seq<Name>, events: seq<Event>): seq<Name> {
    if events == [] then [] else
    var before, e := events[..|events| - 1], events[|events| - 1];
    var s, t := Run(Start(machines), before), Run(Start(machines), events);
    TakeLog(machines, before) + (
      if e.Sched? && s.control.Choosing? && t.control.Starting? && t.control.fromQueue && t.control.name.Some?
      then [t.control.name.value] else [])
  }

  /** What one event does to the queue. */
  lemma QueueStep(s: State, e: Event)
    requires Inv(s) && NoneRaised(s)
    ensures var t := Step(s, e);
            if e.Put? && s.toPut != [] then t.free == s.free + [s.toPut[0]]
            else if e.Work? && e.id < |s.workers| && s.workers[e.id].pc == Unlisted && Holding(s.workers[e.id])
                    && !s.workers[e.id].killed then t.free == s.free + [s.workers[e.id].machine.value]
            else if e.Sched? && s.control.Choosing? && t.control.Starting? && t.control.fromQueue
                    && t.control.name.Some? then s.free == [t.control.name.value] + t.free
            else t.free == s.free
  {
  }

  /** In every interleaving the queue is first in first out: what was taken and what is free, in this
      order, is what was put. The controller puts the machines in the order of the list. */
  lemma {:induction false} QueueIsFifo(machines: seq<Name>, events: seq<Event>)
    ensures PutLog(machines, events) == TakeLog(machines, events) + Run(Start(machines), events).free
  {
    if events != [] {
      var before, e := events[..|events| - 1], events[|events| - 1];
      QueueIsFifo(machines, before);
      RunInv(machines, before);
      NobodyRaises(machines, before);
      QueueStep(Run(Start(machines), before), e);
    }
  }

  lemma ToPutStep(s: State, e: Event)
    ensures Step(s, e).toPut == s.toPut || (s.toPut != [] && Step(s, e).toPut == s.toPut[1..])
  {
  }

  lemma {:induction false} PutInOrder(machines: seq<Name>, events: seq<Event>)
    ensures var toPut := Run(Start(machines), events).toPut;
            |toPut| <= |machines| && toPut == machines[|machines| - |toPut|..]
  {
    if events != [] {
      PutInOrder(machines, events[..|events| - 1]);
      ToPutStep(Run(Start(machines), events[..|events| - 1]), events[|events| - 1]);
    }
  }

  // ---- nothing blocks without a reason ----

  lemma {:induction false} PutAll(s: State) returns (events: seq<Event>)
    ensures (forall k :: 0 <= k < |events| ==> events[k].Put?)
    ensures Run(s, events) == s.(toPut := [], free := s.free + s.toPut)
    decreases |s.toPut|
  {
    if s.toPut == [] {
      events := [];
      assert s.free + s.toPut == s.free;
    } else {
      var t := Step(s, Put);
      var rest := PutAll(t);
      RunOne(s, Put);
      RunConcat(s, [Put], rest);
      events := [Put] + rest;
      assert t.free + t.toPut == s.free + s.toPut;
    }
  }

  /** Between two requests nothing but the engines and their processes changes. */
  predicate Between(s: State, t: State) {
    && t.requests == s.requests && t.free == s.free && t.toPut == s.toPut && t.current == s.current
    && |t.workers| == |s.workers|
  }

  /** It drops everything it condemned and turns to the next request. */
  lemma {:induction false} DropAll(s: State) returns (events: seq<Event>)
    requires s.control.Dropping?
    ensures SchedulerOnly(events) && Run(s, events).control.Fetching? && Between(s, Run(s, events))
    decreases if s.control.Dropping? then s.control.rem else {}
  {
    if s.control.rem == {} {
      events := [Sched(0)];
      RunOne(s, Sched(0));
    } else {
      var b :| b in s.control.rem;
      var rest := DropAll(Step(s, Sched(b)));
      RunOne(s, Sched(b));
      RunConcat(s, [Sched(b)], rest);
      events := [Sched(b)] + rest;
    }
  }

  predicate Cleaning(c: Control) {
    c.Scanning? || c.Checking? || c.Dropping? || c.Fetching?
  }

  /** From anywhere in the clean-up the scheduler alone comes to the next request. */
  lemma ReachFetching(s: State) returns (events: seq<Event>)
    requires Cleaning(s.control)
    ensures SchedulerOnly(events) && Run(s, events).control.Fetching? && Between(s, Run(s, events))
  {
    if s.control.Fetching? {
      events := [];
    } else if s.control.Dropping? {
      events := DropAll(s);
    } else {
      var first := if s.control.Checking? then [Sched(0)] else [];
      RunOne(s, Sched(0));
      var t := Run(s, first);
      var scan, rem := ScanRest(t);
      RunConcat(s, first, scan);
      var drop := DropAll(t.(control := Dropping(rem)));
      RunConcat(s, first + scan, drop);
      events := first + scan + drop;
    }
  }

  /** The request at the head can be started now. */
  predicate Startable(s: State) {
    && s.requests != [] && s.requests[0].loads && !s.requests[0].want.Absent?
    && (s.requests[0].want.FromQueue? ==> s.free != [])
  }

  /** A worker just started on a machine that suits the request. */
  predicate Started(req: Request, w: Worker) {
    w.pc == Waiting && !w.killed && !w.raised && Suits(req, w.machine, w.fromQueue)
  }

  /** The request at the head of s has been started in t. */
  predicate HeadStarted(s: State, t: State) {
    && s.requests != [] && t.requests == s.requests[1..] && t.control.Scanning?
    && |t.workers| == |s.workers| + 1 && Started(s.requests[0], t.workers[|s.workers|])
  }

  function Repeat(s: State, n: nat): State {
    if n == 0 then s else Step(Repeat(s, n - 1), Sched(0))
  }

  /** The five operations that start it. */
  lemma StartNext(s: State)
    requires s.control.Fetching? && Startable(s)
    ensures HeadStarted(s, Repeat(s, 5))
  {
    var a := Step(s, Sched(0));
    var b := Step(a, Sched(0));
    var c := Step(b, Sched(0));
    var d := Step(c, Sched(0));
    assert Repeat(s, 0) == s && Repeat(s, 1) == a && Repeat(s, 2) == b && Repeat(s, 3) == c && Repeat(s, 4) == d;
    assert HeadStarted(s, Step(d, Sched(0)));
  }

  lemma {:induction false} SchedSteps(s: State, n: nat) returns (events: seq<Event>)
    ensures SchedulerOnly(events) && Run(s, events) == Repeat(s, n)
  {
    if n == 0 {
      events := [];
    } else {
      var before := SchedSteps(s, n - 1);
      RunOne(Repeat(s, n - 1), Sched(0));
      RunConcat(s, before, [Sched(0)]);
      events := before + [Sched(0)];
    }
  }

  lemma BetweenStarted(s: State, u: State, t: State)
    requires Between(s, u) && HeadStarted(u, t)
    ensures HeadStarted(s, t)
  {
  }

  /** From every state between two requests, if the next request's script loads, its machine exists and, if
      it wants one from the queue, one is free, the scheduler alone goes on to start it. */
  lemma NextRequestStarts(s: State) returns (events: seq<Event>)
    requires Cleaning(s.control) && Startable(s)
    ensures SchedulerOnly(events) && HeadStarted(s, Run(s, events))
  {
    var clean := ReachFetching(s);
    var u := Run(s, clean);
    StartNext(u);
    var start := SchedSteps(u, 5);
    RunConcat(s, clean, start);
    events := clean + start;
    BetweenStarted(s, u, Repeat(u, 5));
  }

  function Rank(pc: Pc): nat {
    match pc
    case Created => 7
    case Waiting => 6
    case Locked => 5
    case Moving => 4
    case Working => 3
    case Closing => 2
    case Unlisted => 1
    case Exited => 0
  }

  /** A live worker that does not wait for a mutex. */
  predicate Free(s: State, i: Id) {
    && i < |s.workers| && !s.workers[i].killed && s.workers[i].pc != Created
    && (s.workers[i].pc == Waiting && s.workers[i].machine.Some? ==> s.workers[i].machine.value !in s.mutex)
  }

  lemma WorkerMoves(s: State, i: Id)
    requires Inv(s) && Free(s, i) && s.workers[i].pc != Exited
    ensures var t, w := WorkStep(s, i), s.workers[i];
            && Free(t, i) && Rank(t.workers[i].pc) == Rank(w.pc) - 1 && |t.workers| == |s.workers|
            && t.workers[i].machine == w.machine && t.workers[i].fromQueue == w.fromQueue
            && t.free == s.free + (if w.pc == Unlisted && Holding(w) then [w.machine.value] else [])
  {
    assert Agrees(s, i);
    assert s.free + [] == s.free;
  }

  /** From every reachable state a live worker whose machine is not locked by another comes to its end on its
      own, and a machine it took from the queue is put back. */
  lemma {:induction false} WorkerCanExit(s: State, i: Id) returns (events: seq<Event>)
    requires Inv(s) && Free(s, i)
    ensures forall k :: 0 <= k < |events| ==> events[k] == Work(i)
    ensures var t := Run(s, events);
            && |t.workers| == |s.workers| && t.workers[i].pc == Exited
            && t.free == s.free + if Holding(s.workers[i]) then [s.workers[i].machine.value] else []
    decreases if i < |s.workers| then Rank(s.workers[i].pc) else 0
  {
    if s.workers[i].pc == Exited {
      events := [];
      assert s.free + [] == s.free;
    } else {
      var t := WorkStep(s, i);
      WorkerMoves(s, i);
      StepInv(s, Work(i));
      var rest := WorkerCanExit(t, i);
      RunOne(s, Work(i));
      RunConcat(s, [Work(i)], rest);
      events := [Work(i)] + rest;
    }
  }
}
