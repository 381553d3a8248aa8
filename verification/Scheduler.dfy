/** The machine scheduler: one `LophiScheduler` process, the worker processes it starts
    (`LophiAnalysis.run`), the controller filling the machine queue, and the shared queued/running
    lists, interleaved at the grain of single queue and list operations. */
module Scheduler {
  import opened Prelude

  datatype Name = Name(text: string)
  type Id = nat

  /** Which machine a command asks for; an `Absent` one makes the scheduler return. */
  datatype Want = FromQueue | Listed(name: Name) | OtherVm | Absent

  /** `loads` is whether load_analysis found a class in the script. */
  datatype Request = Request(want: Want, loads: bool)

  /** Where a worker process is in `run`:
      Created   engine object only, no process yet
      Waiting   started, before `with machine.MUTEX`
      Locked    before queued.remove
      Moving    between queued.remove and running.append
      Working   in the running list, inside the mutex
      Closing   mutex released, before running.remove
      Unlisted  between running.remove and machine_queue.put
      Exited    returned */
  datatype Pc = Created | Waiting | Locked | Moving | Working | Closing | Unlisted | Exited

  /** `killed`: terminated by the engine's __del__. `raised`: a list remove failed. */
  datatype Worker = Worker(pc: Pc, machine: Option<Name>, fromQueue: bool, killed: bool, raised: bool)

  /** The next operation of the scheduler's loop. */
  datatype Control =
    | Scanning(todo: set<Id>, rem: set<Id>)            // next `aid not in ANALYSIS_QUEUED`
    | Checking(aid: Id, todo: set<Id>, rem: set<Id>)   // next `aid not in ANALYSIS_RUNNING`
    | Dropping(rem: set<Id>)                           // ANALYSIS_DICT.pop, del
    | Fetching                                         // analysis_queue.get, new engine
    | Enlisting(req: Request)                          // ANALYSIS_QUEUED.append
    | Choosing(req: Request)                           // machine_queue.get, or the machine asked for
    | Starting(req: Request, name: Option<Name>, fromQueue: bool)
    | Recording                                        // ANALYSIS_DICT.update
    | Stopped(held: Option<Name>)                      // returned, or died holding a queue machine

  /** `engines` are the ids in ANALYSIS_DICT; `current` is what run()'s local variable refers to.
      Engine ids are positions in `workers`. */
  datatype State = State(
    toPut: seq<Name>,
    free: seq<Name>,
    requests: seq<Request>,
    queued: seq<Id>,
    running: seq<Id>,
    workers: seq<Worker>,
    engines: set<Id>,
    current: Option<Id>,
    mutex: map<Name, Id>,
    control: Control)

  datatype Event = Put | Submit(req: Request) | Sched(aid: Id) | Work(id: Id)

  function Start(machines: seq<Name>): State {
    State(machines, [], [], [], [], [], {}, None, map[], Scanning({}, {}))
  }

  function RemoveFirst(s: seq<Id>, x: Id): (r: seq<Id>)
    ensures forall y :: y != x ==> (y in r <==> y in s)
    ensures forall y :: y in r ==> y in s
    ensures Distinct(s) ==> Distinct(r) && x !in r
  {
    if s == [] then []
    else if s[0] == x then s[1..]
    else
      assert forall i :: 0 <= i < |s| - 1 ==> s[1..][i] == s[i + 1];
      assert Distinct(s) ==> s[0] !in s[1..];
      [s[0]] + RemoveFirst(s[1..], x)
  }

  /** __del__ of an engine nothing refers to any more: terminate its process. */
  function Kill(ws: seq<Worker>, i: Id): seq<Worker> {
    if i < |ws| then ws[i := ws[i].(killed := true)] else ws
  }

  function SchedStep(s: State, aid: Id): State {
    match s.control
    case Scanning(todo, rem) =>
      if todo == {} then s.(control := Dropping(rem))
      else if aid !in todo then s
      else if aid in s.queued then s.(control := Scanning(todo - {aid}, rem))
      else s.(control := Checking(aid, todo - {aid}, rem))
    case Checking(a, todo, rem) =>
      s.(control := Scanning(todo, if a in s.running then rem else rem + {a}))
    case Dropping(rem) =>
      if rem == {} then s.(control := Fetching)
      else if aid !in rem then s
      else s.(control := Dropping(rem - {aid}),
              engines := s.engines - {aid},
              workers := if s.current == Some(aid) then s.workers else Kill(s.workers, aid))
    case Fetching =>
      if s.requests == [] then s else
      var id := |s.workers|;
      var more := s.workers + [Worker(Created, None, false, false, false)];
      var orphan := s.current.Some? && s.current.value !in s.engines;
      s.(requests := s.requests[1..],
         current := Some(id),
         workers := if orphan then Kill(more, s.current.value) else more,
         control := Enlisting(s.requests[0]))
    case Enlisting(req) =>
      if s.current.None? then s
      else s.(queued := s.queued + [s.current.value], control := Choosing(req))
    case Choosing(req) => (
      match req.want
      case FromQueue =>
        if s.free == [] then s
        else s.(free := s.free[1..], control := Starting(req, Some(s.free[0]), true))
      case Listed(n) => s.(control := Starting(req, Some(n), false))
      case OtherVm => s.(control := Starting(req, None, false))
      case Absent => s.(control := Stopped(None)))
    case Starting(req, name, fromQueue) =>
      if !req.loads then s.(control := Stopped(if fromQueue then name else None))
      else if s.current.None? || s.current.value >= |s.workers| then s
      else s.(workers := s.workers[s.current.value := Worker(Waiting, name, fromQueue, false, false)],
              control := Recording)
    case Recording =>
      if s.current.None? then s
      else s.(engines := s.engines + {s.current.value},
              control := Scanning(s.engines + {s.current.value}, {}))
    case Stopped(_) => s
  }

  function SetWorker(s: State, i: Id, w: Worker): State
    requires i < |s.workers|
  {
    s.(workers := s.workers[i := w])
  }

  function Unlock(m: map<Name, Id>, machine: Option<Name>): map<Name, Id> {
    if machine.Some? then m - {machine.value} else m
  }

  /** One operation of a worker. The analysis itself may succeed or raise: `run` catches both alike. */
  function WorkStep(s: State, i: Id): State {
    if i >= |s.workers| || s.workers[i].killed || s.workers[i].raised then s else
    var w := s.workers[i];
    match w.pc
    case Created => s
    case Waiting =>
      if w.machine.None? then SetWorker(s, i, w.(pc := Locked))
      else if w.machine.value in s.mutex then s
      else SetWorker(s, i, w.(pc := Locked)).(mutex := s.mutex[w.machine.value := i])
    case Locked =>
      if i in s.queued
      then SetWorker(s, i, w.(pc := Moving)).(queued := RemoveFirst(s.queued, i))
      else SetWorker(s, i, w.(raised := true)).(mutex := Unlock(s.mutex, w.machine))
    case Moving => SetWorker(s, i, w.(pc := Working)).(running := s.running + [i])
    case Working => SetWorker(s, i, w.(pc := Closing)).(mutex := Unlock(s.mutex, w.machine))
    case Closing =>
      if i in s.running
      then SetWorker(s, i, w.(pc := Unlisted)).(running := RemoveFirst(s.running, i))
      else SetWorker(s, i, w.(raised := true))
    case Unlisted =>
      var t := SetWorker(s, i, w.(pc := Exited));
      if w.fromQueue && w.machine.Some? then t.(free := s.free + [w.machine.value]) else t
    case Exited => s
  }

  /** One event; an event that cannot happen changes nothing. */
  function Step(s: State, e: Event): State {
    match e
    case Put => if s.toPut == [] then s else s.(toPut := s.toPut[1..], free := s.free + [s.toPut[0]])
    case Submit(req) => s.(requests := s.requests + [req])
    case Sched(aid) => SchedStep(s, aid)
    case Work(i) => WorkStep(s, i)
  }

  function Run(s: State, events: seq<Event>): State {
    if events == [] then s else Step(Run(s, events[..|events| - 1]), events[|events| - 1])
  }

  // ---- where the queue's machines are ----

  /** 1 if the worker has taken machine n from the queue and not put it back, alive or not. */
  function Own(w: Worker, n: Name): nat {
    if w.fromQueue && w.pc != Exited && w.machine == Some(n) then 1 else 0
  }

  function Held(ws: seq<Worker>, n: Name): nat {
    if ws == [] then 0 else Held(ws[..|ws| - 1], n) + Own(ws[|ws| - 1], n)
  }

  function AtScheduler(c: Control, n: Name): nat {
    match c
    case Starting(_, name, fromQueue) => if fromQueue && name == Some(n) then 1 else 0
    case Stopped(held) => if held == Some(n) then 1 else 0
    case _ => 0
  }

  /** How often machine n exists: not yet put, in the queue, at the scheduler, with a worker. */
  function Total(s: State, n: Name): nat {
    multiset(s.toPut)[n] + multiset(s.free)[n] + AtScheduler(s.control, n) + Held(s.workers, n)
  }

  lemma {:induction false} HeldUpdate(ws: seq<Worker>, i: nat, w: Worker, n: Name)
    requires i < |ws|
    ensures Held(ws[i := w], n) + Own(ws[i], n) == Held(ws, n) + Own(w, n)
  {
    var last := |ws| - 1;
    if i < last {
      HeldUpdate(ws[..last], i, w, n);
      assert ws[i := w][..last] == ws[..last][i := w];
    } else {
      assert ws[i := w][..last] == ws[..last];
    }
  }

  lemma KillHeld(ws: seq<Worker>, i: nat, n: Name)
    ensures Held(Kill(ws, i), n) == Held(ws, n)
  {
    if i < |ws| {
      HeldUpdate(ws, i, ws[i].(killed := true), n);
    }
  }

  lemma AppendHeld(ws: seq<Worker>, w: Worker, n: Name)
    ensures Held(ws + [w], n) == Held(ws, n) + Own(w, n)
  {
    assert (ws + [w])[..|ws|] == ws;
  }

  lemma TakeFirst(s: seq<Name>, n: Name)
    requires s != []
    ensures multiset(s)[n] == multiset(s[1..])[n] + if s[0] == n then 1 else 0
  {
    assert s == [s[0]] + s[1..];
  }

  lemma AddLast(s: seq<Name>, x: Name, n: Name)
    ensures multiset(s + [x])[n] == multiset(s)[n] + if x == n then 1 else 0
  {
  }

  // ---- the invariant of every run ----

  /** Between acquiring and releasing the MUTEX of a machine of the list. */
  predicate Inside(w: Worker) {
    (w.pc == Locked || w.pc == Moving || w.pc == Working) && !w.raised && w.machine.Some?
  }

  predicate SettingUp(c: Control) {
    c.Enlisting? || c.Choosing? || c.Starting? || c.Stopped?
  }

  /** The shared lists say of a live worker exactly where it is. */
  ghost predicate Agrees(s: State, i: Id)
    requires i < |s.workers|
  {
    var w := s.workers[i];
    !w.killed ==>
      && !w.raised
      && (w.pc != Created ==> (i in s.queued <==> w.pc == Waiting || w.pc == Locked))
      && (i in s.running <==> w.pc == Working || w.pc == Closing)
  }

  ghost predicate ListInv(s: State) {
    && Distinct(s.queued) && Distinct(s.running)
    && (forall i :: i in s.queued || i in s.running ==> i < |s.workers|)
    && (forall i :: 0 <= i < |s.workers| ==> Agrees(s, i))
  }

  /** While an analysis is being set up its engine is the current one and has no process yet. */
  ghost predicate CurrentInv(s: State) {
    && (s.current.Some? ==> s.current.value < |s.workers|)
    && (SettingUp(s.control) || s.control.Recording? ==> s.current.Some?)
    && (SettingUp(s.control) ==>
          s.workers[s.current.value] == Worker(Created, None, false, false, false))
    && (forall i :: 0 <= i < |s.workers| && s.workers[i].pc == Created ==>
          SettingUp(s.control) && s.current == Some(i))
    && (s.control.Enlisting? ==> s.current.value !in s.queued)
    && (s.control.Choosing? || s.control.Starting? ==> s.current.value in s.queued)
  }

  /** The ids the clean-up is looking at or has condemned. */
  function Targets(c: Control): set<Id> {
    match c
    case Scanning(todo, rem) => todo + rem
    case Checking(a, todo, rem) => {a} + todo + rem
    case Dropping(rem) => rem
    case _ => {}
  }

  /** Only engines that nothing refers to have had their process terminated. */
  ghost predicate EngineInv(s: State) {
    && (forall i :: i in s.engines ==> i < |s.workers| && s.workers[i].pc != Created)
    && (forall i :: 0 <= i < |s.workers| && s.workers[i].killed ==>
          i !in s.engines && s.current != Some(i))
    && Targets(s.control) <= s.engines
    && (s.control.Checking? ==> s.workers[s.control.aid].pc != Waiting && s.workers[s.control.aid].pc != Locked)
  }

  ghost predicate MutexInv(s: State) {
    forall i :: 0 <= i < |s.workers| && Inside(s.workers[i]) ==>
      s.workers[i].machine.value in s.mutex && s.mutex[s.workers[i].machine.value] == i
  }

  ghost predicate Inv(s: State) {
    ListInv(s) && CurrentInv(s) && EngineInv(s) && MutexInv(s)
  }

  lemma FetchConserves(s: State, aid: Id, n: Name)
    requires s.control.Fetching?
    ensures Total(SchedStep(s, aid), n) == Total(s, n)
  {
    var made := Worker(Created, None, false, false, false);
    AppendHeld(s.workers, made, n);
    if s.current.Some? {
      KillHeld(s.workers + [made], s.current.value, n);
    }
  }

  lemma StartConserves(s: State, aid: Id, n: Name)
    requires CurrentInv(s) && s.control.Starting?
    ensures Total(SchedStep(s, aid), n) == Total(s, n)
  {
    var w := Worker(Waiting, s.control.name, s.control.fromQueue, false, false);
    HeldUpdate(s.workers, s.current.value, w, n);
  }

  lemma DropConserves(s: State, aid: Id, n: Name)
    requires s.control.Dropping?
    ensures Total(SchedStep(s, aid), n) == Total(s, n)
  {
    KillHeld(s.workers, aid, n);
  }

  lemma ChooseConserves(s: State, aid: Id, n: Name)
    requires s.control.Choosing?
    ensures Total(SchedStep(s, aid), n) == Total(s, n)
  {
    if s.free != [] {
      TakeFirst(s.free, n);
    }
  }

  lemma SchedConserves(s: State, aid: Id, n: Name)
    requires CurrentInv(s)
    ensures Total(SchedStep(s, aid), n) == Total(s, n)
  {
    match s.control
    case Dropping(_) => DropConserves(s, aid, n);
    case Fetching => FetchConserves(s, aid, n);
    case Choosing(_) => ChooseConserves(s, aid, n);
    case Starting(_, _, _) => StartConserves(s, aid, n);
    case _ =>
  }

  /** A worker that hands nothing back to the queue keeps what it holds. */
  lemma BusyConserves(s: State, i: Id, n: Name)
    requires i < |s.workers| && s.workers[i].pc != Unlisted
    ensures Total(WorkStep(s, i), n) == Total(s, n)
  {
    var t := WorkStep(s, i);
    var w := t.workers[i];
    assert t.workers == s.workers[i := w] && t.free == s.free;
    assert Own(w, n) == Own(s.workers[i], n);
    HeldUpdate(s.workers, i, w, n);
  }

  lemma ReturnConserves(s: State, i: Id, n: Name)
    requires i < |s.workers| && s.workers[i].pc == Unlisted
    ensures Total(WorkStep(s, i), n) == Total(s, n)
  {
    var w := s.workers[i];
    HeldUpdate(s.workers, i, w.(pc := Exited), n);
    if w.machine.Some? {
      AddLast(s.free, w.machine.value, n);
    }
  }

  lemma WorkConserves(s: State, i: Id, n: Name)
    ensures Total(WorkStep(s, i), n) == Total(s, n)
  {
    if i < |s.workers| {
      if s.workers[i].pc == Unlisted {
        ReturnConserves(s, i, n);
      } else {
        BusyConserves(s, i, n);
      }
    }
  }

  lemma StepConserves(s: State, e: Event, n: Name)
    requires CurrentInv(s)
    ensures Total(Step(s, e), n) == Total(s, n)
  {
    match e
    case Put =>
      if s.toPut != [] {
        TakeFirst(s.toPut, n);
        AddLast(s.free, s.toPut[0], n);
      }
    case Submit(_) =>
    case Sched(aid) => SchedConserves(s, aid, n);
    case Work(i) => WorkConserves(s, i, n);
  }

  lemma SchedKeepsCurrent(s: State, aid: Id)
    requires ListInv(s) && CurrentInv(s) && EngineInv(s)
    ensures CurrentInv(SchedStep(s, aid))
  {
  }

  lemma SchedKeepsEngine(s: State, aid: Id)
    requires ListInv(s) && CurrentInv(s) && EngineInv(s)
    ensures EngineInv(SchedStep(s, aid))
  {
    assert aid < |s.workers| ==> Agrees(s, aid);
  }

  lemma SchedKeepsAgrees(s: State, aid: Id, j: Id)
    requires ListInv(s) && CurrentInv(s) && EngineInv(s) && j < |SchedStep(s, aid).workers|
    ensures Agrees(SchedStep(s, aid), j)
  {
    assert j < |s.workers| ==> Agrees(s, j);
  }

  lemma SchedKeepsList(s: State, aid: Id)
    requires ListInv(s) && CurrentInv(s) && EngineInv(s)
    ensures ListInv(SchedStep(s, aid))
  {
    var t := SchedStep(s, aid);
    forall j | 0 <= j < |t.workers| ensures Agrees(t, j) {
      SchedKeepsAgrees(s, aid, j);
    }
  }

  lemma SchedKeepsMutex(s: State, aid: Id)
    requires CurrentInv(s) && MutexInv(s)
    ensures MutexInv(SchedStep(s, aid))
  {
  }

  /** An operation of worker i leaves the scheduler and the other workers alone. */
  ghost predicate OthersFrame(s: State, i: Id, t: State) {
    && i < |s.workers| == |t.workers|
    && t.engines == s.engines && t.current == s.current && t.control == s.control
    && t.requests == s.requests
    && (forall j :: 0 <= j < |s.workers| && j != i ==> t.workers[j] == s.workers[j])
    && (forall j :: j != i ==> (j in t.queued <==> j in s.queued))
  }

  /** A worker only moves forward, and does nothing before it is started or after it returned. */
  ghost predicate OwnFrame(v: Worker, w: Worker) {
    && w.killed == v.killed && w.machine == v.machine && w.fromQueue == v.fromQueue
    && (w.pc == Created || v.pc == Created ==> v == w)
    && (w.pc == Waiting || w.pc == Locked ==> v.pc == Waiting || v.pc == Locked)
    && (v.pc == Exited ==> w.pc == Exited)
  }

  ghost predicate WorkFrame(s: State, i: Id, t: State) {
    && OthersFrame(s, i, t) && OwnFrame(s.workers[i], t.workers[i])
    && (s.workers[i].pc == Created ==> t.queued == s.queued)
  }

  lemma WorkFramesOthers(s: State, i: Id)
    requires i < |s.workers|
    ensures OthersFrame(s, i, WorkStep(s, i))
  {
  }

  lemma WorkFrames(s: State, i: Id)
    requires i < |s.workers|
    ensures WorkFrame(s, i, WorkStep(s, i))
  {
    WorkFramesOthers(s, i);
  }

  lemma FrameKeepsCurrent(s: State, i: Id, t: State)
    requires WorkFrame(s, i, t) && CurrentInv(s)
    ensures CurrentInv(t)
  {
  }

  lemma FrameKeepsEngine(s: State, i: Id, t: State)
    requires WorkFrame(s, i, t) && EngineInv(s)
    ensures EngineInv(t)
  {
  }

  lemma WorkKeepsDistinct(s: State, i: Id)
    requires ListInv(s)
    ensures var t := WorkStep(s, i); Distinct(t.queued) && Distinct(t.running)
  {
    assert i < |s.workers| ==> Agrees(s, i);
  }

  lemma WorkKeepsAgrees(s: State, i: Id, j: Id)
    requires ListInv(s) && j < |s.workers|
    ensures var t := WorkStep(s, i); |t.workers| == |s.workers| && Agrees(t, j)
  {
    assert Agrees(s, j);
  }

  lemma WorkKeepsList(s: State, i: Id)
    requires ListInv(s)
    ensures ListInv(WorkStep(s, i))
  {
    WorkKeepsDistinct(s, i);
    var t := WorkStep(s, i);
    forall j | 0 <= j < |t.workers| ensures Agrees(t, j) {
      WorkKeepsAgrees(s, i, j);
    }
  }

  lemma WorkKeepsMutex(s: State, i: Id)
    requires CurrentInv(s) && MutexInv(s)
    ensures MutexInv(WorkStep(s, i))
  {
  }

  lemma StepInv(s: State, e: Event)
    requires Inv(s)
    ensures Inv(Step(s, e))
  {
    match e
    case Put | Submit(_) =>
      forall j | 0 <= j < |s.workers| ensures Agrees(Step(s, e), j) {
        assert Agrees(s, j);
      }
    case Sched(aid) =>
      SchedKeepsCurrent(s, aid);
      SchedKeepsEngine(s, aid);
      SchedKeepsList(s, aid);
      SchedKeepsMutex(s, aid);
    case Work(i) =>
      if i < |s.workers| {
        WorkFrames(s, i);
        FrameKeepsCurrent(s, i, WorkStep(s, i));
        FrameKeepsEngine(s, i, WorkStep(s, i));
        WorkKeepsList(s, i);
        WorkKeepsMutex(s, i);
      }
  }

  lemma {:induction false} RunInv(machines: seq<Name>, events: seq<Event>)
    ensures Inv(Run(Start(machines), events))
  {
    if events != [] {
      RunInv(machines, events[..|events| - 1]);
      StepInv(Run(Start(machines), events[..|events| - 1]), events[|events| - 1]);
    }
  }

  // ---- what every run guarantees ----

  /** No machine is ever duplicated or vanishes: each is not yet put, in the queue, at the
      scheduler, or with the one worker that took it. */
  lemma {:induction false} MachinesAreConserved(machines: seq<Name>, events: seq<Event>, n: Name)
    ensures Total(Run(Start(machines), events), n) == multiset(machines)[n]
  {
    if events != [] {
      var before := events[..|events| - 1];
      MachinesAreConserved(machines, before, n);
      RunInv(machines, before);
      StepConserves(Run(Start(machines), before), events[|events| - 1], n);
    }
  }

  lemma {:induction false} HeldSome(ws: seq<Worker>, i: nat, n: Name)
    requires i < |ws|
    ensures Held(ws, n) >= Own(ws[i], n)
  {
    if i < |ws| - 1 {
      HeldSome(ws[..|ws| - 1], i, n);
    }
  }

  lemma {:induction false} HeldBoth(ws: seq<Worker>, i: nat, j: nat, n: Name)
    requires i < j < |ws|
    ensures Held(ws, n) >= Own(ws[i], n) + Own(ws[j], n)
  {
    if j < |ws| - 1 {
      HeldBoth(ws[..|ws| - 1], i, j, n);
    } else {
      HeldSome(ws[..|ws| - 1], i, n);
    }
  }

  lemma {:induction false} DistinctCount(s: seq<Name>, n: Name)
    requires Distinct(s)
    ensures multiset(s)[n] <= 1
  {
    if s != [] {
      DistinctCount(s[1..], n);
      TakeFirst(s, n);
      assert s[0] !in s[1..];
    }
  }

  lemma CountDistinct(s: seq<Name>)
    requires forall n :: multiset(s)[n] <= 1
    ensures Distinct(s)
  {
    forall i, j | 0 <= i < j < |s| ensures s[i] != s[j] {
      assert s == s[..j] + s[j..];
      assert s[i] in s[..j] && s[j] in s[j..];
      assert multiset(s)[s[i]] == multiset(s[..j])[s[i]] + multiset(s[j..])[s[i]];
    }
  }

  lemma AtMostOnce(machines: seq<Name>, events: seq<Event>, n: Name)
    requires Distinct(machines)
    ensures var s := Run(Start(machines), events);
            multiset(s.free)[n] + Held(s.workers, n) <= multiset(machines)[n] <= 1
  {
    MachinesAreConserved(machines, events, n);
    DistinctCount(machines, n);
  }

  /** Free names are distinct machines of the type. */
  lemma FreeAreDistinct(machines: seq<Name>, events: seq<Event>)
    requires Distinct(machines)
    ensures var free := Run(Start(machines), events).free;
            Distinct(free) && forall n :: n in free ==> n in machines
  {
    var s := Run(Start(machines), events);
    forall n ensures multiset(s.free)[n] <= 1 && multiset(s.free)[n] <= multiset(machines)[n] {
      AtMostOnce(machines, events, n);
    }
    CountDistinct(s.free);
    forall n | n in s.free ensures n in machines {
      assert multiset(s.free)[n] > 0;
    }
  }

  /** In every interleaving, whatever the scripts do and whoever is terminated, a machine a worker
      took from the queue is a machine of the type, is not in the queue, and no other worker has it. */
  lemma NoDoubleAllocation(machines: seq<Name>, events: seq<Event>, i: Id, n: Name)
    requires Distinct(machines)
    requires i < |Run(Start(machines), events).workers|
    requires Own(Run(Start(machines), events).workers[i], n) == 1
    ensures var s := Run(Start(machines), events);
            && n in machines && n !in s.free
            && forall j :: 0 <= j < |s.workers| && j != i ==> Own(s.workers[j], n) == 0
  {
    var s := Run(Start(machines), events);
    AtMostOnce(machines, events, n);
    HeldSome(s.workers, i, n);
    forall j | 0 <= j < |s.workers| && j != i ensures Own(s.workers[j], n) == 0 {
      HeldBoth(s.workers, if i < j then i else j, if i < j then j else i, n);
    }
  }

  /** No list remove ever raises, the queued and running lists place every live worker exactly, and
      two workers are never inside the mutex of the same machine. */
  lemma WorkersAreTracked(machines: seq<Name>, events: seq<Event>)
    ensures var s := Run(Start(machines), events);
            && (forall i :: 0 <= i < |s.workers| ==> Agrees(s, i))
            && (forall i, j :: 0 <= i < j < |s.workers| && Inside(s.workers[i]) && Inside(s.workers[j]) ==>
                  s.workers[i].machine != s.workers[j].machine)
  {
    RunInv(machines, events);
    var s := Run(Start(machines), events);
    forall i, j | 0 <= i < j < |s.workers| && Inside(s.workers[i]) && Inside(s.workers[j])
      ensures s.workers[i].machine != s.workers[j].machine
    {
      assert s.mutex[s.workers[i].machine.value] == i;
      assert s.mutex[s.workers[j].machine.value] == j;
    }
  }

  // ---- when no machine is lost ----

  /** The two windows in which a live analysis is in neither list. */
  predicate InWindow(w: Worker) {
    w.pc == Moving || w.pc == Unlisted
  }

  /** The clean-up condemns the analysis it is looking at exactly when that is over or in a window. */
  lemma CondemnedIff(s: State, aid: Id)
    requires Inv(s) && s.control.Checking?
    ensures var a := s.control.aid;
            a < |s.workers| && SchedStep(s, aid).control.Scanning?
            && (SchedStep(s, aid).control.rem == s.control.rem + {a}
                <==> a in s.control.rem || InWindow(s.workers[a]) || s.workers[a].pc == Exited)
  {
    var a := s.control.aid;
    assert a in Targets(s.control);
    assert Agrees(s, a);
    var t := SchedStep(s, aid).control;
    if a in s.running && a !in s.control.rem {
      assert t.rem != s.control.rem + {a} by {
        assert a in s.control.rem + {a};
      }
    }
  }

  /** A script that loads, and a clean-up read of the running list outside the windows. */
  predicate Careful(s: State, e: Event) {
    match e
    case Submit(req) => req.loads
    case Sched(_) =>
      s.control.Checking? && s.control.aid < |s.workers| ==> !InWindow(s.workers[s.control.aid])
    case _ => true
  }

  predicate CarefulRun(s: State, events: seq<Event>) {
    events == [] ||
    (CarefulRun(s, events[..|events| - 1]) &&
     Careful(Run(s, events[..|events| - 1]), events[|events| - 1]))
  }

  function Condemned(c: Control): set<Id> {
    match c
    case Scanning(_, rem) => rem
    case Checking(_, _, rem) => rem
    case Dropping(rem) => rem
    case _ => {}
  }

  predicate Loads(c: Control) {
    match c
    case Enlisting(req) => req.loads
    case Choosing(req) => req.loads
    case Starting(req, _, _) => req.loads
    case Stopped(held) => held.None?
    case _ => true
  }

  /** The engine of the previous analysis is kept alive by run()'s local variable only. */
  predicate Orphan(s: State) {
    && s.current.Some? && s.current.value < |s.workers| && s.current.value !in s.engines
    && !SettingUp(s.control) && !s.control.Recording?
  }

  /** Every engine condemned, orphaned or terminated belongs to an analysis that is over. */
  ghost predicate CleanInv(s: State) {
    && (forall r :: r in s.requests ==> r.loads)
    && Loads(s.control)
    && (forall i :: 0 <= i < |s.workers| && (s.workers[i].killed || i in Condemned(s.control)) ==>
          s.workers[i].pc == Exited)
    && (Orphan(s) ==> s.workers[s.current.value].pc == Exited)
  }

  lemma CleanSched(s: State, aid: Id)
    requires Inv(s) && CleanInv(s) && Careful(s, Sched(aid))
    ensures CleanInv(SchedStep(s, aid))
  {
    if s.control.Checking? {
      CondemnedIff(s, aid);
      assert Agrees(s, s.control.aid);
    }
  }

  lemma CleanWork(s: State, i: Id, t: State)
    requires WorkFrame(s, i, t) && CleanInv(s)
    ensures CleanInv(t)
  {
  }

  lemma CleanStep(s: State, e: Event)
    requires Inv(s) && CleanInv(s) && Careful(s, e)
    ensures CleanInv(Step(s, e))
  {
    match e
    case Put =>
    case Submit(_) =>
    case Sched(aid) => CleanSched(s, aid);
    case Work(i) =>
      if i < |s.workers| {
        WorkFrames(s, i);
        CleanWork(s, i, WorkStep(s, i));
      }
  }

  lemma {:induction false} CleanRun(machines: seq<Name>, events: seq<Event>)
    requires CarefulRun(Start(machines), events)
    ensures CleanInv(Run(Start(machines), events))
  {
    if events != [] {
      var before := events[..|events| - 1];
      CleanRun(machines, before);
      RunInv(machines, before);
      CleanStep(Run(Start(machines), before), events[|events| - 1]);
    }
  }

  // ---- exactly when a machine is lost ----

  /** The worker has a machine it took from the queue and has not put back. */
  predicate Holding(w: Worker) {
    w.fromQueue && w.machine.Some? && w.pc != Exited
  }

  predicate Dead(w: Worker) {
    w.killed && Holding(w)
  }

  ghost predicate SomeDead(ws: seq<Worker>) {
    exists i :: 0 <= i < |ws| && Dead(ws[i])
  }

  /** A queue machine is with a terminated worker or a scheduler that is no longer running. */
  ghost predicate Lost(s: State) {
    || SomeDead(s.workers)
    || (s.control.Stopped? && s.control.held.Some?)
  }

  predicate HoldsAt(s: State, i: Id) {
    i < |s.workers| && Holding(s.workers[i])
  }

  /** The three operations that lose a machine: the clean-up drops the engine of a worker that holds
      one, the local variable's last reference to such an engine is overwritten, or a script without
      a class is started on a machine from the queue. */
  predicate Loses(s: State, e: Event) {
    e.Sched? &&
    match s.control
    case Dropping(rem) => e.aid in rem && s.current != Some(e.aid) && HoldsAt(s, e.aid)
    case Fetching =>
      && s.requests != [] && s.current.Some? && s.current.value !in s.engines
      && HoldsAt(s, s.current.value)
    case Starting(req, name, fromQueue) => fromQueue && name.Some? && !req.loads
    case _ => false
  }

  lemma DeadAfterKill(ws: seq<Worker>, i: Id)
    ensures SomeDead(Kill(ws, i)) <==> SomeDead(ws) || (i < |ws| && Holding(ws[i]))
  {
    var more := Kill(ws, i);
    forall j | 0 <= j < |ws| ensures Dead(more[j]) <==> Dead(ws[j]) || (j == i && Holding(ws[i])) {
    }
    if i < |ws| && Holding(ws[i]) {
      assert Dead(more[i]);
    }
    if j :| 0 <= j < |ws| && Dead(ws[j]) {
      assert Dead(more[j]);
    }
  }

  lemma DeadAfterAppend(ws: seq<Worker>, w: Worker)
    requires !Dead(w)
    ensures SomeDead(ws + [w]) <==> SomeDead(ws)
  {
    if j :| 0 <= j < |ws| && Dead(ws[j]) {
      assert Dead((ws + [w])[j]);
    }
  }

  lemma DeadAfterUpdate(ws: seq<Worker>, i: Id, w: Worker)
    requires i < |ws| && Dead(w) == Dead(ws[i])
    ensures SomeDead(ws[i := w]) <==> SomeDead(ws)
  {
    var after := ws[i := w];
    if j :| 0 <= j < |after| && Dead(after[j]) {
      assert Dead(ws[j]);
    }
    if j :| 0 <= j < |ws| && Dead(ws[j]) {
      assert Dead(after[j]);
    }
  }

  lemma FetchLost(s: State, aid: Id)
    requires CurrentInv(s) && s.control.Fetching?
    ensures Lost(SchedStep(s, aid)) <==> Lost(s) || Loses(s, Sched(aid))
  {
    var made := Worker(Created, None, false, false, false);
    DeadAfterAppend(s.workers, made);
    if s.current.Some? {
      DeadAfterKill(s.workers + [made], s.current.value);
    }
  }

  lemma SchedLost(s: State, aid: Id)
    requires CurrentInv(s)
    ensures Lost(SchedStep(s, aid)) <==> Lost(s) || Loses(s, Sched(aid))
  {
    match s.control
    case Dropping(_) => DeadAfterKill(s.workers, aid);
    case Fetching => FetchLost(s, aid);
    case Starting(_, name, fromQueue) =>
      DeadAfterUpdate(s.workers, s.current.value, Worker(Waiting, name, fromQueue, false, false));
    case _ =>
  }

  lemma WorkLost(s: State, i: Id)
    requires i < |s.workers|
    ensures Lost(WorkStep(s, i)) <==> Lost(s)
  {
    var t := WorkStep(s, i);
    WorkFramesOthers(s, i);
    assert t.workers == s.workers[i := t.workers[i]];
    assert s.workers[i].killed || t.workers[i].killed ==> t == s;
    DeadAfterUpdate(s.workers, i, t.workers[i]);
  }

  /** One operation: a machine is lost afterwards exactly if one was lost before or this is one of the
      three operations. */
  lemma StepLost(s: State, e: Event)
    requires Inv(s)
    ensures Lost(Step(s, e)) <==> Lost(s) || Loses(s, e)
  {
    match e
    case Put =>
    case Submit(_) =>
    case Sched(aid) => SchedLost(s, aid);
    case Work(i) =>
      if i < |s.workers| {
        WorkLost(s, i);
      }
  }

  predicate LosesAt(machines: seq<Name>, events: seq<Event>, k: nat)
    requires k < |events|
  {
    Loses(Run(Start(machines), events[..k]), events[k])
  }

  lemma LostLast(machines: seq<Name>, events: seq<Event>)
    requires events != []
    ensures Lost(Run(Start(machines), events)) <==>
            Lost(Run(Start(machines), events[..|events| - 1])) || LosesAt(machines, events, |events| - 1)
  {
    var before := events[..|events| - 1];
    RunInv(machines, before);
    StepLost(Run(Start(machines), before), events[|events| - 1]);
  }

  lemma SameLoss(machines: seq<Name>, events: seq<Event>, k: nat)
    requires k < |events| - 1
    ensures LosesAt(machines, events[..|events| - 1], k) == LosesAt(machines, events, k)
  {
    assert events[..|events| - 1][..k] == events[..k];
  }

  /** In every interleaving a machine is lost exactly if one of the three operations happened. */
  lemma {:induction false} LostIff(machines: seq<Name>, events: seq<Event>)
    ensures Lost(Run(Start(machines), events)) <==> exists k :: 0 <= k < |events| && LosesAt(machines, events, k)
  {
    if events == [] {
      assert !Lost(Start(machines));
    } else {
      var before := events[..|events| - 1];
      LostIff(machines, before);
      LostLast(machines, events);
      forall k | 0 <= k < |before| ensures LosesAt(machines, before, k) == LosesAt(machines, events, k) {
        SameLoss(machines, events, k);
      }
      if k :| 0 <= k < |before| && LosesAt(machines, before, k) {
        assert LosesAt(machines, events, k);
      }
      if k :| 0 <= k < |events| && LosesAt(machines, events, k) {
        assert k < |before| ==> LosesAt(machines, before, k);
      }
    }
  }

  function LiveHeld(ws: seq<Worker>, n: Name): nat {
    if ws == [] then 0 else
    var w := ws[|ws| - 1];
    LiveHeld(ws[..|ws| - 1], n) + if w.killed then 0 else Own(w, n)
  }

  /** How often machine n is where it can still be used from: not yet put, free, at the running
      scheduler, with a worker that is not terminated. */
  function Usable(s: State, n: Name): nat {
    multiset(s.toPut)[n] + multiset(s.free)[n]
    + (if s.control.Stopped? then 0 else AtScheduler(s.control, n)) + LiveHeld(s.workers, n)
  }

  /** The workers' part: live workers have less than all workers exactly if a terminated one holds. */
  lemma {:induction false} LiveHeldIff(ws: seq<Worker>, n: Name)
    ensures LiveHeld(ws, n) <= Held(ws, n)
    ensures LiveHeld(ws, n) < Held(ws, n) <==>
            exists i :: 0 <= i < |ws| && Dead(ws[i]) && ws[i].machine == Some(n)
  {
    if ws != [] {
      var front, last := ws[..|ws| - 1], |ws| - 1;
      LiveHeldIff(front, n);
      if i :| 0 <= i < |front| && Dead(front[i]) && front[i].machine == Some(n) {
        assert Dead(ws[i]);
      }
      if i :| 0 <= i < |ws| && Dead(ws[i]) && ws[i].machine == Some(n) {
        assert i < last ==> Dead(front[i]);
      }
    }
  }

  lemma UsableIff(s: State)
    ensures (forall n :: Usable(s, n) == Total(s, n)) <==> !Lost(s)
  {
    forall n ensures LiveHeld(s.workers, n) <= Held(s.workers, n)
      ensures LiveHeld(s.workers, n) < Held(s.workers, n) <==>
              exists i :: 0 <= i < |s.workers| && Dead(s.workers[i]) && s.workers[i].machine == Some(n)
    {
      LiveHeldIff(s.workers, n);
    }
    if i :| 0 <= i < |s.workers| && Dead(s.workers[i]) {
      assert Usable(s, s.workers[i].machine.value) < Total(s, s.workers[i].machine.value);
    }
    if s.control.Stopped? && s.control.held.Some? {
      assert Usable(s, s.control.held.value) < Total(s, s.control.held.value);
    }
  }

  /** In every interleaving the usable machines are exactly all machines of the type if and only if
      none of the three operations happened, whether analyses succeed or raise. */
  lemma ExactlyAllIff(machines: seq<Name>, events: seq<Event>)
    ensures (forall n :: Usable(Run(Start(machines), events), n) == multiset(machines)[n]) <==>
            forall k :: 0 <= k < |events| ==> !LosesAt(machines, events, k)
  {
    var s := Run(Start(machines), events);
    forall n ensures Total(s, n) == multiset(machines)[n] {
      MachinesAreConserved(machines, events, n);
    }
    UsableIff(s);
    LostIff(machines, events);
  }

  lemma CleanIsNotLost(s: State)
    requires CleanInv(s)
    ensures !Lost(s)
  {
  }

  /** In particular: if every script loads and no clean-up read falls in a window, none of them does. */
  lemma NoMachineIsLost(machines: seq<Name>, events: seq<Event>)
    requires CarefulRun(Start(machines), events)
    ensures forall k :: 0 <= k < |events| ==> !LosesAt(machines, events, k)
    ensures forall n :: Usable(Run(Start(machines), events), n) == multiset(machines)[n]
  {
    CleanRun(machines, events);
    CleanIsNotLost(Run(Start(machines), events));
    LostIff(machines, events);
    ExactlyAllIff(machines, events);
  }

  // ---- both windows lose a machine ----

  predicate SchedulerOnly(events: seq<Event>) {
    forall k :: 0 <= k < |events| ==> events[k].Sched?
  }

  lemma RunOne(s: State, e: Event)
    ensures Run(s, [e]) == Step(s, e)
  {
    assert [e][..0] == [];
    assert Run(s, []) == s;
  }

  lemma {:induction false} RunConcat(s: State, a: seq<Event>, b: seq<Event>)
    ensures Run(s, a + b) == Run(Run(s, a), b)
  {
    if b == [] {
      assert a + b == a;
    } else {
      RunConcat(s, a, b[..|b| - 1]);
      assert (a + b)[..|a + b| - 1] == a + b[..|b| - 1];
    }
  }

  /** The clean-up looks at what is left; what it condemned stays condemned. */
  lemma {:induction false} ScanRest(s: State) returns (events: seq<Event>, rem: set<Id>)
    requires s.control.Scanning?
    ensures SchedulerOnly(events) && s.control.rem <= rem && Run(s, events) == s.(control := Dropping(rem))
    decreases if s.control.Scanning? then s.control.todo else {}
  {
    var todo := s.control.todo;
    if todo == {} {
      events, rem := [Sched(0)], s.control.rem;
      RunOne(s, Sched(0));
    } else {
      var b :| b in todo;
      var first := if b in s.queued then [Sched(b)] else [Sched(b)] + [Sched(b)];
      var t := s.(control := Scanning(todo - {b},
        if b in s.queued || b in s.running then s.control.rem else s.control.rem + {b}));
      RunOne(s, Sched(b));
      if b !in s.queued {
        RunOne(Step(s, Sched(b)), Sched(b));
        RunConcat(s, [Sched(b)], [Sched(b)]);
      }
      assert Run(s, first) == t;
      var more;
      more, rem := ScanRest(t);
      RunConcat(s, first, more);
      events := first + more;
    }
  }

  /** The analysis the clean-up is about to look at, if inside a window, is condemned. */
  lemma WindowCondemns(s: State, a: Id)
    requires Inv(s) && s.control.Scanning? && a in s.control.todo && a < |s.workers|
    requires InWindow(s.workers[a])
    ensures Step(Step(s, Sched(a)), Sched(a))
            == s.(control := Scanning(s.control.todo - {a}, s.control.rem + {a}))
  {
    assert a in Targets(s.control);
    assert Agrees(s, a);
  }

  /** Whenever the clean-up is about to look at an older analysis that is inside a window, whatever else
      it has to look at or has condemned, the scheduler alone can go on to terminate it there: its
      machine is neither free nor with anything alive. */
  lemma WindowLosesMachine(s: State, a: Id) returns (events: seq<Event>)
    requires Inv(s) && s.control.Scanning? && a in s.control.todo && s.current != Some(a)
    requires a < |s.workers| && InWindow(s.workers[a])
    ensures SchedulerOnly(events)
    ensures var t := Run(s, events);
            && t.workers == s.workers[a := s.workers[a].(killed := true)] && t.free == s.free
            && (forall n :: Own(t.workers[a], n) == Own(s.workers[a], n))
            && (Holding(s.workers[a]) ==> Lost(t))
  {
    var look := [Sched(a)] + [Sched(a)];
    RunOne(s, Sched(a));
    RunOne(Step(s, Sched(a)), Sched(a));
    RunConcat(s, [Sched(a)], [Sched(a)]);
    WindowCondemns(s, a);
    var u := s.(control := Scanning(s.control.todo - {a}, s.control.rem + {a}));
    var rest, rem := ScanRest(u);
    RunConcat(s, look, rest);
    var v := u.(control := Dropping(rem));
    RunOne(v, Sched(a));
    RunConcat(s, look + rest, [Sched(a)]);
    events := look + rest + [Sched(a)];
    assert Holding(s.workers[a]) ==> Dead(Step(v, Sched(a)).workers[a]);
  }

  const M := Name("lophi-0")
  const QUEUE := Request(FromQueue, true)
  const VM := Request(OtherVm, true)

  function Plain(pc: Pc, name: Option<Name>): Worker {
    Worker(pc, name, name.Some?, false, false)
  }

  /** One analysis recorded on the queue's only machine, then a second one on a machine of its own. */
  const FIRST := State([], [], [], [0], [], [Plain(Waiting, Some(M))], {0}, Some(0), map[], Scanning({0}, {}))
  const SECOND := State([], [], [], [0, 1], [], [Plain(Waiting, Some(M)), Plain(Waiting, None)],
                        {0, 1}, Some(1), map[], Scanning({0, 1}, {}))

  lemma Extend(s: State, events: seq<Event>, mid: State, e: Event, t: State)
    requires Run(s, events) == mid && Step(mid, e) == t
    ensures Run(s, events + [e]) == t
  {
    assert (events + [e])[..|events|] == events;
  }

  lemma FirstStarted() returns (events: seq<Event>)
    ensures Run(Start([M]), events) == FIRST
  {
    var s := Start([M]);
    events := [];
    var a := s.(toPut := [], free := [M]);
    Extend(s, events, s, Put, a); events := events + [Put];
    Extend(s, events, a, Sched(0), a.(control := Dropping({}))); events := events + [Sched(0)];
    Extend(s, events, a.(control := Dropping({})), Sched(0), a.(control := Fetching)); events := events + [Sched(0)];
    var b := a.(control := Fetching, requests := [QUEUE]);
    Extend(s, events, a.(control := Fetching), Submit(QUEUE), b); events := events + [Submit(QUEUE)];
    var c := a.(current := Some(0), workers := [Plain(Created, None)], control := Enlisting(QUEUE));
    Extend(s, events, b, Sched(0), c); events := events + [Sched(0)];
    var d := c.(queued := [0], control := Choosing(QUEUE));
    Extend(s, events, c, Sched(0), d); events := events + [Sched(0)];
    var e := d.(free := [], control := Starting(QUEUE, Some(M), true));
    Extend(s, events, d, Sched(0), e); events := events + [Sched(0)];
    var f := e.(workers := [Plain(Waiting, Some(M))], control := Recording);
    Extend(s, events, e, Sched(0), f); events := events + [Sched(0)];
    assert f.engines + {0} == {0};
    Extend(s, events, f, Sched(0), FIRST); events := events + [Sched(0)];
  }

  /** The clean-up finds worker 0 queued and goes on to the next request. */
  lemma SecondStarted() returns (events: seq<Event>)
    ensures Run(FIRST, events) == SECOND
  {
    var s := FIRST;
    events := [];
    assert {0} - {0} == {};
    Extend(s, events, s, Sched(0), s.(control := Scanning({}, {}))); events := events + [Sched(0)];
    Extend(s, events, s.(control := Scanning({}, {})), Sched(0), s.(control := Dropping({})));
    events := events + [Sched(0)];
    Extend(s, events, s.(control := Dropping({})), Sched(0), s.(control := Fetching)); events := events + [Sched(0)];
    var b := s.(control := Fetching, requests := [VM]);
    Extend(s, events, s.(control := Fetching), Submit(VM), b); events := events + [Submit(VM)];
    var c := s.(current := Some(1), workers := s.workers + [Plain(Created, None)], control := Enlisting(VM));
    Extend(s, events, b, Sched(0), c); events := events + [Sched(0)];
    var d := c.(queued := [0, 1], control := Choosing(VM));
    Extend(s, events, c, Sched(0), d); events := events + [Sched(0)];
    var e := d.(control := Starting(VM, None, false));
    Extend(s, events, d, Sched(0), e); events := events + [Sched(0)];
    var f := e.(workers := SECOND.workers, control := Recording);
    Extend(s, events, e, Sched(0), f); events := events + [Sched(0)];
    assert f.engines + {1} == {0, 1};
    Extend(s, events, f, Sched(0), SECOND); events := events + [Sched(0)];
  }

  const IN_FIRST := SECOND.(workers := [Plain(Moving, Some(M)), Plain(Waiting, None)], queued := [1],
                            mutex := map[M := 0], control := Scanning({0}, {}))
  const IN_SECOND := IN_FIRST.(workers := [Plain(Unlisted, Some(M)), Plain(Waiting, None)], mutex := map[])

  /** Worker 0 enters the first window when the clean-up has only it left to look at. */
  lemma IntoFirstWindow() returns (events: seq<Event>)
    ensures Run(SECOND, events) == IN_FIRST
  {
    var s := SECOND;
    events := [];
    var b := s.(control := Scanning({0}, {}));
    assert {0, 1} - {1} == {0};
    Extend(s, events, s, Sched(1), b); events := events + [Sched(1)];
    var c := b.(workers := [Plain(Locked, Some(M)), Plain(Waiting, None)], mutex := map[M := 0]);
    Extend(s, events, b, Work(0), c); events := events + [Work(0)];
    Extend(s, events, c, Work(0), IN_FIRST); events := events + [Work(0)];
  }

  lemma IntoSecondWindow() returns (events: seq<Event>)
    ensures Run(IN_FIRST, events) == IN_SECOND
  {
    var s := IN_FIRST;
    var vm := Plain(Waiting, None);
    events := [];
    var e := s.(workers := [Plain(Working, Some(M)), vm], running := [0]);
    Extend(s, events, s, Work(0), e); events := events + [Work(0)];
    var f := e.(workers := [Plain(Closing, Some(M)), vm], mutex := map[]);
    Extend(s, events, e, Work(0), f); events := events + [Work(0)];
    Extend(s, events, f, Work(0), IN_SECOND); events := events + [Work(0)];
  }

  /** Both windows are reachable at the moment the clean-up looks, so both do lose a machine. */
  lemma WindowsAreReachable()
    ensures exists events :: Run(Start([M]), events) == IN_FIRST
    ensures exists events :: Run(Start([M]), events) == IN_SECOND
  {
    var first := FirstStarted();
    var second := SecondStarted();
    var third := IntoFirstWindow();
    var fourth := IntoSecondWindow();
    RunConcat(Start([M]), first, second);
    RunConcat(Start([M]), first + second, third);
    RunConcat(Start([M]), first + second + third, fourth);
    assert Run(Start([M]), first + second + third) == IN_FIRST;
    assert Run(Start([M]), first + second + third + fourth) == IN_SECOND;
  }

  lemma KilledStaysSched(s: State, aid: Id, i: Id)
    requires CurrentInv(s) && EngineInv(s) && i < |s.workers| && s.workers[i].killed
    ensures i < |SchedStep(s, aid).workers| && SchedStep(s, aid).workers[i] == s.workers[i]
  {
  }

  lemma KilledStays(s: State, e: Event, i: Id)
    requires Inv(s) && i < |s.workers| && s.workers[i].killed
    ensures i < |Step(s, e).workers| && Step(s, e).workers[i] == s.workers[i]
  {
    match e
    case Sched(aid) => KilledStaysSched(s, aid, i);
    case Work(j) =>
      if i != j && j < |s.workers| {
        WorkFramesOthers(s, j);
      }
    case _ =>
  }

  lemma {:induction false} KilledForever(s: State, events: seq<Event>, i: Id)
    requires Inv(s) && i < |s.workers| && s.workers[i].killed
    ensures Inv(Run(s, events))
    ensures i < |Run(s, events).workers| && Run(s, events).workers[i] == s.workers[i]
  {
    if events != [] {
      var before := events[..|events| - 1];
      KilledForever(s, before, i);
      StepInv(Run(s, before), events[|events| - 1]);
      KilledStays(Run(s, before), events[|events| - 1], i);
    }
  }

  /** Exact conservation fails without the hypothesis: there is a run after which, however it goes
      on, the only machine is never free again and only a terminated worker has it. */
  lemma MachineCanBeLost() returns (run: seq<Event>)
    ensures forall more :: var s := Run(Start([M]), run + more);
              && M !in s.free
              && |s.workers| > 0 && s.workers[0].killed && Own(s.workers[0], M) == 1
  {
    WindowsAreReachable();
    var events :| Run(Start([M]), events) == IN_FIRST;
    RunInv([M], events);
    var killing := WindowLosesMachine(IN_FIRST, 0);
    run := events + killing;
    RunConcat(Start([M]), events, killing);
    RunInv([M], run);
    forall more ensures var s := Run(Start([M]), run + more);
        && M !in s.free && |s.workers| > 0 && s.workers[0].killed && Own(s.workers[0], M) == 1
    {
      RunConcat(Start([M]), run, more);
      KilledForever(Run(Start([M]), run), more, 0);
      NoDoubleAllocation([M], run + more, 0, M);
    }
  }

  // ---- the controller's queues, and the clean-up as one loop ----

  function OfType(machines: seq<(Name, int)>, t: int): seq<Name> {
    if machines == [] then [] else
    var rest := OfType(machines[..|machines| - 1], t);
    var last := machines[|machines| - 1];
    if last.1 == t then rest + [last.0] else rest
  }

  /** A queue per type in use, holding the machines of that type in the list's order. */
  method BuildQueues(machines: seq<(Name, int)>) returns (queues: map<int, seq<Name>>)
    ensures forall t :: t in queues <==> OfType(machines, t) != []
    ensures forall t :: t in queues ==> queues[t] == OfType(machines, t)
  {
    queues := map[];
    for k := 0 to |machines|
      invariant forall t :: t in queues <==> OfType(machines[..k], t) != []
      invariant forall t :: t in queues ==> queues[t] == OfType(machines[..k], t)
    {
      var (name, t) := machines[k];
      assert machines[..k + 1][..k] == machines[..k];
      if t !in queues {
        queues := queues[t := []];
      }
      queues := queues[t := queues[t] + [name]];
    }
    assert machines[..|machines|] == machines;
  }

  /** The names of one type are exactly its machines, each once when the dictionary's keys differ. */
  lemma {:induction false} QueueContents(machines: seq<(Name, int)>, t: int)
    requires forall i, j :: 0 <= i < j < |machines| ==> machines[i].0 != machines[j].0
    ensures forall n :: n in OfType(machines, t) <==> (n, t) in machines
    ensures Distinct(OfType(machines, t))
  {
    if machines != [] {
      var front := machines[..|machines| - 1];
      var last := machines[|machines| - 1];
      QueueContents(front, t);
      assert machines == front + [last];
      assert forall n :: (n, t) in front ==> n != last.0;
    }
  }

  /** With nobody moving meanwhile, the clean-up keeps exactly the engines in one of the lists. */
  method CleanupPointers(engines: set<Id>, queued: seq<Id>, running: seq<Id>) returns (kept: set<Id>)
    ensures kept == set i | i in engines && (i in queued || i in running)
  {
    var rem: seq<Id> := [];
    var todo := engines;
    while todo != {}
      invariant todo <= engines
      invariant forall i :: i in rem <==> i in engines - todo && i !in queued && i !in running
    {
      var i :| i in todo;
      if i !in queued && i !in running {
        rem := rem + [i];
      }
      todo := todo - {i};
    }
    kept := engines;
    for k := 0 to |rem|
      invariant kept == set i | i in engines && i !in rem[..k]
    {
      kept := kept - {rem[k]};
    }
    assert rem[..|rem|] == rem;
  }
}
