/** The QEMU hook: one worker thread per disk access, writing its frame to the one socket under
    socket_thread_mutex, with short writes. */
module HookStream {
  import opened Prelude

  datatype Pc = Queued | Entered | Writing(done: nat) | Finished

  /** `frame` is the heap buffer: header, then contents. */
  datatype Worker = Worker(frame: seq<Byte>, pc: Pc)

  /** `stream` is every byte accepted by the socket; `order` the workers in the order they unlocked. */
  datatype State = State(
    stream: seq<Byte>,
    commInit: bool,
    lock: Option<nat>,
    workers: seq<Worker>,
    order: seq<nat>)

  datatype Event =
    | Spawn(frame: seq<Byte>)        // lophi_disk_access on the hooked device
    | Lock(i: nat)
    | Init(i: nat)                   // the meta record, once
    | Write(i: nat, n: nat)          // write() accepts n bytes
    | Unlock(i: nat)

  function Start(): State {
    State([], false, None, [], [])
  }

  function SetPc(s: State, i: nat, pc: Pc): State
    requires i < |s.workers|
  {
    s.(workers := s.workers[i := s.workers[i].(pc := pc)])
  }

  /** One event; an event that cannot happen changes nothing. */
  function Step(meta: seq<Byte>, s: State, e: Event): State {
    match e
    case Spawn(f) => s.(workers := s.workers + [Worker(f, Queued)])
    case Lock(i) =>
      if i < |s.workers| && s.workers[i].pc.Queued? && s.lock.None?
      then SetPc(s, i, Entered).(lock := Some(i)) else s
    case Init(i) =>
      if i < |s.workers| && s.workers[i].pc.Entered?
      then SetPc(s, i, Writing(0)).(stream := if s.commInit then s.stream else s.stream + meta,
                                    commInit := true)
      else s
    case Write(i, n) =>
      if i < |s.workers| && s.workers[i].pc.Writing? && n > 0
         && s.workers[i].pc.done + n <= |s.workers[i].frame|
      then var done := s.workers[i].pc.done;
        SetPc(s, i, Writing(done + n)).(stream := s.stream + s.workers[i].frame[done..done + n])
      else s
    case Unlock(i) =>
      if i < |s.workers| && s.workers[i].pc.Writing?
         && s.workers[i].pc.done == |s.workers[i].frame|
      then SetPc(s, i, Finished).(lock := None, order := s.order + [i]) else s
  }

  function Run(meta: seq<Byte>, events: seq<Event>): State {
    if events == [] then Start() else Step(meta, Run(meta, events[..|events| - 1]), events[|events| - 1])
  }

  /** The frames of the finished workers, in lock order. */
  function Done(s: State): seq<seq<Byte>>
    requires forall k :: 0 <= k < |s.order| ==> s.order[k] < |s.workers|
  {
    seq(|s.order|, k requires 0 <= k < |s.order| => s.workers[s.order[k]].frame)
  }

  /** What the lock holder has written of its own frame. */
  function Partial(s: State): seq<Byte> {
    if s.lock.Some? && s.lock.value < |s.workers| && s.workers[s.lock.value].pc.Writing?
       && s.workers[s.lock.value].pc.done <= |s.workers[s.lock.value].frame|
    then s.workers[s.lock.value].frame[..s.workers[s.lock.value].pc.done]
    else []
  }

  ghost predicate OrderInv(s: State) {
    && (forall k :: 0 <= k < |s.order| ==> s.order[k] < |s.workers| && s.workers[s.order[k]].pc.Finished?)
    && (forall j, k :: 0 <= j < k < |s.order| ==> s.order[j] != s.order[k])
    && (forall i :: 0 <= i < |s.workers| && s.workers[i].pc.Finished? ==> i in s.order)
  }

  predicate Inside(pc: Pc) {
    pc.Entered? || pc.Writing?
  }

  ghost predicate LockInv(s: State) {
    && (s.lock.Some? ==> s.lock.value < |s.workers| && Inside(s.workers[s.lock.value].pc))
    && (forall i :: 0 <= i < |s.workers| && Inside(s.workers[i].pc) ==> s.lock == Some(i))
    && (forall i :: 0 <= i < |s.workers| && s.workers[i].pc.Writing? ==>
          s.commInit && s.workers[i].pc.done <= |s.workers[i].frame|)
    && (!s.commInit ==> s.order == [])
  }

  ghost predicate StreamInv(meta: seq<Byte>, s: State)
    requires OrderInv(s)
  {
    s.stream == (if s.commInit then meta else []) + Concat(Done(s)) + Partial(s)
  }

  ghost predicate Inv(meta: seq<Byte>, s: State) {
    OrderInv(s) && LockInv(s) && StreamInv(meta, s)
  }

  lemma AppendFrame(frames: seq<seq<Byte>>, f: seq<Byte>)
    ensures Concat(frames + [f]) == Concat(frames) + f
  {
    var all := frames + [f];
    assert all[..|all| - 1] == frames;
  }

  lemma OrderKeeps(meta: seq<Byte>, s: State, e: Event)
    requires OrderInv(s) && LockInv(s)
    ensures OrderInv(Step(meta, s, e))
  {
    if e.Unlock? && Step(meta, s, e) != s {
      assert e.i !in s.order;
    }
  }

  lemma LockKeeps(meta: seq<Byte>, s: State, e: Event)
    requires OrderInv(s) && LockInv(s)
    ensures LockInv(Step(meta, s, e))
  {
  }

  /** Nothing but a worker's own unlock adds a whole frame. */
  lemma DoneStep(meta: seq<Byte>, s: State, e: Event)
    requires OrderInv(s) && LockInv(s)
    ensures var t := Step(meta, s, e);
            && OrderInv(t)
            && Done(t) == if e.Unlock? && t.order != s.order then Done(s) + [s.workers[e.i].frame] else Done(s)
  {
    OrderKeeps(meta, s, e);
  }

  /** Bytes accepted at the end of the stream extend its last part. */
  lemma Extend(stream: seq<Byte>, a: seq<Byte>, b: seq<Byte>, c: seq<Byte>, more: seq<Byte>)
    requires stream == a + b + c
    ensures stream + more == a + b + (c + more)
  {
  }

  lemma WritePartial(meta: seq<Byte>, s: State, i: nat, n: nat)
    requires LockInv(s) && Step(meta, s, Write(i, n)) != s
    ensures var t := Step(meta, s, Write(i, n));
            var more := s.workers[i].frame[s.workers[i].pc.done..s.workers[i].pc.done + n];
            t.stream == s.stream + more && Partial(t) == Partial(s) + more && t.commInit == s.commInit
  {
    var f, done := s.workers[i].frame, s.workers[i].pc.done;
    assert f[..done + n] == f[..done] + f[done..done + n];
  }

  lemma WriteKeeps(meta: seq<Byte>, s: State, i: nat, n: nat, t: State)
    requires Inv(meta, s) && t == Step(meta, s, Write(i, n)) && t != s && OrderInv(t) && Done(t) == Done(s)
    ensures StreamInv(meta, t)
  {
    WritePartial(meta, s, i, n);
    var more := s.workers[i].frame[s.workers[i].pc.done..s.workers[i].pc.done + n];
    Extend(s.stream, if s.commInit then meta else [], Concat(Done(s)), Partial(s), more);
  }

  lemma UnlockKeeps(meta: seq<Byte>, s: State, i: nat, t: State)
    requires Inv(meta, s) && t == Step(meta, s, Unlock(i)) && t != s && OrderInv(t)
    requires Done(t) == Done(s) + [s.workers[i].frame]
    ensures StreamInv(meta, t)
  {
    AppendFrame(Done(s), s.workers[i].frame);
    assert Partial(s) == s.workers[i].frame && Partial(t) == [];
  }

  lemma InitKeeps(meta: seq<Byte>, s: State, i: nat, t: State)
    requires Inv(meta, s) && t == Step(meta, s, Init(i)) && OrderInv(t) && Done(t) == Done(s)
    ensures StreamInv(meta, t)
  {
    if t != s {
      assert Partial(s) == [] && Partial(t) == [];
      if !s.commInit {
        assert Done(s) == [];
      }
    }
  }

  lemma QuietKeeps(meta: seq<Byte>, s: State, e: Event, t: State)
    requires Inv(meta, s) && t == Step(meta, s, e) && (e.Spawn? || e.Lock?) && OrderInv(t) && Done(t) == Done(s)
    ensures StreamInv(meta, t)
  {
    assert Partial(t) == Partial(s);
  }

  lemma StepInv(meta: seq<Byte>, s: State, e: Event)
    requires Inv(meta, s)
    ensures Inv(meta, Step(meta, s, e))
  {
    var t := Step(meta, s, e);
    LockKeeps(meta, s, e);
    DoneStep(meta, s, e);
    if t != s {
      match e
      case Spawn(_) => QuietKeeps(meta, s, e, t);
      case Lock(_) => QuietKeeps(meta, s, e, t);
      case Init(i) => InitKeeps(meta, s, i, t);
      case Write(i, n) => WriteKeeps(meta, s, i, n, t);
      case Unlock(i) =>
        assert t.order != s.order;
        UnlockKeeps(meta, s, i, t);
    }
  }

  lemma {:induction false} RunInv(meta: seq<Byte>, events: seq<Event>)
    ensures Inv(meta, Run(meta, events))
  {
    if events != [] {
      RunInv(meta, events[..|events| - 1]);
      StepInv(meta, Run(meta, events[..|events| - 1]), events[|events| - 1]);
    }
  }

  /** For every interleaving and every pattern of short writes the socket carries one meta record,
      then whole frames, one per finished worker in lock order, then part of the lock holder's. */
  lemma StreamIsFrames(meta: seq<Byte>, events: seq<Event>)
    ensures var s := Run(meta, events);
            && OrderInv(s)
            && s.stream == (if s.commInit then meta else []) + Concat(Done(s)) + Partial(s)
            && (s.stream != [] ==> s.commInit)
  {
    RunInv(meta, events);
  }

  // ---- every access reaches the stream ----

  function Then(meta: seq<Byte>, s: State, events: seq<Event>): State
    decreases |events|
  {
    if events == [] then s else Then(meta, Step(meta, s, events[0]), events[1..])
  }

  lemma {:induction false} RunThen(meta: seq<Byte>, events: seq<Event>, more: seq<Event>)
    ensures Run(meta, events + more) == Then(meta, Run(meta, events), more)
    decreases |more|
  {
    if more == [] {
      assert events + more == events;
    } else {
      var next := events + [more[0]];
      assert next[..|events|] == events;
      RunThen(meta, next, more[1..]);
      assert next + more[1..] == events + more;
    }
  }

  lemma {:induction false} ThenConcat(meta: seq<Byte>, s: State, a: seq<Event>, b: seq<Event>)
    ensures Then(meta, s, a + b) == Then(meta, Then(meta, s, a), b)
    decreases |a|
  {
    if a == [] {
      assert a + b == b;
    } else {
      ThenConcat(meta, Step(meta, s, a[0]), a[1..], b);
      assert (a + b)[1..] == a[1..] + b;
    }
  }

  lemma ThenOne(meta: seq<Byte>, s: State, e: Event)
    ensures Then(meta, s, [e]) == Step(meta, s, e)
  {
    assert Then(meta, Step(meta, s, e), []) == Step(meta, s, e);
  }

  /** The state once the lock holder has written the rest of its frame and unlocked. */
  function Released(meta: seq<Byte>, s: State, i: nat): State
    requires i < |s.workers| && (s.workers[i].pc.Writing? ==> s.workers[i].pc.done <= |s.workers[i].frame|)
  {
    var w := s.workers[i];
    var done := if w.pc.Writing? then w.pc.done else 0;
    SetPc(s, i, Finished).(
      lock := None, order := s.order + [i], commInit := true,
      stream := s.stream + (if s.commInit then [] else meta) + w.frame[done..])
  }

  /** Writing the rest in one write, and unlocking. */
  lemma WriterReleases(meta: seq<Byte>, s: State, i: nat) returns (events: seq<Event>)
    requires i < |s.workers| && s.workers[i].pc.Writing? && s.workers[i].pc.done <= |s.workers[i].frame| && s.commInit
    ensures Then(meta, s, events) == Released(meta, s, i)
  {
    var f, done := s.workers[i].frame, s.workers[i].pc.done;
    assert s.stream + [] == s.stream;
    if done == |f| {
      events := [Unlock(i)];
      ThenOne(meta, s, Unlock(i));
      assert s.stream + f[done..] == s.stream;
    } else {
      var write := Write(i, |f| - done);
      var t := Step(meta, s, write);
      ThenOne(meta, s, write);
      ThenOne(meta, t, Unlock(i));
      ThenConcat(meta, s, [write], [Unlock(i)]);
      events := [write] + [Unlock(i)];
      assert t.workers[i := t.workers[i].(pc := Finished)] == s.workers[i := s.workers[i].(pc := Finished)];
      assert f[done..|f|] == f[done..];
    }
  }

  lemma HolderReleases(meta: seq<Byte>, s: State, i: nat) returns (events: seq<Event>)
    requires LockInv(s) && s.lock == Some(i)
    ensures Then(meta, s, events) == Released(meta, s, i)
  {
    if s.workers[i].pc.Writing? {
      events := WriterReleases(meta, s, i);
    } else {
      var t := Step(meta, s, Init(i));
      ThenOne(meta, s, Init(i));
      var rest := WriterReleases(meta, t, i);
      ThenConcat(meta, s, [Init(i)], rest);
      events := [Init(i)] + rest;
      assert s.stream + [] == s.stream && t.stream + [] == t.stream;
      assert t.workers[i := t.workers[i].(pc := Finished)] == s.workers[i := s.workers[i].(pc := Finished)];
    }
  }

  /** A waiting worker that finds the lock free. */
  lemma QueuedFinishes(meta: seq<Byte>, s: State, i: nat) returns (events: seq<Event>)
    requires OrderInv(s) && LockInv(s) && s.lock.None? && i < |s.workers| && s.workers[i].pc.Queued?
    ensures Then(meta, s, events) == Released(meta, s, i)
  {
    var t := Step(meta, s, Lock(i));
    ThenOne(meta, s, Lock(i));
    LockKeeps(meta, s, Lock(i));
    var rest := HolderReleases(meta, t, i);
    ThenConcat(meta, s, [Lock(i)], rest);
    events := [Lock(i)] + rest;
    assert t.workers[i := t.workers[i].(pc := Finished)] == s.workers[i := s.workers[i].(pc := Finished)];
  }

  lemma {:induction false} ThenInv(meta: seq<Byte>, s: State, events: seq<Event>)
    requires Inv(meta, s)
    ensures Inv(meta, Then(meta, s, events))
    decreases |events|
  {
    if events != [] {
      StepInv(meta, s, events[0]);
      ThenInv(meta, Step(meta, s, events[0]), events[1..]);
    }
  }

  /** From every reachable state every worker not yet finished can still finish: if the lock is free at once,
      and otherwise after the lock holder. Then the stream has grown by exactly its frame, and by the meta
      record in front of it if that was not sent yet. */
  lemma EveryAccessIsWritten(meta: seq<Byte>, events: seq<Event>, i: nat) returns (more: seq<Event>)
    requires i < |Run(meta, events).workers| && !Run(meta, events).workers[i].pc.Finished?
    ensures i in Run(meta, events + more).order
    ensures var s := Run(meta, events);
            s.lock.None? ==> Run(meta, events + more).stream
                             == s.stream + (if s.commInit then [] else meta) + s.workers[i].frame
  {
    var s := Run(meta, events);
    RunInv(meta, events);
    if s.lock == Some(i) {
      more := HolderReleases(meta, s, i);
    } else if s.lock.None? {
      more := QueuedFinishes(meta, s, i);
    } else {
      var first := HolderReleases(meta, s, s.lock.value);
      ThenInv(meta, s, first);
      var second := QueuedFinishes(meta, Then(meta, s, first), i);
      ThenConcat(meta, s, first, second);
      more := first + second;
    }
    RunThen(meta, events, more);
  }

  // ---- one access after the other ----

  function Sum(sizes: seq<nat>): nat {
    if sizes == [] then 0 else Sum(sizes[..|sizes| - 1]) + sizes[|sizes| - 1]
  }

  /** A way to write a frame in pieces. */
  predicate Splits(frame: seq<Byte>, sizes: seq<nat>) {
    Sum(sizes) == |frame| && forall k :: 0 <= k < |sizes| ==> sizes[k] > 0
  }

  function Writes(i: nat, sizes: seq<nat>): seq<Event> {
    if sizes == [] then [] else Writes(i, sizes[..|sizes| - 1]) + [Write(i, sizes[|sizes| - 1])]
  }

  function Turn(k: nat, frame: seq<Byte>, sizes: seq<nat>): seq<Event> {
    [Spawn(frame), Lock(k), Init(k)] + Writes(k, sizes) + [Unlock(k)]
  }

  /** Access k is handed over, locked, written in pieces and unlocked before access k+1 comes. */
  function InTurn(frames: seq<seq<Byte>>, splits: seq<seq<nat>>): seq<Event>
    requires |splits| == |frames|
  {
    if frames == [] then [] else
    var k := |frames| - 1;
    InTurn(frames[..k], splits[..k]) + Turn(k, frames[k], splits[k])
  }

  lemma {:induction false} WritesAdd(meta: seq<Byte>, s: State, i: nat, sizes: seq<nat>)
    requires i < |s.workers| && s.workers[i].pc == Writing(0) && Sum(sizes) <= |s.workers[i].frame|
    requires forall k :: 0 <= k < |sizes| ==> sizes[k] > 0
    ensures Then(meta, s, Writes(i, sizes))
            == SetPc(s, i, Writing(Sum(sizes))).(stream := s.stream + s.workers[i].frame[..Sum(sizes)])
  {
    var f := s.workers[i].frame;
    if sizes == [] {
      assert s.stream + f[..0] == s.stream;
      assert s.workers[i := s.workers[i].(pc := Writing(0))] == s.workers;
    } else {
      var front, n := sizes[..|sizes| - 1], sizes[|sizes| - 1];
      WritesAdd(meta, s, i, front);
      var t := Then(meta, s, Writes(i, front));
      ThenConcat(meta, s, Writes(i, front), [Write(i, n)]);
      ThenOne(meta, t, Write(i, n));
      assert f[..Sum(sizes)] == f[..Sum(front)] + f[Sum(front)..Sum(sizes)];
      assert s.stream + f[..Sum(front)] + f[Sum(front)..Sum(sizes)] == s.stream + f[..Sum(sizes)];
      assert t.workers[i := t.workers[i].(pc := Writing(Sum(sizes)))]
          == s.workers[i := s.workers[i].(pc := Writing(Sum(sizes)))];
    }
  }

  /** A state in which everything is written and nothing is locked. */
  predicate Settled(s: State, n: nat) {
    s.lock.None? && |s.workers| == n && (s.commInit <==> n > 0)
  }

  lemma OneTurn(meta: seq<Byte>, s: State, f: seq<Byte>, sizes: seq<nat>)
    requires Settled(s, |s.workers|) && Splits(f, sizes)
    ensures var k := |s.workers|;
            var t := Then(meta, s, Turn(k, f, sizes));
            Settled(t, k + 1) && t.stream == s.stream + (if s.commInit then [] else meta) + f
  {
    var k := |s.workers|;
    var a := Step(meta, s, Spawn(f));
    var b := Step(meta, a, Lock(k));
    var c := Step(meta, b, Init(k));
    var open := [Spawn(f), Lock(k), Init(k)];
    assert open[1..] == [Lock(k), Init(k)] && open[1..][1..] == [Init(k)];
    ThenOne(meta, b, Init(k));
    assert Then(meta, s, open) == c;
    assert c.workers[k] == Worker(f, Writing(0)) && c.stream == s.stream + if s.commInit then [] else meta;
    WritesAdd(meta, c, k, sizes);
    var d := Then(meta, c, Writes(k, sizes));
    ThenConcat(meta, s, open, Writes(k, sizes));
    ThenConcat(meta, s, open + Writes(k, sizes), [Unlock(k)]);
    ThenOne(meta, d, Unlock(k));
    assert f[..|f|] == f;
  }

  lemma Shift(a: seq<Byte>, b: seq<Byte>)
    ensures [] + [] + a + b == a + ([] + b)
  {
  }

  lemma Splice(a: seq<Byte>, b: seq<Byte>, c: seq<Byte>)
    ensures a + b + [] + c == a + (b + c)
  {
  }

  lemma JoinTurn(meta: seq<Byte>, frames: seq<seq<Byte>>)
    requires frames != []
    ensures var k := |frames| - 1;
            (if k == 0 then [] else meta) + Concat(frames[..k]) + (if k > 0 then [] else meta) + frames[k]
            == meta + Concat(frames)
  {
    var k := |frames| - 1;
    assert Concat(frames) == Concat(frames[..k]) + frames[k];
    if k == 0 {
      assert frames[..k] == [] && Concat(frames[..k]) == [];
      Shift(meta, frames[k]);
    } else {
      Splice(meta, Concat(frames[..k]), frames[k]);
    }
  }

  /** Any accesses one after the other, each written in any pieces, come to the meta record and all their
      frames in order. */
  lemma {:induction false} InTurnWritesAll(meta: seq<Byte>, frames: seq<seq<Byte>>, splits: seq<seq<nat>>)
    requires |splits| == |frames| && forall k :: 0 <= k < |frames| ==> Splits(frames[k], splits[k])
    ensures var s := Run(meta, InTurn(frames, splits));
            && Settled(s, |frames|)
            && s.stream == (if frames == [] then [] else meta) + Concat(frames)
  {
    if frames != [] {
      var k := |frames| - 1;
      var before := InTurn(frames[..k], splits[..k]);
      InTurnWritesAll(meta, frames[..k], splits[..k]);
      var s := Run(meta, before);
      OneTurn(meta, s, frames[k], splits[k]);
      RunThen(meta, before, Turn(k, frames[k], splits[k]));
      JoinTurn(meta, frames);
    }
  }
}
