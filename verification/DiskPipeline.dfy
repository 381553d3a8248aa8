/** The hook and the introspection server end to end. */
module DiskPipeline {
  import opened Prelude
  import opened DiskFrames
  import opened HookStream
  import opened StreamServer

  /** Every frame handed to the hook is whole, or has a header that the server refuses. */
  predicate AllProper(judge: Judge, events: seq<Event>) {
    forall k :: 0 <= k < |events| && events[k].Spawn? ==> Proper(judge, events[k].frame)
  }

  ghost predicate WorkersProper(judge: Judge, s: State) {
    forall i :: 0 <= i < |s.workers| ==> Proper(judge, s.workers[i].frame)
  }

  lemma FramesKept(good: seq<Byte> -> bool, meta: seq<Byte>, s: State, e: Event)
    requires (forall i :: 0 <= i < |s.workers| ==> good(s.workers[i].frame)) && (e.Spawn? ==> good(e.frame))
    ensures forall i :: 0 <= i < |Step(meta, s, e).workers| ==> good(Step(meta, s, e).workers[i].frame)
  {
  }

  /** The workers' frames are the ones handed to the hook. */
  lemma {:induction false} FramesAsGiven(good: seq<Byte> -> bool, meta: seq<Byte>, events: seq<Event>)
    requires forall k :: 0 <= k < |events| && events[k].Spawn? ==> good(events[k].frame)
    ensures forall i :: 0 <= i < |Run(meta, events).workers| ==> good(Run(meta, events).workers[i].frame)
  {
    if events != [] {
      FramesAsGiven(good, meta, events[..|events| - 1]);
      FramesKept(good, meta, Run(meta, events[..|events| - 1]), events[|events| - 1]);
    }
  }

  /** The frames all of whose bytes are on the stream: the finished workers' in lock order, then the
      lock holder's if all of it is written. */
  function Complete(s: State): seq<seq<Byte>>
    requires OrderInv(s)
  {
    Done(s) + if Partial(s) != [] && Partial(s) == s.workers[s.lock.value].frame then [Partial(s)] else []
  }

  /** The frames whose header is on the stream. */
  function Announced(s: State): seq<seq<Byte>>
    requires OrderInv(s)
  {
    Done(s) + if |Partial(s)| >= HEADER then [s.workers[s.lock.value].frame] else []
  }

  /** What the lock holder has written so far: nothing before its header, an error if the header is
      refused, one frame when complete. */
  lemma HolderParses(judge: Judge, meta: seq<Byte>, s: State)
    requires Inv(meta, s) && Partial(s) != [] && WorkersProper(judge, s)
    ensures var part, f := Partial(s), s.workers[s.lock.value].frame;
            && part <= f
            && Parse(judge, part) ==
               if |part| >= HEADER && !Whole(judge, f) then Parsed([], part, true)
               else if part == f then Parsed([f], [], false) else Parsed([], part, false)
  {
    var f := s.workers[s.lock.value].frame;
    var n := s.workers[s.lock.value].pc.done;
    if n < HEADER {
    } else if !Whole(judge, f) {
      assert f[..n][..HEADER] == f[..HEADER];
    } else if n < |f| {
      ParsePartial(judge, f, n);
    } else {
      assert Partial(s) == f && f + [] == f;
      ParseFirst(judge, f, []);
    }
  }

  lemma AfterMeta(meta: seq<Byte>, a: seq<Byte>, b: seq<Byte>)
    ensures meta <= meta + a + b && (meta + a + b)[|meta|..] == a + b
  {
  }

  /** One more frame at the end. */
  lemma OneMoreFrame(judge: Judge, frames: seq<seq<Byte>>, f: seq<Byte>)
    ensures SomeBad(judge, frames + [f]) <==> SomeBad(judge, frames) || !Whole(judge, f)
    ensures Accepted(judge, frames + [f]) ==
            if SomeBad(judge, frames) || !Whole(judge, f) then Accepted(judge, frames) else frames + [f]
  {
    var all := frames + [f];
    assert all[..|frames|] == frames && all[|frames|] == f;
    if k :| 0 <= k < |frames| && !Whole(judge, frames[k]) {
      assert !Whole(judge, all[k]);
    }
    var j := AcceptedIs(judge, frames);
  }

  lemma NoneBad(judge: Judge, frames: seq<seq<Byte>>)
    requires !SomeBad(judge, frames)
    ensures Accepted(judge, frames) == frames
  {
    var j := AcceptedIs(judge, frames);
  }

  lemma StateToServer(judge: Judge, meta: seq<Byte>, s: State)
    requires Inv(meta, s) && s.commInit && WorkersProper(judge, s)
    ensures meta <= s.stream
    ensures var p := Parse(judge, s.stream[|meta|..]);
            p.frames == Accepted(judge, Complete(s)) && (p.killed <==> SomeBad(judge, Announced(s)))
  {
    AfterMeta(meta, Concat(Done(s)), Partial(s));
    ParseAny(judge, Done(s), Partial(s));
    if Partial(s) != [] {
      HolderParses(judge, meta, s);
      OneMoreFrame(judge, Done(s), s.workers[s.lock.value].frame);
    }
    if !SomeBad(judge, Done(s)) {
      NoneBad(judge, Done(s));
    }
    assert Done(s) + [] == Done(s);
  }

  /** For every interleaving of hook threads, every pattern of short writes, any accesses and every
      moment: from what follows the meta record the server recovers exactly the complete frames before
      the first that fails its check, and it ends the connection exactly if the header of one that
      fails is on the stream. */
  lemma HookToServer(judge: Judge, meta: seq<Byte>, events: seq<Event>)
    requires AllProper(judge, events)
    ensures var s := Run(meta, events);
            && OrderInv(s)
            && (s.commInit ==>
                  && meta <= s.stream
                  && Parse(judge, s.stream[|meta|..]).frames == Accepted(judge, Complete(s))
                  && (Parse(judge, s.stream[|meta|..]).killed <==> SomeBad(judge, Announced(s))))
  {
    RunInv(meta, events);
    FramesAsGiven(f => Proper(judge, f), meta, events);
    if Run(meta, events).commInit {
      StateToServer(judge, meta, Run(meta, events));
    }
  }

  /** The frame is the hook's for some access. */
  ghost predicate FromHook(f: seq<Byte>) {
    exists a: Access :: a.Fits() && f == Frame(a)
  }

  lemma HookFramesProper(events: seq<Event>)
    requires forall k :: 0 <= k < |events| && events[k].Spawn? ==> FromHook(events[k].frame)
    ensures AllProper(Check, events)
    ensures forall k :: 0 <= k < |events| && events[k].Spawn? ==> Sized(events[k].frame)
  {
    forall k | 0 <= k < |events| && events[k].Spawn?
      ensures Proper(Check, events[k].frame) && Sized(events[k].frame)
    {
      var a: Access :| a.Fits() && events[k].frame == Frame(a);
      HookFrameWholeIff(a);
    }
  }

  lemma AcceptedAreSized(s: State)
    requires OrderInv(s) && forall i :: 0 <= i < |s.workers| ==> Sized(s.workers[i].frame)
    ensures AllSized(Accepted(Check, Complete(s)))
  {
    var all := Complete(s);
    forall k | 0 <= k < |all| ensures Sized(all[k]) {
      assert k < |Done(s)| ==> all[k] == s.workers[s.order[k]].frame;
    }
    var j := AcceptedIs(Check, all);
  }

  /** The whole path as the programs run it: any accesses, any schedule of the hook's threads, any
      fragmentation into reads and sends, any attach times; the client gets exactly the accepted frames
      completed while it was attached, cut where a send fails. */
  method Pipeline(meta: seq<Byte>, ghost events: seq<Event>, stream: seq<Byte>,
                  readCaps: nat -> int, changes: nat -> Option<bool>, sendCaps: nat -> int)
    returns (frames: seq<seq<Byte>>, relayed: seq<Byte>, cuts: seq<Option<nat>>, killed: bool)
    requires forall k :: 0 <= k < |events| && events[k].Spawn? ==> FromHook(events[k].frame)
    requires Run(meta, events).commInit && stream == Run(meta, events).stream
    ensures OrderInv(Run(meta, events)) && frames == Accepted(Check, Complete(Run(meta, events)))
    ensures killed <==> SomeBad(Check, Announced(Run(meta, events)))
    ensures RealCuts(Check, frames, changes, cuts) && relayed == CutRelay(Check, frames, changes, cuts)
    ensures (forall k :: sendCaps(k) > 0) ==> NoCut(cuts)
    ensures ClientGets(frames, changes, cuts, relayed)
  {
    HookFramesProper(events);
    HookToServer(Check, meta, events);
    FramesAsGiven(f => Sized(f), meta, events);
    AcceptedAreSized(Run(meta, events));
    frames, relayed, cuts, killed := Serve(stream[|meta|..], readCaps, changes, sendCaps);
  }

  lemma HookFrames(judge: Judge, meta: seq<Byte>, s: State)
    requires Inv(meta, s) && forall i :: 0 <= i < |s.workers| ==> Whole(judge, s.workers[i].frame)
    ensures !SomeBad(judge, Complete(s)) && !SomeBad(judge, Announced(s))
  {
    assert forall k :: 0 <= k < |Done(s)| ==> Done(s)[k] == s.workers[s.order[k]].frame;
  }

  /** If every access is acceptable, every complete frame is recovered and the connection stays. */
  lemma AcceptableAccessesPass(meta: seq<Byte>, events: seq<Event>)
    requires forall k :: 0 <= k < |events| && events[k].Spawn? ==> Whole(Check, events[k].frame)
    requires Run(meta, events).commInit
    ensures var s := Run(meta, events);
            && OrderInv(s) && meta <= s.stream
            && Parse(Check, s.stream[|meta|..]).frames == Complete(s)
            && !Parse(Check, s.stream[|meta|..]).killed
  {
    var s := Run(meta, events);
    RunInv(meta, events);
    FramesAsGiven(f => Whole(Check, f), meta, events);
    HookFrames(Check, meta, s);
    HookToServer(Check, meta, events);
    NoneBad(Check, Complete(s));
  }
}
