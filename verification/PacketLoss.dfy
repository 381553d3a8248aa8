/** The packet-loss monitor: counting gaps in a sensor's 16-bit IP identification numbers. */
module PacketLoss {
  import opened Prelude

  type Id = x: nat | x < 0x1_0000

  /** A captured frame: what the monitor looks at. */
  datatype Frame = Frame(isIp: bool, fromSensor: bool, isUdp: bool, id: Id, size: nat)

  /** `shownTotal` and `shownDropped` are the values published to other processes. */
  datatype Counters = Counters(total: nat, dropped: nat, shownTotal: nat, shownDropped: nat, bytes: nat)

  const CYCLE := 0xffff

  predicate Counted(f: Frame) {
    f.isIp && f.fromSensor && f.isUdp
  }

  /** The identification numbers that are looked at, and the bytes of their frames. */
  function Ids(frames: seq<Frame>): seq<Id> {
    if frames == [] then [] else
    var f := frames[|frames| - 1];
    Ids(frames[..|frames| - 1]) + if Counted(f) then [f.id] else []
  }

  function Size(frames: seq<Frame>): nat {
    if frames == [] then 0 else
    var f := frames[|frames| - 1];
    Size(frames[..|frames| - 1]) + if Counted(f) then f.size else 0
  }

  /** Packets taken to be missing between two successive numbers. */
  function Missing(a: Id, b: Id): nat {
    if b > a + 1 then b - a - 1 else if b < a && b > 0 then b - 1 + (CYCLE - a) else 0
  }

  function Lost(ids: seq<Id>): nat {
    if |ids| < 2 then 0 else Lost(ids[..|ids| - 1]) + Missing(ids[|ids| - 2], ids[|ids| - 1])
  }

  /** What the loop holds after the given frames. The published total lags: it leaves out what the
      latest packet revealed as lost. */
  function Summary(frames: seq<Frame>): Counters {
    var ids := Ids(frames);
    Counters(
      |ids| + Lost(ids), Lost(ids),
      if ids == [] then 0 else |ids| + Lost(ids[..|ids| - 1]), Lost(ids),
      Size(frames))
  }

  function Last(ids: seq<Id>): Option<Id> {
    if ids == [] then None else Some(ids[|ids| - 1])
  }

  lemma OneMore(frames: seq<Frame>, f: Frame)
    ensures var a, b := Summary(frames), Summary(frames + [f]);
            var last := Last(Ids(frames));
            var gap := if last.None? then 0 else Missing(last.value, f.id);
            if Counted(f) then
              && Last(Ids(frames + [f])) == Some(f.id) && |Ids(frames + [f])| == |Ids(frames)| + 1
              && b == Counters(a.total + 1 + gap, a.dropped + gap, a.total + 1, a.dropped + gap, a.bytes + f.size)
            else Last(Ids(frames + [f])) == last && |Ids(frames + [f])| == |Ids(frames)| && b == a
  {
    var ids := Ids(frames);
    assert (frames + [f])[..|frames|] == frames;
    assert Ids(frames + [f]) == if Counted(f) then ids + [f.id] else ids;
    assert (ids + [f.id])[..|ids|] == ids;
  }

  /** The capture loop, over any frames. It never takes its error exit. */
  method Analyze(frames: seq<Frame>) returns (c: Counters, failed: bool)
    ensures c == Summary(frames)
    ensures !failed
    ensures c.total == |Ids(frames)| + c.dropped
    ensures c.shownTotal <= c.total && c.shownDropped == c.dropped
  {
    var last: Option<Id> := None;
    c, failed := Counters(0, 0, 0, 0, 0), false;
    for k := 0 to |frames|
      invariant !failed && c == Summary(frames[..k])
      invariant last == Last(Ids(frames[..k]))
    {
      var f := frames[k];
      OneMore(frames[..k], f);
      assert frames[..k + 1] == frames[..k] + [f];
      if !f.isIp {
        continue;
      }
      if f.fromSensor && f.isUdp {
        c := c.(bytes := c.bytes + f.size, total := c.total + 1);
        c := c.(shownTotal := c.total);
        if last.None? {
        } else if f.id > last.value + 1 {
          var gap := f.id - last.value - 1;
          c := c.(dropped := c.dropped + gap, total := c.total + gap);
          c := c.(shownDropped := c.dropped);
        } else if f.id < last.value && f.id > 0 {
          var gap := f.id - 1 + (CYCLE - last.value);
          c := c.(dropped := c.dropped + gap, total := c.total + gap);
          c := c.(shownDropped := c.dropped);
        }
        last := Some(f.id);
      }
      if c.dropped > c.total {
        failed := true;
        break;
      }
    }
    assert frames[..|frames|] == frames;
  }

  /** What other processes see can show more packets dropped than in all, exactly when the latest gap
      is larger than the number of packets received. */
  lemma PublishedIff(frames: seq<Frame>)
    ensures var c, ids := Summary(frames), Ids(frames);
            var gap := if |ids| < 2 then 0 else Missing(ids[|ids| - 2], ids[|ids| - 1]);
            c.shownDropped <= c.shownTotal <==> gap <= |ids|
  {
  }

  lemma PublishedCanExceed()
    ensures exists frames :: Summary(frames).shownDropped > Summary(frames).shownTotal
  {
    var a, b := Frame(true, true, true, 1, 0), Frame(true, true, true, 9, 0);
    OneMore([], a);
    assert [] + [a] == [a];
    assert Last(Ids([a])) == Some(1) && Summary([a]) == Counters(1, 0, 1, 0, 0);
    OneMore([a], b);
    assert Summary([a] + [b]) == Counters(9, 7, 2, 7, 0);
  }

  // ---- against what the sensor sent ----

  /** The sensor numbers its packets 1, 2, ..., 65535, 1, ...: packet j carries this. */
  function Stamp(j: nat): Id {
    j % CYCLE + 1
  }

  function Stamps(received: seq<nat>): seq<Id> {
    seq(|received|, i requires 0 <= i < |received| => Stamp(received[i]))
  }

  predicate InOrder(received: seq<nat>) {
    forall i, j :: 0 <= i < j < |received| ==> received[i] < received[j]
  }

  /** No run of losses is as long as a whole numbering cycle. */
  predicate GapsAreShort(received: seq<nat>) {
    forall i :: 0 < i < |received| ==> received[i] - received[i - 1] < CYCLE
  }

  /** Sent packets from the first to the last received one that did not arrive. */
  function TrulyLost(received: seq<nat>): nat
    requires InOrder(received)
  {
    if |received| < 2 then 0 else
    var n := |received|;
    TrulyLost(received[..n - 1]) + (received[n - 1] - received[n - 2] - 1)
  }

  lemma {:induction false} TrulyLostIsSpan(received: seq<nat>)
    requires InOrder(received) && received != []
    ensures TrulyLost(received) == received[|received| - 1] - received[0] + 1 - |received|
  {
    if |received| > 1 {
      TrulyLostIsSpan(received[..|received| - 1]);
    }
  }

  lemma StampAfter(j: nat, gap: nat)
    ensures var r, q := j % CYCLE, gap % CYCLE;
            Stamp(j + gap) == if r + q < CYCLE then r + q + 1 else r + q - CYCLE + 1
  {
    var r, q := j % CYCLE, gap % CYCLE;
    var a, b := j / CYCLE, gap / CYCLE;
    var carry := if r + q < CYCLE then 0 else 1;
    assert j + gap == (a + b + carry) * CYCLE + (r + q - carry * CYCLE);
  }

  /** What the monitor makes of a gap: its length modulo the cycle. */
  lemma MissingModuloCycle(j: nat, gap: nat)
    requires gap > 0
    ensures var q := gap % CYCLE;
            Missing(Stamp(j), Stamp(j + gap)) == if q == 0 then 0 else q - 1
  {
    StampAfter(j, gap);
  }

  lemma MissingIsTrueIff(j: nat, gap: nat)
    requires gap > 0
    ensures Missing(Stamp(j), Stamp(j + gap)) <= gap - 1
    ensures Missing(Stamp(j), Stamp(j + gap)) == gap - 1 <==> gap < CYCLE
  {
    MissingModuloCycle(j, gap);
  }

  lemma LostStep(received: seq<nat>)
    requires |received| > 1
    ensures var n := |received|;
            Lost(Stamps(received)) ==
              Lost(Stamps(received[..n - 1])) + Missing(Stamp(received[n - 2]), Stamp(received[n - 1]))
  {
    assert Stamps(received)[..|received| - 1] == Stamps(received[..|received| - 1]);
  }

  lemma GapsStep(received: seq<nat>)
    requires |received| > 1
    ensures var n := |received|;
            GapsAreShort(received) <==>
              GapsAreShort(received[..n - 1]) && received[n - 1] - received[n - 2] < CYCLE
  {
    var n := |received|;
    var before := received[..n - 1];
    if GapsAreShort(before) && received[n - 1] - received[n - 2] < CYCLE {
      forall i | 0 < i < n ensures received[i] - received[i - 1] < CYCLE {
        assert i < n - 1 ==> before[i] == received[i] && before[i - 1] == received[i - 1];
      }
    }
    if GapsAreShort(received) {
      forall i | 0 < i < n - 1 ensures before[i] - before[i - 1] < CYCLE {
        assert received[i] - received[i - 1] < CYCLE;
      }
    }
  }

  /** The monitor never counts more than was lost, and counts exactly that if and only if no gap
      reaches a whole cycle. */
  lemma {:induction false} LostIsTrueIff(received: seq<nat>)
    requires InOrder(received)
    ensures Lost(Stamps(received)) <= TrulyLost(received)
    ensures Lost(Stamps(received)) == TrulyLost(received) <==> GapsAreShort(received)
  {
    var n := |received|;
    if n > 1 {
      LostIsTrueIff(received[..n - 1]);
      LostStep(received);
      GapsStep(received);
      var gap := received[n - 1] - received[n - 2];
      MissingIsTrueIff(received[n - 2], gap);
      assert received[n - 2] + gap == received[n - 1];
    }
  }

  /** Whatever else is captured in between: the counters equal the packets sent from the first to the
      last one received, and those of them lost, exactly when every gap is shorter than a cycle. */
  lemma CountersAreTrueIff(frames: seq<Frame>, received: seq<nat>)
    requires InOrder(received) && received != [] && Ids(frames) == Stamps(received)
    ensures var c, span := Summary(frames), received[|received| - 1] - received[0] + 1;
            c.dropped == span - |received| && c.total == span <==> GapsAreShort(received)
  {
    LostIsTrueIff(received);
    TrulyLostIsSpan(received);
  }

  // ---- what is counted ----

  /** IP packets from the sensor's address that carry UDP. */
  function Relevant(frames: seq<Frame>): seq<Frame> {
    if frames == [] then [] else
    var f := frames[|frames| - 1];
    Relevant(frames[..|frames| - 1]) + if f.isIp && f.fromSensor && f.isUdp then [f] else []
  }

  function Sizes(frames: seq<Frame>): nat {
    if frames == [] then 0 else Sizes(frames[..|frames| - 1]) + frames[|frames| - 1].size
  }

  lemma SameStep(a: seq<Frame>, b: seq<Frame>, f: Frame)
    requires Summary(a) == Summary(b) && Last(Ids(a)) == Last(Ids(b)) && |Ids(a)| == |Ids(b)|
    ensures var c := if f.isIp && f.fromSensor && f.isUdp then b + [f] else b;
            && Summary(a + [f]) == Summary(c) && Last(Ids(a + [f])) == Last(Ids(c))
            && |Ids(a + [f])| == |Ids(c)| == |Ids(b)| + (if f.isIp && f.fromSensor && f.isUdp then 1 else 0)
            && Summary(c).bytes == Summary(b).bytes + if f.isIp && f.fromSensor && f.isUdp then f.size else 0
  {
    OneMore(a, f);
    OneMore(b, f);
  }

  /** For any frames the counters are those of the relevant ones alone, every one of which is counted: any
      other frame leaves them alone. */
  lemma {:induction false} OnlyRelevantCount(frames: seq<Frame>)
    ensures Summary(frames) == Summary(Relevant(frames))
    ensures Last(Ids(frames)) == Last(Ids(Relevant(frames)))
    ensures |Ids(frames)| == |Relevant(frames)| && Summary(frames).bytes == Sizes(Relevant(frames))
  {
    if frames != [] {
      var front, f := frames[..|frames| - 1], frames[|frames| - 1];
      var some := Relevant(front);
      OnlyRelevantCount(front);
      assert front + [f] == frames;
      SameStep(front, some, f);
      assert (some + [f])[..|some|] == some && some + [] == some;
    }
  }

  /** What is taken to be missing between any two numbers: nothing before 0 or before the same number again,
      and otherwise what a cyclic numbering from 1 to 65535 passes over on the way. */
  lemma MissingIs(a: Id, b: Id)
    ensures b == 0 || b == a ==> Missing(a, b) == 0
    ensures b != 0 && b != a ==> Missing(a, b) < 65535 && (a + 1 + Missing(a, b)) % 65535 == b % 65535
  {
    if b != 0 && b < a {
      assert a + 1 + Missing(a, b) == b + 65535;
    }
  }
}
