/** The introspection server's connection loop: refill one buffer from arbitrary reads, check the
    header, forward the frame. The loop is stated for any header check; `Check` is the server's. */
module StreamServer {
  import opened Prelude
  import opened DiskFrames

  const BUFFER_SIZE := MAX_BYTES_SENT + HEADER

  /** Kill the connection, or take `size` more bytes and forward the packet if `forwards`. */
  datatype Verdict = Kill | Accept(size: nat, forwards: bool)

  type Judge = seq<Byte> -> Verdict

  /** What a byte stream means: its frames, the bytes of an unfinished one, and whether a bad header
      ended the connection. Defined on the whole stream, without reads or a buffer. */
  datatype Parsed = Parsed(frames: seq<seq<Byte>>, rest: seq<Byte>, killed: bool)

  function Joined(frames: seq<seq<Byte>>, r: Parsed): Parsed {
    r.(frames := frames + r.frames)
  }

  function Parse(judge: Judge, b: seq<Byte>): Parsed
    decreases |b|
  {
    if |b| < HEADER then Parsed([], b, false) else
    match judge(b[..HEADER])
    case Kill => Parsed([], b, true)
    case Accept(size, _) =>
      if |b| < HEADER + size then Parsed([], b, false)
      else Joined([b[..HEADER + size]], Parse(judge, b[HEADER + size..]))
  }

  /** A frame that passes the check and carries as many bytes as its header says. */
  predicate Whole(judge: Judge, f: seq<Byte>) {
    |f| >= HEADER && judge(f[..HEADER]).Accept? && |f| == HEADER + judge(f[..HEADER]).size
  }

  /** A frame that is whole, or whose header ends the connection. */
  predicate Proper(judge: Judge, f: seq<Byte>) {
    |f| >= HEADER && (Whole(judge, f) || judge(f[..HEADER]).Kill?)
  }

  // ---- the loop ----

  /** Bytes one call moves when it may move `cap`, at least one and at most `want`. */
  function Moved(cap: int, want: int): (n: int)
    requires want > 0
    ensures 0 < n <= want
  {
    if cap <= 0 then 1 else Min(cap, want)
  }

  /** Reads into buffer[from..to] until it is full or the stream ends; read k moves up to
      readCaps(k) bytes. */
  method Fill(input: seq<Byte>, pos: nat, buffer: array<Byte>, from: nat, to: nat,
              readCaps: nat -> int, first: nat) returns (filled: nat, next: nat)
    requires pos <= |input| && from <= to <= buffer.Length
    modifies buffer
    ensures filled == Min(to - from, |input| - pos)
    ensures buffer[..from] == old(buffer[..from])
    ensures buffer[from..from + filled] == input[pos..pos + filled]
  {
    filled, next := 0, first;
    while from + filled < to && pos + filled < |input|
      invariant from + filled <= to && pos + filled <= |input|
      invariant forall i :: 0 <= i < from ==> buffer[i] == old(buffer[i])
      invariant forall i :: from <= i < from + filled ==> buffer[i] == input[pos + i - from]
    {
      var n := Moved(readCaps(next), Min(to - from - filled, |input| - pos - filled));
      forall i | from + filled <= i < from + filled + n {
        buffer[i] := input[pos + i - from];
      }
      filled, next := filled + n, next + 1;
    }
  }

  /** forward_data: sends until the packet is out or a send fails. `sent` is what the socket took. */
  method ForwardData(packet: seq<Byte>, sendCaps: nat -> int, first: nat)
    returns (sent: seq<Byte>, alive: bool, next: nat)
    ensures sent <= packet
    ensures if alive then sent == packet else |sent| < |packet|
    ensures (forall k :: sendCaps(k) > 0) ==> alive
  {
    var written := 0;
    sent, alive, next := [], true, first;
    while written < |packet| && alive
      invariant written <= |packet| && sent == packet[..written]
      invariant (forall k :: sendCaps(k) > 0) ==> alive
      invariant !alive ==> written < |packet|
      decreases |packet| - written, alive
    {
      var w := sendCaps(next);
      next := next + 1;
      if w <= 0 {
        alive := false;
      } else {
        var n := Moved(w, Min(MAX_BYTES_SENT, |packet| - written));
        sent := sent + packet[written..written + n];
        written := written + n;
      }
    }
  }

  /** Whether a client is attached when frame i is complete; `changes` are the updates in between. */
  function Subscribed(changes: nat -> Option<bool>, i: nat): bool {
    match changes(i)
    case Some(v) => v
    case None => if i == 0 then false else Subscribed(changes, i - 1)
  }

  function Packet(judge: Judge, frame: seq<Byte>): seq<Byte> {
    if |frame| >= HEADER && judge(frame[..HEADER]).Accept? && judge(frame[..HEADER]).forwards
    then frame else []
  }

  function Relay(judge: Judge, frames: seq<seq<Byte>>, changes: nat -> Option<bool>): seq<Byte> {
    if frames == [] then [] else
    var n := |frames| - 1;
    Relay(judge, frames[..n], changes) + if Subscribed(changes, n) then Packet(judge, frames[n]) else []
  }

  /** Whether a client is attached when the next frame is complete. `cuts` says of each frame before
      whether a send failed, and after how many bytes; a failed send detaches the client. */
  predicate Attached(changes: nat -> Option<bool>, cuts: seq<Option<nat>>)
    decreases |cuts|, 1
  {
    match changes(|cuts|)
    case Some(v) => v
    case None => StillAttached(changes, cuts)
  }

  predicate StillAttached(changes: nat -> Option<bool>, cuts: seq<Option<nat>>)
    decreases |cuts|, 0
  {
    cuts != [] && cuts[|cuts| - 1].None? && Attached(changes, cuts[..|cuts| - 1])
  }

  function UpTo(packet: seq<Byte>, cut: Option<nat>): seq<Byte> {
    if cut.Some? && cut.value <= |packet| then packet[..cut.value] else packet
  }

  /** The bytes forwarded: the packets of the frames completed while a client is attached, those during
      which a send failed cut there. */
  function CutRelay(judge: Judge, frames: seq<seq<Byte>>, changes: nat -> Option<bool>, cuts: seq<Option<nat>>)
    : seq<Byte>
    requires |cuts| == |frames|
  {
    if frames == [] then [] else
    var n := |frames| - 1;
    CutRelay(judge, frames[..n], changes, cuts[..n])
    + if Attached(changes, cuts[..n]) then UpTo(Packet(judge, frames[n]), cuts[n]) else []
  }

  /** A packet is cut only while a client is attached, and before its end. */
  ghost predicate RealCuts(judge: Judge, frames: seq<seq<Byte>>, changes: nat -> Option<bool>, cuts: seq<Option<nat>>) {
    |cuts| == |frames| && forall i :: 0 <= i < |cuts| && cuts[i].Some? ==>
      Attached(changes, cuts[..i]) && cuts[i].value < |Packet(judge, frames[i])|
  }

  /** After a failed send nothing is forwarded before the next attach. */
  lemma {:induction false} DetachedUntilAttached(changes: nat -> Option<bool>, cuts: seq<Option<nat>>, i: nat)
    requires i < |cuts| && cuts[i].Some?
    requires forall j :: i < j <= |cuts| ==> changes(j) != Some(true)
    ensures !Attached(changes, cuts)
  {
    if i < |cuts| - 1 {
      DetachedUntilAttached(changes, cuts[..|cuts| - 1], i);
    }
  }

  predicate NoCut(cuts: seq<Option<nat>>) {
    forall i :: 0 <= i < |cuts| ==> cuts[i].None?
  }

  /** If no send fails, that is all frames completed while a client is attached. */
  lemma {:induction false} UncutRelay(judge: Judge, frames: seq<seq<Byte>>, changes: nat -> Option<bool>,
                                      cuts: seq<Option<nat>>)
    requires |cuts| == |frames| && NoCut(cuts)
    ensures CutRelay(judge, frames, changes, cuts) == Relay(judge, frames, changes)
    ensures Attached(changes, cuts) == Subscribed(changes, |cuts|)
    ensures StillAttached(changes, cuts) == (cuts != [] && Subscribed(changes, |cuts| - 1))
  {
    if cuts != [] {
      UncutRelay(judge, frames[..|frames| - 1], changes, cuts[..|cuts| - 1]);
    }
  }

  lemma OneMoreCut(judge: Judge, frames: seq<seq<Byte>>, frame: seq<Byte>, changes: nat -> Option<bool>,
                   cuts: seq<Option<nat>>, cut: Option<nat>)
    requires RealCuts(judge, frames, changes, cuts)
    requires cut.Some? ==> Attached(changes, cuts) && cut.value < |Packet(judge, frame)|
    ensures RealCuts(judge, frames + [frame], changes, cuts + [cut])
    ensures CutRelay(judge, frames + [frame], changes, cuts + [cut]) == CutRelay(judge, frames, changes, cuts)
            + if Attached(changes, cuts) then UpTo(Packet(judge, frame), cut) else []
    ensures StillAttached(changes, cuts + [cut]) == (Attached(changes, cuts) && cut.None?)
  {
    var more := cuts + [cut];
    assert (frames + [frame])[..|frames|] == frames;
    assert more[..|cuts|] == cuts;
    forall i | 0 <= i < |cuts| ensures more[..i] == cuts[..i] {
    }
  }

  /** Where the forwarding stands after some frames. */
  ghost predicate Forwarded(judge: Judge, frames: seq<seq<Byte>>, changes: nat -> Option<bool>,
                            cuts: seq<Option<nat>>, attached: bool, relayed: seq<Byte>)
  {
    && RealCuts(judge, frames, changes, cuts) && relayed == CutRelay(judge, frames, changes, cuts)
    && attached == StillAttached(changes, cuts)
  }

  lemma ForwardedMore(judge: Judge, frames: seq<seq<Byte>>, frame: seq<Byte>, changes: nat -> Option<bool>,
                      cuts: seq<Option<nat>>, before: bool, relayed: seq<Byte>, cut: Option<nat>)
    requires Forwarded(judge, frames, changes, cuts, before, relayed)
    requires cut.Some? ==> Attached(changes, cuts) && cut.value < |Packet(judge, frame)|
    ensures var now := Attached(changes, cuts);
            Forwarded(judge, frames + [frame], changes, cuts + [cut], now && cut.None?,
                      relayed + if now then UpTo(Packet(judge, frame), cut) else [])
  {
    OneMoreCut(judge, frames, frame, changes, cuts, cut);
  }

  /** A packet forwarded if a client is attached, up to a failing send. */
  method ForwardIf(packet: seq<Byte>, attached: bool, sendCaps: nat -> int, first: nat)
    returns (sent: seq<Byte>, cut: Option<nat>, next: nat)
    ensures sent == if attached then UpTo(packet, cut) else []
    ensures cut.Some? ==> attached && cut.value < |packet|
    ensures (forall k :: sendCaps(k) > 0) ==> cut.None?
  {
    sent, cut, next := [], None, first;
    if attached {
      var alive;
      sent, alive, next := ForwardData(packet, sendCaps, first);
      if !alive {
        cut := Some(|sent|);
      }
    }
  }

  lemma FrameParses(judge: Judge, input: seq<Byte>, pos: nat, frame: seq<Byte>)
    requires pos + |frame| <= |input| && frame == input[pos..pos + |frame|] && Whole(judge, frame)
    ensures Parse(judge, input[pos..]) == Joined([frame], Parse(judge, input[pos + |frame|..]))
  {
    var b := input[pos..];
    assert b[..|frame|] == frame && b[..HEADER] == frame[..HEADER];
    assert b[|frame|..] == input[pos + |frame|..];
  }

  lemma NoFrameYet(judge: Judge, b: seq<Byte>)
    requires |b| < HEADER || judge(b[..HEADER]).Kill? || |b| < HEADER + judge(b[..HEADER]).size
    ensures Parse(judge, b) == Parsed([], b, |b| >= HEADER && judge(b[..HEADER]).Kill?)
  {
  }

  /** One frame read into the buffer, if the stream has all of it. */
  method ReadFrame(judge: Judge, input: seq<Byte>, pos: nat, buffer: array<Byte>, readCaps: nat -> int, first: nat)
    returns (frame: seq<Byte>, killed: bool, next: nat)
    requires pos <= |input| && buffer.Length == BUFFER_SIZE
    requires forall h :: judge(h).Accept? ==> judge(h).size <= MAX_BYTES_SENT
    modifies buffer
    ensures |frame| <= |input| - pos
    ensures frame == [] ==> Parse(judge, input[pos..]) == Parsed([], input[pos..], killed)
    ensures frame != [] ==>
        !killed && Parse(judge, input[pos..]) == Joined([frame], Parse(judge, input[pos + |frame|..]))
  {
    frame, killed := [], false;
    var got;
    got, next := Fill(input, pos, buffer, 0, HEADER, readCaps, first);
    if got < HEADER {
      NoFrameYet(judge, input[pos..]);
      return;
    }
    var header := buffer[..HEADER];
    assert header == buffer[0..HEADER] == input[pos..pos + HEADER] == input[pos..][..HEADER];
    if judge(header).Kill? {
      NoFrameYet(judge, input[pos..]);
      killed := true;
      return;
    }
    var size := judge(header).size;
    got, next := Fill(input, pos + HEADER, buffer, HEADER, HEADER + size, readCaps, next);
    if got < size {
      NoFrameYet(judge, input[pos..]);
      return;
    }
    frame := buffer[..HEADER + size];
    assert frame == buffer[..HEADER] + buffer[HEADER..HEADER + size];
    assert frame == header + input[pos + HEADER..pos + HEADER + size] == input[pos..pos + |frame|];
    assert frame[..HEADER] == header;
    FrameParses(judge, input, pos, frame);
  }

  lemma JoinStep(frames: seq<seq<Byte>>, f: seq<Byte>, r: Parsed)
    ensures Joined(frames, Joined([f], r)) == Joined(frames + [f], r)
  {
    assert frames + ([f] + r.frames) == frames + [f] + r.frames;
  }

  /** The frames recovered from the stream up to a position. */
  ghost predicate Recovered(judge: Judge, input: seq<Byte>, pos: nat, frames: seq<seq<Byte>>) {
    pos <= |input| && Parse(judge, input) == Joined(frames, Parse(judge, input[pos..]))
  }

  lemma RecoveredMore(judge: Judge, input: seq<Byte>, pos: nat, frames: seq<seq<Byte>>, frame: seq<Byte>)
    requires Recovered(judge, input, pos, frames) && pos + |frame| <= |input|
    requires Parse(judge, input[pos..]) == Joined([frame], Parse(judge, input[pos + |frame|..]))
    ensures Recovered(judge, input, pos + |frame|, frames + [frame])
  {
    JoinStep(frames, frame, Parse(judge, input[pos + |frame|..]));
  }

  lemma RecoveredAll(judge: Judge, input: seq<Byte>, pos: nat, frames: seq<seq<Byte>>, killed: bool)
    requires Recovered(judge, input, pos, frames) && Parse(judge, input[pos..]) == Parsed([], input[pos..], killed)
    ensures frames == Parse(judge, input).frames && killed == Parse(judge, input).killed
  {
    assert frames + [] == frames;
  }

  /** The read loop after the meta record: whatever sizes the reads come in, it recovers the frames
      of the stream, never writes outside its buffer, and forwards exactly the frames completed while a
      client is attached, the one during which a send fails cut and the client detached. */
  method ReadLoop(judge: Judge, input: seq<Byte>, readCaps: nat -> int, changes: nat -> Option<bool>,
                  sendCaps: nat -> int)
    returns (frames: seq<seq<Byte>>, relayed: seq<Byte>, cuts: seq<Option<nat>>, killed: bool)
    requires forall h :: judge(h).Accept? ==> judge(h).size <= MAX_BYTES_SENT
    ensures frames == Parse(judge, input).frames && killed == Parse(judge, input).killed
    ensures RealCuts(judge, frames, changes, cuts) && relayed == CutRelay(judge, frames, changes, cuts)
    ensures (forall k :: sendCaps(k) > 0) ==> NoCut(cuts) && relayed == Relay(judge, frames, changes)
  {
    var buffer := new Byte[BUFFER_SIZE](_ => 0);
    var pos, next, out := 0, 0, 0;
    var attached := false;
    frames, relayed, cuts, killed := [], [], [], false;
    assert input[0..] == input && Recovered(judge, input, 0, frames);
    while pos < |input|
      invariant Recovered(judge, input, pos, frames) && !killed
      invariant Forwarded(judge, frames, changes, cuts, attached, relayed)
      invariant (forall k :: sendCaps(k) > 0) ==> NoCut(cuts)
      decreases |input| - pos
    {
      var frame;
      frame, killed, next := ReadFrame(judge, input, pos, buffer, readCaps, next);
      if frame == [] {
        break;
      }
      RecoveredMore(judge, input, pos, frames, frame);
      var now := match changes(|cuts|) case Some(v) => v case None => attached;
      var sent, cut;
      sent, cut, out := ForwardIf(Packet(judge, frame), now, sendCaps, out);
      ForwardedMore(judge, frames, frame, changes, cuts, attached, relayed, cut);
      relayed, attached := relayed + sent, now && cut.None?;
      frames, cuts := frames + [frame], cuts + [cut];
      pos := pos + |frame|;
    }
    RecoveredAll(judge, input, pos, frames, killed);
    if forall k :: sendCaps(k) > 0 {
      UncutRelay(judge, frames, changes, cuts);
    }
  }

  // ---- meaning of a stream of frames ----

  lemma ParseFirst(judge: Judge, f: seq<Byte>, tail: seq<Byte>)
    requires Whole(judge, f)
    ensures Parse(judge, f + tail) == Joined([f], Parse(judge, tail))
  {
    assert (f + tail)[..HEADER] == f[..HEADER];
    assert (f + tail)[|f|..] == tail && (f + tail)[..|f|] == f;
  }

  /** Whole frames in front of anything are recovered exactly and in order. */
  lemma {:induction false} ParseFrames(judge: Judge, frames: seq<seq<Byte>>, tail: seq<Byte>)
    requires forall k :: 0 <= k < |frames| ==> Whole(judge, frames[k])
    ensures Parse(judge, Concat(frames) + tail) == Joined(frames, Parse(judge, tail))
  {
    if frames == [] {
      assert Concat(frames) + tail == tail;
    } else {
      var init, f := frames[..|frames| - 1], frames[|frames| - 1];
      assert Concat(frames) + tail == Concat(init) + (f + tail);
      ParseFrames(judge, init, f + tail);
      ParseFirst(judge, f, tail);
      JoinStep(init, f, Parse(judge, tail));
      assert frames == init + [f];
    }
  }

  /** Part of a whole frame is neither a frame nor an error: the server waits for the rest. */
  lemma ParsePartial(judge: Judge, f: seq<Byte>, n: nat)
    requires Whole(judge, f) && n < |f|
    ensures Parse(judge, f[..n]) == Parsed([], f[..n], false)
  {
    if n >= HEADER {
      assert f[..n][..HEADER] == f[..HEADER];
    }
  }

  /** The frames before the first that is not whole. */
  function Accepted(judge: Judge, frames: seq<seq<Byte>>): seq<seq<Byte>> {
    if frames == [] then [] else
    var front, last := frames[..|frames| - 1], frames[|frames| - 1];
    if Accepted(judge, front) == front && Whole(judge, last) then frames else Accepted(judge, front)
  }

  ghost predicate SomeBad(judge: Judge, frames: seq<seq<Byte>>) {
    exists k :: 0 <= k < |frames| && !Whole(judge, frames[k])
  }

  /** What is accepted is cut off at the first frame that is not whole, if there is one. */
  lemma {:induction false} AcceptedIs(judge: Judge, frames: seq<seq<Byte>>) returns (j: nat)
    ensures j <= |frames| && Accepted(judge, frames) == frames[..j]
    ensures forall k :: 0 <= k < j ==> Whole(judge, frames[k])
    ensures j < |frames| ==> !Whole(judge, frames[j])
    ensures j == |frames| <==> !SomeBad(judge, frames)
  {
    if frames == [] {
      j := 0;
    } else {
      var front := frames[..|frames| - 1];
      j := AcceptedIs(judge, front);
      if j == |front| && Whole(judge, frames[j]) {
        j := |frames|;
      }
    }
  }

  lemma {:induction false} ConcatSplit(frames: seq<seq<Byte>>, j: nat)
    requires j < |frames|
    ensures Concat(frames) == Concat(frames[..j]) + frames[j] + Concat(frames[j + 1..])
  {
    var front, last := frames[..|frames| - 1], frames[|frames| - 1];
    if j < |front| {
      ConcatSplit(front, j);
      assert front[..j] == frames[..j];
      assert frames[j + 1..][..|frames| - j - 2] == front[j + 1..];
    }
  }

  lemma ParseKilled(judge: Judge, f: seq<Byte>, tail: seq<Byte>)
    requires |f| >= HEADER && judge(f[..HEADER]).Kill?
    ensures Parse(judge, f + tail) == Parsed([], f + tail, true)
  {
    assert (f + tail)[..HEADER] == f[..HEADER];
  }

  lemma CutAt(a: seq<Byte>, b: seq<Byte>, c: seq<Byte>, tail: seq<Byte>)
    ensures a + b + c + tail == a + (b + (c + tail))
  {
  }

  lemma ParseUpTo(judge: Judge, frames: seq<seq<Byte>>, j: nat, tail: seq<Byte>)
    requires j < |frames| && forall k :: 0 <= k < j ==> Whole(judge, frames[k])
    requires |frames[j]| >= HEADER && judge(frames[j][..HEADER]).Kill?
    ensures var p := Parse(judge, Concat(frames) + tail);
            p.frames == frames[..j] && p.killed
  {
    var front, f, rest := frames[..j], frames[j], Concat(frames[j + 1..]) + tail;
    ConcatSplit(frames, j);
    CutAt(Concat(front), f, Concat(frames[j + 1..]), tail);
    ParseFrames(judge, front, f + rest);
    ParseKilled(judge, f, rest);
  }

  /** Of any frames, the accepted ones are recovered and the first other one ends the connection. */
  lemma ParseAny(judge: Judge, frames: seq<seq<Byte>>, tail: seq<Byte>)
    requires forall k :: 0 <= k < |frames| ==> Proper(judge, frames[k])
    ensures var p := Parse(judge, Concat(frames) + tail);
            if SomeBad(judge, frames) then p.frames == Accepted(judge, frames) && p.killed
            else p == Joined(frames, Parse(judge, tail))
  {
    var j := AcceptedIs(judge, frames);
    if j < |frames| {
      ParseUpTo(judge, frames, j, tail);
    } else {
      ParseFrames(judge, frames, tail);
    }
  }

  // ---- the server's own check ----

  /** The sanity checks of the loop. A negative size passes them all when a multiple of 512. */
  predicate Sane(h: Header) {
    && h.size <= MAX_BYTES_SENT
    && (h.op == OP_INVALID || h.op == OP_WRITE || h.op == OP_READ)
    && h.size % SECTOR == 0
    && !(h.sector == 0 && h.numSectors == 0 && h.op == 0 && h.size == 0)
  }

  /** With a negative size the packet size is below the header's: nothing is read or forwarded. */
  function Check(bytes: seq<Byte>): (v: Verdict)
    ensures v.Accept? ==> v.size <= MAX_BYTES_SENT
  {
    if |bytes| != HEADER then Kill else
    var h := DecodeHeader(bytes);
    if !Sane(h) then Kill
    else if h.size < 0 then Accept(0, false)
    else Accept(h.size, true)
  }

  /** The checks on any header, as numbers. */
  lemma CheckIff(h: Header)
    requires h.Fits()
    ensures Check(EncodeHeader(h)).Kill? <==>
            || h.size > 524288 || h.op < 0 || h.op > 2 || h.size % 512 != 0
            || (h.sector == 0 && h.numSectors == 0 && h.op == 0 && h.size == 0)
    ensures Check(EncodeHeader(h)).Accept? ==>
            Check(EncodeHeader(h)) == if h.size < 0 then Accept(0, false) else Accept(h.size, true)
  {
    HeaderRoundTrip(h);
  }

  // ---- what the client gets, in terms of whole frames ----

  lemma {:induction false} ParsedAreWhole(judge: Judge, b: seq<Byte>)
    ensures forall k :: 0 <= k < |Parse(judge, b).frames| ==> Whole(judge, Parse(judge, b).frames[k])
    decreases |b|
  {
    if |b| >= HEADER && judge(b[..HEADER]).Accept? && |b| >= HEADER + judge(b[..HEADER]).size {
      var n := HEADER + judge(b[..HEADER]).size;
      ParsedAreWhole(judge, b[n..]);
      assert b[..n][..HEADER] == b[..HEADER];
    }
  }

  /** The frame's header does not announce a negative size. */
  predicate Sized(frame: seq<Byte>) {
    |frame| >= HEADER && DecodeHeader(frame[..HEADER]).size >= 0
  }

  predicate AllSized(frames: seq<seq<Byte>>) {
    forall k :: 0 <= k < |frames| ==> Sized(frames[k])
  }

  /** Of n frames, a client is attached exactly from frame i up to frame j. */
  ghost predicate Window(changes: nat -> Option<bool>, i: nat, j: nat, n: nat) {
    && i <= j <= n
    && (forall k :: 0 <= k < i ==> changes(k) != Some(true))
    && (i < j ==> changes(i) == Some(true)) && (forall k :: i < k < j ==> changes(k) != Some(false))
    && (i < j < n ==> changes(j) == Some(false)) && (forall k :: j <= k < n ==> changes(k) != Some(true))
  }

  lemma {:induction false} WindowIs(changes: nat -> Option<bool>, i: nat, j: nat, n: nat, k: nat)
    requires Window(changes, i, j, n) && k < n
    ensures Subscribed(changes, k) <==> i <= k < j
  {
    if k > 0 {
      WindowIs(changes, i, j, n, k - 1);
    }
  }

  lemma ConcatOneMore(frames: seq<seq<Byte>>, i: nat)
    requires i < |frames|
    ensures Concat(frames[i..]) == Concat(frames[i..|frames| - 1]) + frames[|frames| - 1]
  {
    var tail := frames[i..];
    assert tail[..|tail| - 1] == frames[i..|frames| - 1] && tail[|tail| - 1] == frames[|frames| - 1];
  }

  /** Each of the frames is forwarded as it is. */
  ghost predicate SentWhole(judge: Judge, frames: seq<seq<Byte>>) {
    forall k :: 0 <= k < |frames| ==> Packet(judge, frames[k]) == frames[k]
  }

  lemma SizedAreSent(frames: seq<seq<Byte>>)
    requires AllSized(frames) && forall k :: 0 <= k < |frames| ==> Whole(Check, frames[k])
    ensures SentWhole(Check, frames)
  {
    forall k | 0 <= k < |frames| ensures Packet(Check, frames[k]) == frames[k] {
      assert Sized(frames[k]) && Whole(Check, frames[k]);
    }
  }

  lemma SliceLast(frames: seq<seq<Byte>>, i: nat, j: nat)
    requires frames != [] && i <= j <= |frames|
    ensures var n := |frames| - 1;
            Concat(frames[i..j])
            == Concat(frames[..n][Min(i, n)..Min(j, n)]) + if i <= n < j then frames[n] else []
  {
    var n := |frames| - 1;
    var front := frames[..n][Min(i, n)..Min(j, n)];
    if i <= n < j {
      ConcatOneMore(frames, i);
      assert frames[i..j] == frames[i..] && front == frames[i..n];
    } else {
      assert front == frames[i..j];
    }
  }

  /** What is forwarded without a failing send, if a client is attached from frame i up to frame j. */
  lemma {:induction false} RelaySlice(judge: Judge, frames: seq<seq<Byte>>, changes: nat -> Option<bool>,
                                      i: nat, j: nat)
    requires SentWhole(judge, frames)
    requires i <= j <= |frames| && forall k :: 0 <= k < |frames| ==> (Subscribed(changes, k) <==> i <= k < j)
    ensures Relay(judge, frames, changes) == Concat(frames[i..j])
  {
    if frames == [] {
      assert frames[i..j] == [];
    } else {
      var n := |frames| - 1;
      RelaySlice(judge, frames[..n], changes, Min(i, n), Min(j, n));
      SliceLast(frames, i, j);
      assert Packet(judge, frames[n]) == frames[n];
    }
  }

  /** The first failing send hits frame m, with a client attached since frame i and none afterwards. */
  ghost predicate FailsAt(changes: nat -> Option<bool>, cuts: seq<Option<nat>>, i: nat, m: nat) {
    && i <= m < |cuts| && cuts[m].Some? && NoCut(cuts[..m])
    && (forall k :: 0 <= k < i ==> changes(k) != Some(true)) && changes(i) == Some(true)
    && (forall k :: i < k <= m ==> changes(k) != Some(false))
    && (forall k :: m < k < |cuts| ==> changes(k) != Some(true))
  }

  lemma {:induction false} SinceAttached(changes: nat -> Option<bool>, i: nat, m: nat, k: nat)
    requires i <= m && k <= m && changes(i) == Some(true)
    requires forall k :: 0 <= k < i ==> changes(k) != Some(true)
    requires forall k :: i < k <= m ==> changes(k) != Some(false)
    ensures Subscribed(changes, k) <==> i <= k
  {
    if k > 0 {
      SinceAttached(changes, i, m, k - 1);
    }
  }

  lemma FewerCuts(judge: Judge, frames: seq<seq<Byte>>, changes: nat -> Option<bool>, cuts: seq<Option<nat>>,
                  i: nat, m: nat)
    requires SentWhole(judge, frames) && RealCuts(judge, frames, changes, cuts) && FailsAt(changes, cuts, i, m)
    requires m < |frames| - 1
    ensures var n := |frames| - 1;
            && SentWhole(judge, frames[..n]) && RealCuts(judge, frames[..n], changes, cuts[..n])
            && FailsAt(changes, cuts[..n], i, m)
  {
    var n := |frames| - 1;
    forall k | 0 <= k <= n ensures cuts[..n][..k] == cuts[..k] {
    }
  }

  lemma LastCut(judge: Judge, frames: seq<seq<Byte>>, changes: nat -> Option<bool>, cuts: seq<Option<nat>>, i: nat)
    requires SentWhole(judge, frames) && |cuts| == |frames| > 0 && FailsAt(changes, cuts, i, |frames| - 1)
    ensures var m := |frames| - 1;
            CutRelay(judge, frames, changes, cuts) == Concat(frames[i..m]) + UpTo(Packet(judge, frames[m]), cuts[m])
  {
    var m := |frames| - 1;
    UncutRelay(judge, frames[..m], changes, cuts[..m]);
    forall k | 0 <= k < m ensures Subscribed(changes, k) <==> i <= k < m {
      SinceAttached(changes, i, m, k);
    }
    SinceAttached(changes, i, m, m);
    RelaySlice(judge, frames[..m], changes, i, m);
    assert frames[..m][i..m] == frames[i..m];
  }

  /** What is forwarded then: the frames since, and the failing one cut. */
  lemma {:induction false} CutSlice(judge: Judge, frames: seq<seq<Byte>>, changes: nat -> Option<bool>,
                                    cuts: seq<Option<nat>>, i: nat, m: nat)
    requires SentWhole(judge, frames) && RealCuts(judge, frames, changes, cuts) && FailsAt(changes, cuts, i, m)
    ensures cuts[m].value < |frames[m]|
    ensures CutRelay(judge, frames, changes, cuts) == Concat(frames[i..m]) + frames[m][..cuts[m].value]
  {
    var n := |frames| - 1;
    assert Packet(judge, frames[m]) == frames[m];
    if m < n {
      FewerCuts(judge, frames, changes, cuts, i, m);
      CutSlice(judge, frames[..n], changes, cuts[..n], i, m);
      DetachedUntilAttached(changes, cuts[..n], m);
      assert frames[..n][i..m] == frames[i..m];
    } else {
      LastCut(judge, frames, changes, cuts, i);
    }
  }

  /** The forwarded bytes in terms of whole frames: a client attached from frame i up to frame j gets exactly
      frames i to j-1, headers included, one never attached nothing, and one whose first failing send hits
      frame m gets the frames before and a proper part of that one. */
  ghost predicate ClientGets(frames: seq<seq<Byte>>, changes: nat -> Option<bool>, cuts: seq<Option<nat>>,
                             relayed: seq<Byte>)
  {
    && (NoCut(cuts) ==> forall i: nat, j: nat :: Window(changes, i, j, |frames|) ==> relayed == Concat(frames[i..j]))
    && (|cuts| == |frames| ==> forall i: nat, m: nat :: FailsAt(changes, cuts, i, m) ==>
          cuts[m].value < |frames[m]| && relayed == Concat(frames[i..m]) + frames[m][..cuts[m].value])
  }

  lemma RelayGets(frames: seq<seq<Byte>>, changes: nat -> Option<bool>, cuts: seq<Option<nat>>)
    requires AllSized(frames) && forall k :: 0 <= k < |frames| ==> Whole(Check, frames[k])
    requires RealCuts(Check, frames, changes, cuts)
    ensures ClientGets(frames, changes, cuts, CutRelay(Check, frames, changes, cuts))
  {
    SizedAreSent(frames);
    if NoCut(cuts) {
      UncutRelay(Check, frames, changes, cuts);
      forall i: nat, j: nat | Window(changes, i, j, |frames|)
        ensures Relay(Check, frames, changes) == Concat(frames[i..j])
      {
        forall k | 0 <= k < |frames| ensures Subscribed(changes, k) <==> i <= k < j {
          WindowIs(changes, i, j, |frames|, k);
        }
        RelaySlice(Check, frames, changes, i, j);
      }
    }
    forall i: nat, m: nat | FailsAt(changes, cuts, i, m)
      ensures cuts[m].value < |frames[m]|
      ensures CutRelay(Check, frames, changes, cuts) == Concat(frames[i..m]) + frames[m][..cuts[m].value]
    {
      CutSlice(Check, frames, changes, cuts, i, m);
    }
  }

  /** `hypervisor_connection`. */
  method Serve(input: seq<Byte>, readCaps: nat -> int, changes: nat -> Option<bool>, sendCaps: nat -> int)
    returns (frames: seq<seq<Byte>>, relayed: seq<Byte>, cuts: seq<Option<nat>>, killed: bool)
    ensures frames == Parse(Check, input).frames && killed == Parse(Check, input).killed
    ensures RealCuts(Check, frames, changes, cuts) && relayed == CutRelay(Check, frames, changes, cuts)
    ensures (forall k :: sendCaps(k) > 0) ==> NoCut(cuts)
    ensures AllSized(frames) ==> ClientGets(frames, changes, cuts, relayed)
  {
    frames, relayed, cuts, killed := ReadLoop(Check, input, readCaps, changes, sendCaps);
    ParsedAreWhole(Check, input);
    if AllSized(frames) {
      RelayGets(frames, changes, cuts);
    }
  }

  lemma CheckOfHeader(h: Header)
    requires h.Fits()
    ensures Check(EncodeHeader(h)) ==
            if !Sane(h) then Kill else if h.size < 0 then Accept(0, false) else Accept(h.size, true)
  {
    HeaderRoundTrip(h);
  }

  /** The accesses whose frames the server takes: at most 1024 sectors of a known operation, the empty
      read of sector 0 excepted. The hook itself has no such limit. */
  predicate Acceptable(a: Access) {
    && a.numSectors <= 1024 && (a.op == OP_READ || a.op == OP_WRITE || a.op == OP_INVALID)
    && !(a.sector == 0 && a.numSectors == 0 && a.op == OP_READ)
  }

  lemma SaneIff(a: Access)
    requires a.Fits()
    ensures var h := Header(a.sector, a.numSectors, a.op, a.numSectors * SECTOR);
            h.Fits() && h.size >= 0 && (Sane(h) <==> Acceptable(a))
  {
    assert a.numSectors * SECTOR % SECTOR == 0;
  }

  /** The hook's frame passes the server's checks exactly for an acceptable access, and otherwise its
      header ends the connection. */
  lemma HookFrameWholeIff(a: Access)
    requires a.Fits()
    ensures Whole(Check, Frame(a)) <==> Acceptable(a)
    ensures Proper(Check, Frame(a)) && Sized(Frame(a))
  {
    var h := Header(a.sector, a.numSectors, a.op, a.numSectors * SECTOR);
    SaneIff(a);
    CheckOfHeader(h);
    HeaderRoundTrip(h);
    var f := Frame(a);
    assert f[..HEADER] == EncodeHeader(h) && |f| == HEADER + h.size;
  }
}
