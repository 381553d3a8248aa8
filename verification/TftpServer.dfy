/** The server side of one transfer: `TftpConnection` as a value with step functions, the class
    that updates its fields in place, and the retry loop around the socket. */
module TftpServer {
  import opened Prelude
  import opened TftpWire

  // What self.file is: open for reading, open for writing, or never opened.
  datatype Mode = NoFile | Reading | Writing

  /** The fields of a connection. `outbox` is every datagram handed to the socket, oldest first;
      `ended` says an exception left the `connect` loop. */
  datatype Conn = Conn(
    blocksize: nat,
    active: bool,
    ended: bool,
    blockNumber: int,
    lastpkt: Option<Packet>,
    mode: Mode,
    source: seq<Byte>,
    position: nat,
    writes: seq<seq<Byte>>,
    outbox: seq<Packet>)

  /** A connection as constructed; `connect` makes it active. */
  function Fresh(blocksize: nat): Conn {
    Conn(blocksize, false, false, 0, None, NoFile, [], 0, [], [])
  }

  predicate Live(c: Conn) {
    c.active && !c.ended
  }

  function Send(c: Conn, p: Packet): Conn {
    c.(outbox := c.outbox + [p], lastpkt := Some(p))
  }

  function Retransmit(c: Conn): Conn {
    if c.lastpkt.Some? then c.(outbox := c.outbox + [c.lastpkt.value]) else c
  }

  /** file.read(blocksize), then send_data: the number is advanced before struct.pack may raise. */
  function ReadAndSend(c: Conn): Conn
    requires c.position <= |c.source|
  {
    if c.mode != Reading then c.(ended := true) else
    var stop := Min(c.position + c.blocksize, |c.source|);
    var data := c.source[c.position..stop];
    var next := c.(position := stop, blockNumber := c.blockNumber + 1);
    match Pack(next.blockNumber)
    case None => next.(ended := true)
    case Some(f) => Send(next, Data(f, data)).(active := |data| == c.blocksize)
  }

  function SendAck(c: Conn): Conn {
    var next := c.(blockNumber := c.blockNumber + 1);
    match Pack(c.blockNumber)
    case None => next.(ended := true)
    case Some(f) => Send(next, Ack(f))
  }

  function RecvAck(c: Conn, block: Field): Conn
    requires c.position <= |c.source|
  {
    if Signed(block) == c.blockNumber && c.active then ReadAndSend(c) else c
  }

  /** recv_data then handle_data: the acknowledgement goes out before the bytes are written. */
  function RecvData(c: Conn, block: Field, data: seq<Byte>): Conn {
    if Signed(block) != c.blockNumber then c else
    var sent := SendAck(c.(active := c.blocksize == |data|));
    if sent.ended then sent
    else if sent.mode != Writing then sent.(ended := true)
    else sent.(writes := sent.writes + [data])
  }

  /** A TftpError: an error packet outside `send` (lastpkt untouched), and the loop is left. */
  function Abort(c: Conn, code: Field): Conn {
    c.(outbox := c.outbox + [Err(code, [])], ended := true)
  }

  /** One iteration of the `connect` loop on a parsed packet. An OACK is an unknown packet type. */
  function Dispatch(c: Conn, p: Packet): Conn
    requires c.position <= |c.source|
  {
    match p
    case Data(k, d) => RecvData(c, k, d)
    case Ack(k) => RecvAck(c, k)
    case Err(_, _) => Retransmit(c)
    case Oack(_, _) => Abort(c, 4)
    case Request(_) => Abort(c, 5)
  }

  /** The options of a read request that matter: their values, if given. */
  datatype Ask = Ask(tsize: Option<int>, blksize: Option<nat>)

  /** What a read request names: `size` is None when it cannot be sized, `bytes` when it cannot be
      opened. */
  datatype Resource = Resource(size: Option<nat>, bytes: Option<seq<Byte>>)

  /** handle_rrq: only a tsize of 0 gets an option reply, and only the absence of tsize a first block. */
  function HandleRrq(c: Conn, ask: Ask, r: Resource): Conn
    requires c.position == 0
  {
    if ask.tsize == Some(0) && r.size.None? then c.(active := false, outbox := c.outbox + [Err(1, [])]) else
    var offered :=
      if ask.tsize == Some(0) then Send(c, Oack(r.size.value, ask.blksize)).(lastpkt := None) else c;
    match r.bytes
    case None => offered.(outbox := offered.outbox + [Err(1, [])])
    case Some(bytes) =>
      var reading := offered.(mode := Reading, source := bytes);
      if ask.tsize.None? then ReadAndSend(reading) else reading
  }

  /** What a write request names; writing to a URL is only logged. */
  datatype Target = Opens | CannotOpen | Url

  function HandleWrq(c: Conn, target: Target): Conn {
    match target
    case Opens => SendAck(c.(mode := Writing))
    case CannotOpen => c.(outbox := c.outbox + [Err(1, [])])
    case Url => c
  }

  /** The datagram that opened the connection. */
  datatype Opening = Rrq(ask: Ask, resource: Resource) | Wrq(blksize: Option<nat>, target: Target) | NoRequest

  function Begin(c: Conn, blksize: Option<nat>): Conn {
    c.(active := true, blocksize := if blksize.Some? then blksize.value else c.blocksize)
  }

  /** `connect` up to its loop: `parse` adopts the client's block size, then the request is handled. */
  function Open(c: Conn, o: Opening): Conn
    requires c.position == 0
  {
    match o
    case NoRequest => Abort(c, 4)
    case Rrq(ask, resource) => HandleRrq(Begin(c, ask.blksize), ask, resource)
    case Wrq(blksize, target) => HandleWrq(Begin(c, blksize), target)
  }

  // ---- the transfer as a sequence of actions ----

  datatype Action = Again | Take(packet: Packet) | GiveUp

  /** What a live connection does on one action; a dead one does nothing. */
  function Perform(c: Conn, a: Action): (r: Conn)
    requires c.position <= |c.source|
    ensures r.position <= |r.source|
  {
    if !Live(c) then c else
    match a
    case Again => Retransmit(c)
    case Take(p) => Dispatch(c, p)
    case GiveUp => Abort(c, 4)
  }

  function Times(outbox: seq<Packet>, p: Packet): nat {
    multiset(outbox)[p]
  }

  lemma OneMoreTime(outbox: seq<Packet>, x: Packet, p: Packet)
    ensures Times(outbox + [x], p) == Times(outbox, p) + if x == p then 1 else 0
  {
  }

  /** What was handed to the socket between two states of the outbox. */
  function Added(before: seq<Packet>, after: seq<Packet>): set<Packet> {
    if |before| <= |after| then set p | p in after[|before|..] else {}
  }

  lemma AddedOne(outbox: seq<Packet>, p: Packet)
    ensures Added(outbox, outbox + [p]) == {p} && Added(outbox, outbox) == {}
  {
    assert (outbox + [p])[|outbox|..] == [p] && outbox[|outbox|..] == [];
  }

  /** Nothing is taken back, and what is new was handed to the socket. */
  lemma OutboxGrows(c: Conn, a: Action)
    requires c.position <= |c.source|
    ensures var d := Perform(c, a);
            c.outbox <= d.outbox && forall p :: p in d.outbox <==> p in c.outbox || p in Added(c.outbox, d.outbox)
  {
    var d := Perform(c, a);
    assert c.outbox <= d.outbox;
    assert d.outbox == c.outbox + d.outbox[|c.outbox|..];
  }

  function Replay(c: Conn, actions: seq<Action>): (r: Conn)
    requires c.position <= |c.source|
    ensures r.position <= |r.source|
  {
    if actions == [] then c else Perform(Replay(c, actions[..|actions| - 1]), actions[|actions| - 1])
  }

  lemma {:induction false} ReplayConcat(c: Conn, a: seq<Action>, b: seq<Action>)
    requires c.position <= |c.source|
    ensures Replay(c, a + b) == Replay(Replay(c, a), b)
  {
    if b == [] {
      assert a + b == a;
    } else {
      ReplayConcat(c, a, b[..|b| - 1]);
      assert (a + b)[..|a + b| - 1] == a + b[..|b| - 1];
    }
  }

  /** A connection that is no longer live stays as it is. */
  lemma {:induction false} ReplayDead(c: Conn, actions: seq<Action>)
    requires c.position <= |c.source| && !Live(c)
    ensures Replay(c, actions) == c
  {
    if actions != [] {
      ReplayDead(c, actions[..|actions| - 1]);
    }
  }

  lemma ReplayOne(c: Conn, a: Action)
    requires c.position <= |c.source|
    ensures Replay(c, [a]) == Perform(c, a)
  {
    assert [a][..0] == [];
    assert Replay(c, []) == c;
  }

  function Agains(n: nat): seq<Action> {
    seq(n, i => Again)
  }

  function Copies(p: Option<Packet>, n: nat): (s: seq<Packet>)
    ensures forall q :: q in s ==> Some(q) == p
    ensures |s| == if p.Some? then n else 0
  {
    if p.None? || n == 0 then [] else Copies(p, n - 1) + [p.value]
  }

  lemma {:induction false} ReplayRetries(c: Conn, n: nat)
    requires c.position <= |c.source| && Live(c)
    ensures Replay(c, Agains(n)) == c.(outbox := c.outbox + Copies(c.lastpkt, n))
  {
    if n > 0 {
      ReplayRetries(c, n - 1);
      assert Agains(n)[..n - 1] == Agains(n - 1);
    }
  }

  lemma RetriesThen(c: Conn, n: nat, rest: seq<Action>)
    requires c.position <= |c.source| && Live(c)
    ensures Replay(c, Agains(n) + rest) == Replay(c.(outbox := c.outbox + Copies(c.lastpkt, n)), rest)
  {
    ReplayRetries(c, n);
    ReplayConcat(c, Agains(n), rest);
  }

  // ---- waiting for a packet ----

  /** What one select/recvfrom round of `recv` yields. */
  datatype Arrival = Quiet | From(addr: int, packet: Packet)

  datatype Outcome = Got(packet: Packet) | TimedOut | Waiting

  /** The number of silent rounds among the first n. */
  function Quiets(arrivals: seq<Arrival>, n: nat): (q: nat)
    requires n <= |arrivals|
    ensures q <= n
  {
    if n == 0 then 0
    else Quiets(arrivals, n - 1) + if arrivals[n - 1].Quiet? then 1 else 0
  }

  /** What the connection does with the rounds `recv` sees: `left` re-sends remain in this wait, and a
      packet from another address is passed over. */
  function Plan(arrivals: seq<Arrival>, addr: int, retry: nat, left: nat): seq<Action> {
    if left == 0 then [GiveUp]
    else if arrivals == [] then []
    else match arrivals[0]
      case Quiet => [Again] + Plan(arrivals[1..], addr, retry, left - 1)
      case From(a, p) =>
        if a == addr then [Take(p)] + Plan(arrivals[1..], addr, retry, retry)
        else Plan(arrivals[1..], addr, retry, left)
  }

  /** Only packets from the client's own address are taken. */
  lemma {:induction false} PlanTakesOwn(arrivals: seq<Arrival>, addr: int, retry: nat, left: nat, p: Packet)
    requires Take(p) in Plan(arrivals, addr, retry, left)
    ensures From(addr, p) in arrivals
  {
    if arrivals[0] != From(addr, p) {
      var rest := if arrivals[0].Quiet? then left - 1 else if arrivals[0].addr == addr then retry else left;
      PlanTakesOwn(arrivals[1..], addr, retry, rest, p);
    }
  }

  predicate OnlyTakes(actions: seq<Action>) {
    forall i :: 0 <= i < |actions| ==> actions[i].Take?
  }

  /** Rounds in which exactly these packets arrive from the client, without a silent one. */
  function Heard(addr: int, actions: seq<Action>): seq<Arrival>
    requires OnlyTakes(actions)
  {
    seq(|actions|, i requires 0 <= i < |actions| => From(addr, actions[i].packet))
  }

  /** With a re-send left, packets that keep coming are all taken. */
  lemma {:induction false} PlanOfHeard(addr: int, retry: nat, left: nat, actions: seq<Action>)
    requires OnlyTakes(actions) && retry > 0 && left > 0
    ensures Plan(Heard(addr, actions), addr, retry, left) == actions
    decreases |actions|
  {
    if actions != [] {
      PlanOfHeard(addr, retry, retry, actions[1..]);
      assert Heard(addr, actions)[1..] == Heard(addr, actions[1..]);
    }
  }

  lemma OneMoreAgain(n: nat, rest: seq<Action>)
    ensures Agains(n) + ([Again] + rest) == Agains(n + 1) + rest
  {
  }

  /** What is left of the plan after one wait. */
  function PlanAfter(r: Outcome, later: seq<Action>): seq<Action> {
    match r
    case Waiting => []
    case TimedOut => [GiveUp]
    case Got(p) => [Take(p)] + later
  }

  /** Carrying out the plan through one wait. */
  lemma PlanRound(c: Conn, q: nat, r: Outcome, later: seq<Action>)
    requires c.position <= |c.source| && Live(c)
    ensures var d := c.(outbox := c.outbox + Copies(c.lastpkt, q));
            Replay(c, Agains(q) + PlanAfter(r, later)) ==
              match r {
                case Waiting => d
                case TimedOut => Abort(d, 4)
                case Got(p) => Replay(Dispatch(d, p), later)
              }
  {
    RetriesThen(c, q, PlanAfter(r, later));
    var d := c.(outbox := c.outbox + Copies(c.lastpkt, q));
    match r
    case Waiting =>
    case TimedOut => ReplayOne(d, GiveUp);
    case Got(p) =>
      ReplayOne(d, Take(p));
      ReplayConcat(d, [Take(p)], later);
  }

  /** One connection of the server; the fields are those of `Conn`. */
  class TftpConnection {
    const clientAddr: int
    const retry: nat
    var blocksize: nat
    var active: bool
    var ended: bool
    var blockNumber: int
    var lastpkt: Option<Packet>
    var mode: Mode
    var source: seq<Byte>
    var position: nat
    var writes: seq<seq<Byte>>
    var outbox: seq<Packet>

    function View(): Conn
      reads this
    {
      Conn(blocksize, active, ended, blockNumber, lastpkt, mode, source, position, writes, outbox)
    }

    ghost predicate Valid()
      reads this
    {
      position <= |source|
    }

    constructor (addr: int, blocksize: nat, retry: nat)
      ensures View() == Fresh(blocksize) && Valid()
      ensures clientAddr == addr && this.retry == retry
    {
      clientAddr, this.retry := addr, retry;
      this.blocksize, active, ended, blockNumber := blocksize, false, false, 0;
      lastpkt, mode, source, position := None, NoFile, [], 0;
      writes, outbox := [], [];
    }

    method SendPacket(p: Packet)
      modifies this
      ensures View() == Send(old(View()), p)
    {
      outbox := outbox + [p];
      lastpkt := Some(p);
    }

    method Resend()
      modifies this
      ensures View() == Retransmit(old(View()))
    {
      if lastpkt.Some? {
        outbox := outbox + [lastpkt.value];
      }
    }

    method SendNextData()
      requires Valid()
      modifies this
      ensures View() == ReadAndSend(old(View())) && Valid()
    {
      if mode != Reading {
        ended := true;
        return;
      }
      var stop := Min(position + blocksize, |source|);
      var data := source[position..stop];
      position := stop;
      blockNumber := blockNumber + 1;
      match Pack(blockNumber) {
        case None => ended := true;
        case Some(f) =>
          SendPacket(Data(f, data));
          active := |data| == blocksize;
      }
    }

    method SendAckPacket()
      modifies this
      ensures View() == SendAck(old(View()))
    {
      var block := blockNumber;
      blockNumber := blockNumber + 1;
      match Pack(block) {
        case None => ended := true;
        case Some(f) => SendPacket(Ack(f));
      }
    }

    method ReceiveData(block: Field, data: seq<Byte>)
      modifies this
      ensures View() == RecvData(old(View()), block, data)
    {
      if Signed(block) == blockNumber {
        active := blocksize == |data|;
        SendAckPacket();
        if !ended {
          if mode == Writing {
            writes := writes + [data];
          } else {
            ended := true;
          }
        }
      }
    }

    method Handle(p: Packet)
      requires Valid()
      modifies this
      ensures View() == Dispatch(old(View()), p) && Valid()
    {
      match p {
        case Data(k, d) => ReceiveData(k, d);
        case Ack(k) =>
          if Signed(k) == blockNumber && active {
            SendNextData();
          }
        case Err(_, _) => Resend();
        case Oack(_, _) => outbox, ended := outbox + [Err(4, [])], true;
        case Request(_) => outbox, ended := outbox + [Err(5, [])], true;
      }
    }

    method ReadRequest(ask: Ask, r: Resource)
      requires position == 0
      modifies this
      ensures View() == HandleRrq(old(View()), ask, r)
      ensures Valid()
    {
      if ask.tsize == Some(0) {
        if r.size.None? {
          active := false;
          outbox := outbox + [Err(1, [])];
          return;
        }
        SendPacket(Oack(r.size.value, ask.blksize));
        lastpkt := None;
      }
      match r.bytes {
        case None => outbox := outbox + [Err(1, [])];
        case Some(bytes) =>
          mode, source := Reading, bytes;
          if ask.tsize.None? {
            SendNextData();
          }
      }
    }

    method WriteRequest(target: Target)
      modifies this
      ensures View() == HandleWrq(old(View()), target)
    {
      match target {
        case Opens =>
          mode := Writing;
          SendAckPacket();
        case CannotOpen => outbox := outbox + [Err(1, [])];
        case Url =>
      }
    }

    method StartWith(blksize: Option<nat>)
      modifies this
      ensures View() == Begin(old(View()), blksize)
    {
      if blksize.Some? {
        blocksize := blksize.value;
      }
      active := true;
    }

    /** `recv`: every silent round re-sends the last packet and nothing else, at most `retry` times;
        the packet returned is the first one from the client's own address. */
    method Recv(arrivals: seq<Arrival>) returns (r: Outcome, used: nat)
      modifies this
      ensures used <= |arrivals| && Quiets(arrivals, used) <= retry
      ensures View() == old(View()).(outbox := old(outbox) + Copies(old(lastpkt), Quiets(arrivals, used)))
      ensures r.Got? ==> used > 0 && arrivals[used - 1] == From(clientAddr, r.packet)
      ensures r.TimedOut? <==> Quiets(arrivals, used) == retry
      ensures r.Waiting? ==> used == |arrivals|
      ensures Plan(arrivals, clientAddr, retry, retry)
           == Agains(Quiets(arrivals, used)) + PlanAfter(r, Plan(arrivals[used..], clientAddr, retry, retry))
      ensures forall i :: 0 <= i < used && arrivals[i].From? && arrivals[i].addr == clientAddr ==>
                          r.Got? && i == used - 1
    {
      var left := retry;
      used := 0;
      assert arrivals[0..] == arrivals;
      while left != 0
        invariant used <= |arrivals| && left == retry - Quiets(arrivals, used)
        invariant View() == old(View()).(outbox := old(outbox) + Copies(old(lastpkt), retry - left))
        invariant forall i :: 0 <= i < used && arrivals[i].From? ==> arrivals[i].addr != clientAddr
        invariant Plan(arrivals, clientAddr, retry, retry)
               == Agains(retry - left) + Plan(arrivals[used..], clientAddr, retry, left)
        decreases |arrivals| - used
      {
        if used == |arrivals| {
          return Waiting, used;
        }
        var a := arrivals[used];
        assert arrivals[used..][1..] == arrivals[used + 1..];
        used := used + 1;
        if a.Quiet? {
          OneMoreAgain(retry - left, Plan(arrivals[used..], clientAddr, retry, left - 1));
          left := left - 1;
          Resend();
        } else if a.addr == clientAddr {
          return Got(a.packet), used;
        }
      }
      r := TimedOut;
    }

    /** One pass of that loop; `waiting` when nothing more has arrived. */
    method Exchange(arrivals: seq<Arrival>) returns (waiting: bool, used: nat)
      requires Valid() && active && !ended
      modifies this
      ensures Valid() && used <= |arrivals| && (waiting || used > 0 || ended)
      ensures Replay(old(View()), Plan(arrivals, clientAddr, retry, retry))
           == if waiting then View() else Replay(View(), Plan(arrivals[used..], clientAddr, retry, retry))
    {
      ghost var before := View();
      var r;
      r, used := Recv(arrivals);
      PlanRound(before, Quiets(arrivals, used), r, Plan(arrivals[used..], clientAddr, retry, retry));
      waiting := r.Waiting?;
      match r {
        case Waiting =>
        case TimedOut =>
          outbox, ended := outbox + [Err(4, [])], true;
          ReplayDead(View(), Plan(arrivals[used..], clientAddr, retry, retry));
        case Got(p) => Handle(p);
      }
    }

    /** The loop of `connect`: the connection does exactly what the plan for the rounds says, up to
        where it is no longer live. */
    method Transfer(arrivals: seq<Arrival>)
      requires Valid()
      modifies this
      ensures Valid() && View() == Replay(old(View()), Plan(arrivals, clientAddr, retry, retry))
    {
      ghost var goal := Replay(View(), Plan(arrivals, clientAddr, retry, retry));
      var rest := arrivals;
      while active && !ended
        invariant Valid() && goal == Replay(View(), Plan(rest, clientAddr, retry, retry))
        decreases |rest|, !ended
      {
        var waiting, used := Exchange(rest);
        if waiting {
          return;
        }
        rest := rest[used..];
      }
      ReplayDead(View(), Plan(rest, clientAddr, retry, retry));
    }

    /** `connect`: the request, then the loop over whatever arrives. */
    method Connect(o: Opening, arrivals: seq<Arrival>)
      requires position == 0
      modifies this
      ensures Valid() && View() == Replay(Open(old(View()), o), Plan(arrivals, clientAddr, retry, retry))
    {
      match o {
        case NoRequest => outbox, ended := outbox + [Err(4, [])], true;
        case Rrq(ask, resource) =>
          StartWith(ask.blksize);
          ReadRequest(ask, resource);
        case Wrq(blksize, target) =>
          StartWith(blksize);
          WriteRequest(target);
      }
      Transfer(arrivals);
    }
  }
}
