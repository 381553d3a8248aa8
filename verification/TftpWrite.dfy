/** Write transfers: a lock-step client sending a file to the server over the same network. */
module TftpWrite {
  import opened Prelude
  import opened TftpWire
  import opened TftpServer
  import opened TftpBlocks

  /** `next` is the block outstanding; 0 while the write request itself awaits ACK 0. */
  datatype Client = Client(next: nat, done: bool, quit: bool)

  /** `toClient` and `toServer` are the datagrams in flight, as for reads. */
  datatype State = State(
    conn: Conn, file: seq<Byte>, client: Client, toClient: set<Packet>, toServer: set<Packet>)

  datatype Event =
    | Server(action: Action)
    | ClientTake(packet: Packet)
    | ClientSend
    | ClientQuit(code: Field)
    | LoseDown(packet: Packet)
    | LoseUp(packet: Packet)

  function Start(file: seq<Byte>, bs: nat): State {
    var conn := HandleWrq(Begin(Fresh(bs), None), Opens);
    State(conn, file, Client(0, false, false), Added([], conn.outbox), {})
  }

  function Accept(c: Client, count: nat, p: Packet): Client {
    match p
    case Ack(k) =>
      if c.done || k != c.next % 65536 then c
      else if c.next == count then c.(done := true)
      else c.(next := c.next + 1)
    case Err(_, _) => c.(quit := true)
    case _ => c
  }

  /** One event; an event that cannot happen changes nothing. */
  function Step(s: State, e: Event): State
    requires s.conn.position <= |s.conn.source| && s.conn.blocksize > 0
  {
    match e
    case Server(a) =>
      if a.Take? && a.packet !in s.toServer then s else
      var conn := Perform(s.conn, a);
      s.(conn := conn, toClient := s.toClient + Added(s.conn.outbox, conn.outbox))
    case ClientTake(p) =>
      if p !in s.toClient || s.client.quit then s
      else s.(client := Accept(s.client, Count(s.file, s.conn.blocksize), p))
    case ClientSend =>
      if s.client.quit || s.client.next == 0 then s
      else s.(toServer := s.toServer +
              {Data(s.client.next % 65536, Block(s.file, s.conn.blocksize, s.client.next))})
    case ClientQuit(code) =>
      if s.client.done then s
      else s.(toServer := s.toServer + {Err(code, [])}, client := s.client.(quit := true))
    case LoseDown(p) => s.(toClient := s.toClient - {p})
    case LoseUp(p) => s.(toServer := s.toServer - {p})
  }

  function Run(s: State, events: seq<Event>): (r: State)
    requires s.conn.position <= |s.conn.source| && s.conn.blocksize > 0
    ensures r.conn.position <= |r.conn.source| && r.conn.blocksize == s.conn.blocksize
  {
    if events == [] then s else Step(Run(s, events[..|events| - 1]), events[|events| - 1])
  }

  ghost predicate ServerInv(c: Conn, file: seq<Byte>, bs: nat)
    requires bs > 0
  {
    && c.blocksize == bs && c.mode == Writing && c.position <= |c.source|
    && 1 <= c.blockNumber <= MAX_SIGNED + 1 && c.blockNumber - 1 <= Count(file, bs)
    && (c.active <==> c.blockNumber - 1 < Count(file, bs))
    && |c.writes| == c.blockNumber - 1
    && (forall i :: 0 <= i < |c.writes| ==> c.writes[i] == Block(file, bs, i + 1))
    && c.lastpkt == Some(Ack(c.blockNumber - 1)) && c.lastpkt.value in c.outbox
    && (forall p :: p in c.outbox && p.Ack? ==> p.block < c.blockNumber)
    && (forall k: Field :: k < c.blockNumber ==> Ack(k) in c.outbox)
  }

  ghost predicate ClientInv(s: State, bs: nat)
    requires bs > 0
  {
    && s.client.next <= Count(s.file, bs) && s.client.next <= s.conn.blockNumber <= s.client.next + 1
    && (s.client.done ==> s.conn.blockNumber - 1 == Count(s.file, bs))
    && (forall p :: p in s.toServer ==> p.Data? || p.Err?)
    && (forall p :: p in s.toServer && p.Data? ==>
          0 < p.block <= s.client.next && p.data == Block(s.file, bs, p.block))
  }

  ghost predicate Inv(s: State, bs: nat) {
    && bs > 0 && ServerInv(s.conn, s.file, bs) && ClientInv(s, bs)
    && (forall p :: p in s.toClient ==> p in s.conn.outbox)
  }

  lemma StartInv(file: seq<Byte>, bs: nat)
    requires bs > 0
    ensures Inv(Start(file, bs), bs)
  {
    assert Start(file, bs).conn.outbox == [Ack(0)];
  }

  /** The expected block is acknowledged and written once. */
  lemma TakeKeeps(c: Conn, file: seq<Byte>, bs: nat, p: Packet)
    requires bs > 0 && ServerInv(c, file, bs) && Live(c)
    requires p.Data? && p.block == c.blockNumber <= MAX_SIGNED && p.data == Block(file, bs, p.block)
    ensures var d := Dispatch(c, p);
            ServerInv(d, file, bs) && d.blockNumber == c.blockNumber + 1 && !d.ended
    ensures Dispatch(c, p).writes == c.writes + [p.data]
  {
    BlockShape(file, bs, p.block);
    assert Signed(p.block) == c.blockNumber;
    assert Dispatch(c, p).outbox == c.outbox + [Ack(p.block)];
  }

  lemma ServerStepInv(s: State, a: Action, bs: nat)
    requires Inv(s, bs)
    ensures Inv(Step(s, Server(a)), bs)
  {
    if Live(s.conn) && a.Take? && a.packet in s.toServer && a.packet.Data?
       && Signed(a.packet.block) == s.conn.blockNumber {
      TakeKeeps(s.conn, s.file, bs, a.packet);
    }
    OutboxGrows(s.conn, a);
  }

  lemma StepInv(s: State, e: Event, bs: nat)
    requires Inv(s, bs)
    ensures Inv(Step(s, e), bs)
  {
    match e
    case Server(a) => ServerStepInv(s, a, bs);
    case ClientTake(p) =>
    case ClientSend =>
    case ClientQuit(_) =>
    case LoseDown(_) =>
    case LoseUp(_) =>
  }

  lemma {:induction false} RunInv(s: State, events: seq<Event>, bs: nat)
    requires Inv(s, bs) && s.conn.blocksize == bs
    ensures Inv(Run(s, events), bs) && Run(s, events).file == s.file
  {
    if events != [] {
      RunInv(s, events[..|events| - 1], bs);
      StepInv(Run(s, events[..|events| - 1]), events[|events| - 1], bs);
    }
  }

  /** The action of an event, if it is one of the server and possible. */
  function ActionOf(s: State, e: Event): seq<Action> {
    if e.Server? && (e.action.Take? ==> e.action.packet in s.toServer) then [e.action] else []
  }

  /** The server's actions among the events, as far as they were possible. */
  function ServerActions(s: State, events: seq<Event>): seq<Action>
    requires s.conn.position <= |s.conn.source| && s.conn.blocksize > 0
    decreases |events|
  {
    if events == [] then [] else ActionOf(s, events[0]) + ServerActions(Step(s, events[0]), events[1..])
  }

  lemma {:induction false} RunConcat(s: State, a: seq<Event>, b: seq<Event>)
    requires s.conn.position <= |s.conn.source| && s.conn.blocksize > 0
    ensures Run(s, a + b) == Run(Run(s, a), b)
  {
    if b == [] {
      assert a + b == a;
    } else {
      RunConcat(s, a, b[..|b| - 1]);
      assert (a + b)[..|a + b| - 1] == a + b[..|b| - 1];
    }
  }

  lemma RunOne(s: State, e: Event)
    requires s.conn.position <= |s.conn.source| && s.conn.blocksize > 0
    ensures Run(s, [e]) == Step(s, e)
  {
    assert [e][..0] == [];
    assert Run(s, []) == s;
  }

  lemma RunFirst(s: State, e: Event, rest: seq<Event>)
    requires s.conn.position <= |s.conn.source| && s.conn.blocksize > 0
    ensures Step(s, e).conn.position <= |Step(s, e).conn.source| && Step(s, e).conn.blocksize == s.conn.blocksize
    ensures Run(s, [e] + rest) == Run(Step(s, e), rest)
    ensures ServerActions(s, [e] + rest) == ActionOf(s, e) + ServerActions(Step(s, e), rest)
  {
    RunOne(s, e);
    RunConcat(s, [e], rest);
    assert ([e] + rest)[1..] == rest;
  }

  lemma StepReplays(s: State, e: Event)
    requires s.conn.position <= |s.conn.source| && s.conn.blocksize > 0
    ensures Step(s, e).conn == Replay(s.conn, ActionOf(s, e))
  {
    if ActionOf(s, e) != [] {
      ReplayOne(s.conn, e.action);
    }
  }

  /** In every run the server side is a replay of its own actions, as in the transfer loop. */
  lemma {:induction false} ServerSideIsReplay(s: State, events: seq<Event>)
    requires s.conn.position <= |s.conn.source| && s.conn.blocksize > 0
    ensures Run(s, events).conn == Replay(s.conn, ServerActions(s, events))
    decreases |events|
  {
    if events != [] {
      var e, rest := events[0], events[1..];
      assert events == [e] + rest;
      RunFirst(s, e, rest);
      StepReplays(s, e);
      ServerSideIsReplay(Step(s, e), rest);
      ReplayConcat(s.conn, ActionOf(s, e), ServerActions(Step(s, e), rest));
    }
  }

  lemma {:induction false} WritesArePrefix(chunks: seq<seq<Byte>>, file: seq<Byte>, bs: nat)
    requires bs > 0
    requires forall i :: 0 <= i < |chunks| ==> chunks[i] == Block(file, bs, i + 1)
    ensures Concat(chunks) == Prefix(file, bs, |chunks|)
  {
    if chunks == [] {
      assert Offset(file, bs, 0) == 0;
    } else {
      WritesArePrefix(chunks[..|chunks| - 1], file, bs);
      PrefixStep(file, bs, |chunks|);
    }
  }

  /** In every run the server's file is a prefix of the client's, made of its blocks in order, each
      written once; a short block that stopped the server, or a client told that its last block
      arrived, means the two files are equal. */
  lemma WriteIsPrefix(file: seq<Byte>, bs: nat, events: seq<Event>)
    requires bs > 0
    ensures var s := Run(Start(file, bs), events);
            && Concat(s.conn.writes) <= file
            && (forall i :: 0 <= i < |s.conn.writes| ==> s.conn.writes[i] == Block(file, bs, i + 1))
            && (!s.conn.active || s.client.done ==> Concat(s.conn.writes) == file)
  {
    StartInv(file, bs);
    RunInv(Start(file, bs), events, bs);
    WritesArePrefix(Run(Start(file, bs), events).conn.writes, file, bs);
    WholeFile(file, bs);
  }

  // ---- how often each datagram is sent ----

  /** A live server waits through a silent round or takes an error of the client: the two events that
      make it send its last acknowledgement again. */
  predicate Repeats(s: State, e: Event) {
    e.Server? && Live(s.conn) &&
    (e.action.Again? || (e.action.Take? && e.action.packet in s.toServer && e.action.packet.Err?))
  }

  predicate GivesUp(s: State, e: Event) {
    e == Server(GiveUp) && Live(s.conn)
  }

  /** How often it did while block k was the last one acknowledged. */
  function Resends(s: State, events: seq<Event>, k: int): nat
    requires s.conn.position <= |s.conn.source| && s.conn.blocksize > 0
  {
    if events == [] then 0 else
    var before, e := events[..|events| - 1], events[|events| - 1];
    var t := Run(s, before);
    Resends(s, before, k) + if Repeats(t, e) && t.conn.blockNumber - 1 == k then 1 else 0
  }

  /** How often it did in all, and how often the server gave up. */
  function AllResends(s: State, events: seq<Event>): nat
    requires s.conn.position <= |s.conn.source| && s.conn.blocksize > 0
  {
    if events == [] then 0 else
    var before, e := events[..|events| - 1], events[|events| - 1];
    AllResends(s, before) + if Repeats(Run(s, before), e) then 1 else 0
  }

  function Surrenders(s: State, events: seq<Event>): nat
    requires s.conn.position <= |s.conn.source| && s.conn.blocksize > 0
  {
    if events == [] then 0 else
    var before, e := events[..|events| - 1], events[|events| - 1];
    Surrenders(s, before) + if GivesUp(Run(s, before), e) then 1 else 0
  }

  /** What one event adds to the outbox: the next acknowledgement exactly when a block is written, the last
      one again exactly when it repeats, an error exactly when it gives up, and otherwise nothing. */
  lemma StepSends(s: State, e: Event, bs: nat)
    requires Inv(s, bs)
    ensures var c, d := s.conn, Step(s, e).conn;
            && c.blockNumber <= d.blockNumber <= c.blockNumber + 1
            && d.outbox == c.outbox + (
               if d.blockNumber > c.blockNumber then [Ack(c.blockNumber)]
               else if Repeats(s, e) then [Ack(c.blockNumber - 1)]
               else if GivesUp(s, e) then [Err(4, [])] else [])
            && !(d.blockNumber > c.blockNumber && (Repeats(s, e) || GivesUp(s, e)))
  {
    assert s.conn.outbox + [] == s.conn.outbox;
    if e.Server? && Live(s.conn) && e.action.Take? && e.action.packet in s.toServer && e.action.packet.Data?
       && Signed(e.action.packet.block) == s.conn.blockNumber {
      TakeKeeps(s.conn, s.file, bs, e.action.packet);
      assert Dispatch(s.conn, e.action.packet).outbox == s.conn.outbox + [Ack(s.conn.blockNumber)];
    }
  }

  lemma CopiesStep(s: State, e: Event, bs: nat, k: Field)
    requires Inv(s, bs)
    ensures var c, d := s.conn, Step(s, e).conn;
            Times(d.outbox, Ack(k)) == Times(c.outbox, Ack(k))
              + (if c.blockNumber <= k < d.blockNumber then 1 else 0)
              + (if Repeats(s, e) && c.blockNumber - 1 == k then 1 else 0)
    ensures s.conn.blockNumber <= Step(s, e).conn.blockNumber
  {
    var c, d := s.conn, Step(s, e).conn;
    StepSends(s, e, bs);
    if d.blockNumber > c.blockNumber {
      OneMoreTime(c.outbox, Ack(c.blockNumber), Ack(k));
    } else if Repeats(s, e) {
      OneMoreTime(c.outbox, Ack(c.blockNumber - 1), Ack(k));
    } else {
      OneMoreTime(c.outbox, Err(4, []), Ack(k));
      assert c.outbox + [] == c.outbox;
    }
  }

  /** In every run each block written was acknowledged exactly once, plus once for every silent round and
      every error of the client while it was the last one. In particular a block that is repeated, late or
      early makes the server send nothing. */
  lemma {:induction false} EachAckOnce(file: seq<Byte>, bs: nat, events: seq<Event>, k: Field)
    requires bs > 0
    ensures var s := Start(file, bs);
            Times(Run(s, events).conn.outbox, Ack(k))
            == if k < Run(s, events).conn.blockNumber then 1 + Resends(s, events, k) else 0
    ensures Resends(Start(file, bs), events, k) > 0 ==> k < Run(Start(file, bs), events).conn.blockNumber
  {
    var s := Start(file, bs);
    StartInv(file, bs);
    if events == [] {
      OneMoreTime([], Ack(0), Ack(k));
      assert s.conn.outbox == [] + [Ack(0)];
    } else {
      var before, e := events[..|events| - 1], events[|events| - 1];
      EachAckOnce(file, bs, before, k);
      RunInv(s, before, bs);
      CopiesStep(Run(s, before), e, bs, k);
    }
  }

  lemma LengthStep(s: State, e: Event, bs: nat)
    requires Inv(s, bs)
    ensures var c, d := s.conn, Step(s, e).conn;
            && |d.outbox| - |c.outbox| == d.blockNumber - c.blockNumber
                 + (if Repeats(s, e) then 1 else 0) + (if GivesUp(s, e) then 1 else 0)
            && (GivesUp(s, e) ==> !c.ended && d.ended) && (c.ended ==> d.ended)
  {
    StepSends(s, e, bs);
  }

  /** In every run the datagrams sent are the acknowledgements of the request and of each block written, the
      re-sends and at most one error, and no more. */
  lemma {:induction false} NothingElseIsSent(file: seq<Byte>, bs: nat, events: seq<Event>)
    requires bs > 0
    ensures var s := Start(file, bs);
            var c := Run(s, events).conn;
            && |c.outbox| == 1 + |c.writes| + AllResends(s, events) + Surrenders(s, events)
            && Surrenders(s, events) <= 1 && (Surrenders(s, events) == 1 ==> c.ended)
  {
    var s := Start(file, bs);
    StartInv(file, bs);
    RunInv(s, events, bs);
    if events != [] {
      var before, e := events[..|events| - 1], events[|events| - 1];
      NothingElseIsSent(file, bs, before);
      RunInv(s, before, bs);
      LengthStep(Run(s, before), e, bs);
    }
  }

  // ---- when a transfer can still finish ----

  predicate BlockIn(packets: set<Packet>, file: seq<Byte>, bs: nat, k: int) {
    0 < k <= MAX_SIGNED && Data(k, Block(file, bs, k)) in packets
  }

  /** The server can still see the short block: it has, or it waits and the client is still there, or the
      short block is all that is missing and in flight. */
  predicate ServerHopeful(s: State, bs: nat)
    requires bs > 0
  {
    || !s.conn.active
    || (!s.conn.ended && (!s.client.quit ||
          (s.conn.blockNumber == Count(s.file, bs) && BlockIn(s.toServer, s.file, bs, s.conn.blockNumber))))
  }

  /** The client can still learn that its last block arrived: it has, or the server is live, or the last
      acknowledgement, which is sent once, is in flight. */
  predicate ClientHopeful(s: State, bs: nat)
    requires bs > 0
  {
    s.client.done || (!s.client.quit &&
      (Live(s.conn) || (!s.conn.active && Count(s.file, bs) <= MAX_SIGNED && Ack(Count(s.file, bs)) in s.toClient)))
  }

  // ---- hope is never regained ----

  lemma ServerHope(s: State, e: Event, bs: nat)
    requires Inv(s, bs) && ServerHopeful(Step(s, e), bs)
    ensures ServerHopeful(s, bs)
  {
    if e.Server? && Live(s.conn) && e.action.Take? && e.action.packet in s.toServer && e.action.packet.Data?
       && Signed(e.action.packet.block) == s.conn.blockNumber {
      TakeKeeps(s.conn, s.file, bs, e.action.packet);
    }
  }

  lemma ClientHope(s: State, e: Event, bs: nat)
    requires Inv(s, bs) && ClientHopeful(Step(s, e), bs)
    ensures ClientHopeful(s, bs)
  {
    AddedOne(s.conn.outbox, Ack(0));
  }

  lemma {:induction false} RunHope(s: State, events: seq<Event>, bs: nat)
    requires Inv(s, bs) && s.conn.blocksize == bs
    ensures ServerHopeful(Run(s, events), bs) ==> ServerHopeful(s, bs)
    ensures ClientHopeful(Run(s, events), bs) ==> ClientHopeful(s, bs)
  {
    if events != [] {
      var before, e := events[..|events| - 1], events[|events| - 1];
      RunInv(s, before, bs);
      RunHope(s, before, bs);
      if ServerHopeful(Run(s, events), bs) {
        ServerHope(Run(s, before), e, bs);
      }
      if ClientHopeful(Run(s, events), bs) {
        ClientHope(Run(s, before), e, bs);
      }
    }
  }

  // ---- hope is fulfilled ----

  /** Nobody gave up, and an acknowledgement the client waits for is in flight. */
  predicate Fed(s: State) {
    && !s.conn.ended && !s.client.quit
    && (s.conn.blockNumber == s.client.next + 1 && !s.client.done ==>
          s.client.next < 65536 && Ack(s.client.next) in s.toClient)
  }

  /** How far the client is from the end, in steps of a network that loses nothing. */
  function Distance(s: State, bs: nat): int
    requires bs > 0
  {
    3 * (Count(s.file, bs) + 1 - s.conn.blockNumber) +
    if s.client.done then 0
    else if s.conn.blockNumber == s.client.next + 1 then 2
    else if BlockIn(s.toServer, s.file, bs, s.conn.blockNumber) then 0 else 1
  }

  /** The client takes the acknowledgement it waits for. */
  lemma FedTake(s: State, bs: nat) returns (e: Event)
    requires Inv(s, bs) && Fed(s) && !s.client.done && s.conn.blockNumber == s.client.next + 1
    ensures !e.Server?
    ensures var t := Step(s, e); Inv(t, bs) && Fed(t) && 0 <= Distance(t, bs) < Distance(s, bs) && t.file == s.file
  {
    e := ClientTake(Ack(s.client.next));
    StepInv(s, e, bs);
  }

  /** The client sends the block the server waits for. */
  lemma FedSend(s: State, bs: nat) returns (e: Event)
    requires Inv(s, bs) && Count(s.file, bs) <= MAX_SIGNED && Fed(s) && !s.client.done
    requires s.conn.blockNumber == s.client.next && !BlockIn(s.toServer, s.file, bs, s.conn.blockNumber)
    ensures !e.Server?
    ensures var t := Step(s, e); Inv(t, bs) && Fed(t) && 0 <= Distance(t, bs) < Distance(s, bs) && t.file == s.file
  {
    e := ClientSend;
    StepInv(s, e, bs);
    assert BlockIn(Step(s, e).toServer, s.file, bs, s.conn.blockNumber);
  }

  /** The server takes it, writes it and acknowledges. */
  lemma FedWrite(s: State, bs: nat) returns (e: Event)
    requires Inv(s, bs) && Count(s.file, bs) <= MAX_SIGNED && Fed(s) && !s.client.done
    requires s.conn.blockNumber == s.client.next && BlockIn(s.toServer, s.file, bs, s.conn.blockNumber)
    ensures e.Server? && e.action.Take?
    ensures var t := Step(s, e); Inv(t, bs) && Fed(t) && 0 <= Distance(t, bs) < Distance(s, bs) && t.file == s.file
  {
    var p := Data(s.conn.blockNumber, Block(s.file, bs, s.conn.blockNumber));
    e := Server(Take(p));
    TakeKeeps(s.conn, s.file, bs, p);
    StepInv(s, e, bs);
    assert Dispatch(s.conn, p).outbox == s.conn.outbox + [Ack(s.conn.blockNumber)];
    AddedOne(s.conn.outbox, Ack(s.conn.blockNumber));
  }

  lemma FedStep(s: State, bs: nat) returns (e: Event)
    requires Inv(s, bs) && Count(s.file, bs) <= MAX_SIGNED && Fed(s) && !s.client.done
    ensures e.Server? ==> e.action.Take?
    ensures var t := Step(s, e); Inv(t, bs) && Fed(t) && 0 <= Distance(t, bs) < Distance(s, bs) && t.file == s.file
  {
    if s.conn.blockNumber == s.client.next + 1 {
      e := FedTake(s, bs);
    } else if BlockIn(s.toServer, s.file, bs, s.conn.blockNumber) {
      e := FedWrite(s, bs);
    } else {
      e := FedSend(s, bs);
    }
  }

  /** A fed transfer reaches its end, on both sides, over a network that loses nothing, with no re-send. */
  lemma {:induction false} FinishFed(s: State, bs: nat) returns (events: seq<Event>)
    requires Inv(s, bs) && Count(s.file, bs) <= MAX_SIGNED && Fed(s)
    ensures Run(s, events).client.done && !Run(s, events).conn.active && OnlyTakes(ServerActions(s, events))
    decreases Distance(s, bs)
  {
    if s.client.done {
      events := [];
    } else {
      var e := FedStep(s, bs);
      var rest := FinishFed(Step(s, e), bs);
      RunFirst(s, e, rest);
      events := [e] + rest;
    }
  }

  /** Whatever was lost, one re-send feeds a client that did not give up. */
  lemma Resume(s: State, bs: nat)
    requires Inv(s, bs) && Live(s.conn) && !s.client.quit
    ensures var t := Step(s, Server(Again)); Inv(t, bs) && Fed(t) && t.file == s.file
  {
    StepInv(s, Server(Again), bs);
    AddedOne(s.conn.outbox, s.conn.lastpkt.value);
  }

  lemma FinishLive(s: State, bs: nat) returns (events: seq<Event>)
    requires Inv(s, bs) && s.conn.blocksize == bs && Count(s.file, bs) <= MAX_SIGNED
    requires Live(s.conn) && !s.client.quit
    ensures Run(s, events).client.done && !Run(s, events).conn.active
  {
    Resume(s, bs);
    var rest := FinishFed(Step(s, Server(Again)), bs);
    RunFirst(s, Server(Again), rest);
    events := [Server(Again)] + rest;
  }

  lemma FinishServer(s: State, bs: nat) returns (events: seq<Event>)
    requires Inv(s, bs) && s.conn.blocksize == bs && Count(s.file, bs) <= MAX_SIGNED && ServerHopeful(s, bs)
    ensures !Run(s, events).conn.active
  {
    if !s.conn.active {
      events := [];
    } else if !s.client.quit {
      events := FinishLive(s, bs);
    } else {
      var p := Data(s.conn.blockNumber, Block(s.file, bs, s.conn.blockNumber));
      TakeKeeps(s.conn, s.file, bs, p);
      events := [Server(Take(p))];
      RunOne(s, events[0]);
    }
  }

  lemma FinishClient(s: State, bs: nat) returns (events: seq<Event>)
    requires Inv(s, bs) && s.conn.blocksize == bs && Count(s.file, bs) <= MAX_SIGNED && ClientHopeful(s, bs)
    ensures Run(s, events).client.done
  {
    if s.client.done {
      events := [];
    } else if Live(s.conn) {
      events := FinishLive(s, bs);
    } else {
      events := [ClientTake(Ack(Count(s.file, bs)))];
      RunOne(s, events[0]);
    }
  }

  /** From any reachable state, whatever was lost, repeated or reordered so far: the server can still see
      the short block exactly when the block count fits the signed 16-bit block field and the server is
      hopeful. Its last acknowledgement can always be re-sent while it is live. */
  lemma ServerCanStillFinishIff(s: State, bs: nat)
    requires Inv(s, bs) && s.conn.blocksize == bs
    ensures (exists events :: !Run(s, events).conn.active)
            <==> Count(s.file, bs) <= MAX_SIGNED && ServerHopeful(s, bs)
  {
    if Count(s.file, bs) <= MAX_SIGNED && ServerHopeful(s, bs) {
      var events := FinishServer(s, bs);
    }
    forall events | !Run(s, events).conn.active
      ensures Count(s.file, bs) <= MAX_SIGNED && ServerHopeful(s, bs)
    {
      RunInv(s, events, bs);
      RunHope(s, events, bs);
    }
  }

  /** The same for the client: it can still learn that everything arrived exactly when it is hopeful. */
  lemma ClientCanStillFinishIff(s: State, bs: nat)
    requires Inv(s, bs) && s.conn.blocksize == bs
    ensures (exists events :: Run(s, events).client.done)
            <==> Count(s.file, bs) <= MAX_SIGNED && ClientHopeful(s, bs)
  {
    if Count(s.file, bs) <= MAX_SIGNED && ClientHopeful(s, bs) {
      var events := FinishClient(s, bs);
    }
    forall events | Run(s, events).client.done
      ensures Count(s.file, bs) <= MAX_SIGNED && ClientHopeful(s, bs)
    {
      RunInv(s, events, bs);
      RunHope(s, events, bs);
    }
  }

  /** The acknowledgement of the short block is sent once: lost before the client has it, the client
      never learns that the file arrived, although it did. */
  lemma LostLastAck(s: State, bs: nat, events: seq<Event>)
    requires Inv(s, bs) && s.conn.blocksize == bs && !s.conn.active && !s.client.done
    ensures Count(s.file, bs) <= MAX_SIGNED && Concat(s.conn.writes) == s.file
    ensures !Run(Step(s, LoseDown(Ack(Count(s.file, bs)))), events).client.done
  {
    var lost := LoseDown(Ack(Count(s.file, bs)));
    StepInv(s, lost, bs);
    ClientCanStillFinishIff(Step(s, lost), bs);
    WritesArePrefix(s.conn.writes, s.file, bs);
    WholeFile(s.file, bs);
  }

  lemma StartFed(file: seq<Byte>, bs: nat)
    requires bs > 0
    ensures Inv(Start(file, bs), bs) && Fed(Start(file, bs))
  {
    StartInv(file, bs);
    AddedOne([], Ack(0));
    assert Start(file, bs).conn.outbox == [] + [Ack(0)];
  }

  /** A write can reach its short last block, the server being patient enough, exactly when the block
      count fits the signed 16-bit block field: block 32768 is read back as -32768 and never matches. */
  lemma WriteFinishesIff(file: seq<Byte>, bs: nat)
    requires bs > 0
    ensures (exists events :: !Run(Start(file, bs), events).conn.active)
            <==> |file| / bs + 1 <= MAX_SIGNED
  {
    StartFed(file, bs);
    ServerCanStillFinishIff(Start(file, bs), bs);
  }

  /** The failure on data: 32768 blocks. */
  lemma TooManyBlocksExample(file: seq<Byte>, events: seq<Event>)
    requires |file| == 512 * 32767
    ensures Run(Start(file, 512), events).conn.active
  {
    WriteFinishesIff(file, 512);
  }
}
