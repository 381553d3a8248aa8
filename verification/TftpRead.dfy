/** Read transfers: the server against a lock-step client (sections 2, 5 and 6 of RFC 1350) over a
    network that loses, duplicates and reorders datagrams, in every interleaving. */
module TftpRead {
  import opened Prelude
  import opened TftpWire
  import opened TftpServer
  import opened TftpBlocks

  /** `blocks` is the number of the last block accepted; `told` whether an option reply arrived, which
      alone is answered by an ACK of block 0 (section 3 of RFC 2347). */
  datatype Client = Client(got: seq<Byte>, blocks: nat, told: bool, done: bool, quit: bool)

  /** `toClient` and `toServer` are the datagrams in flight: one of them may arrive any number of times
      and in any order until it is lost. */
  datatype State = State(conn: Conn, client: Client, toClient: set<Packet>, toServer: set<Packet>)

  datatype Event =
    | Server(action: Action)
    | ClientTake(packet: Packet)
    | ClientAck
    | ClientQuit(code: Field)
    | LoseDown(packet: Packet)
    | LoseUp(packet: Packet)

  /** A read of `file` with block size bs on both sides, whatever options asked for it. */
  function Start(file: seq<Byte>, bs: nat, ask: Ask): State {
    var conn := HandleRrq(Begin(Fresh(bs), None), ask, Resource(Some(|file|), Some(file)));
    State(conn, Client([], 0, false, false, false), Added([], conn.outbox), {})
  }

  function Accept(c: Client, bs: nat, p: Packet): Client {
    match p
    case Data(k, d) =>
      if !c.done && k == (c.blocks + 1) % 65536
      then c.(got := c.got + d, blocks := c.blocks + 1, done := |d| < bs)
      else c
    case Err(_, _) => c.(quit := true)
    case Oack(_, _) => c.(told := true)
    case _ => c
  }

  /** One event; an event that cannot happen changes nothing. */
  function Step(s: State, e: Event): State
    requires s.conn.position <= |s.conn.source|
  {
    match e
    case Server(a) =>
      if a.Take? && a.packet !in s.toServer then s else
      var conn := Perform(s.conn, a);
      s.(conn := conn, toClient := s.toClient + Added(s.conn.outbox, conn.outbox))
    case ClientTake(p) =>
      if p !in s.toClient || s.client.quit then s
      else s.(client := Accept(s.client, s.conn.blocksize, p))
    case ClientAck =>
      if s.client.quit || (s.client.blocks == 0 && !s.client.told) then s
      else s.(toServer := s.toServer + {Ack(s.client.blocks % 65536)})
    case ClientQuit(code) =>
      if s.client.done then s
      else s.(toServer := s.toServer + {Err(code, [])}, client := s.client.(quit := true))
    case LoseDown(p) => s.(toClient := s.toClient - {p})
    case LoseUp(p) => s.(toServer := s.toServer - {p})
  }

  /** Blocks that left the server: the number one past 32767 could not be packed. */
  function Sent(c: Conn): int {
    if c.blockNumber <= MAX_SIGNED then c.blockNumber else MAX_SIGNED
  }

  ghost predicate ServerInv(c: Conn, file: seq<Byte>, bs: nat)
    requires bs > 0
  {
    && c.blocksize == bs && c.mode == Reading && c.source == file
    && 0 <= c.blockNumber <= Count(file, bs) && c.blockNumber <= MAX_SIGNED + 1
    && c.position == Offset(file, bs, c.blockNumber)
    && (c.blockNumber > MAX_SIGNED ==> c.ended)
    && (c.active <==> c.blockNumber < Count(file, bs) || c.blockNumber > MAX_SIGNED)
    && (c.lastpkt.Some? ==> c.lastpkt.value in c.outbox)
    && (c.blockNumber == 0 ==> c.lastpkt.None?)
    && (0 < c.blockNumber <= MAX_SIGNED ==>
          c.lastpkt == Some(Data(c.blockNumber, Block(file, bs, c.blockNumber))))
  }

  /** The DATA packets that left the server are exactly the first Sent blocks of the file. */
  ghost predicate OutboxInv(c: Conn, file: seq<Byte>, bs: nat) {
    && (forall p :: p in c.outbox && p.Data? ==>
          0 < p.block <= Sent(c) && p.data == Block(file, bs, p.block))
    && (forall k: Field :: 0 < k <= Sent(c) ==> Data(k, Block(file, bs, k)) in c.outbox)
  }

  ghost predicate ClientInv(s: State, file: seq<Byte>, bs: nat)
    requires bs > 0
  {
    && s.client.got == Prefix(file, bs, s.client.blocks)
    && s.client.blocks <= Sent(s.conn) && s.conn.blockNumber <= s.client.blocks + 1
    && (s.client.done <==> s.client.blocks == Count(file, bs))
    && (forall p :: p in s.toServer ==> p.Ack? || p.Err?)
    && (forall p :: p in s.toServer && p.Ack? ==> p.block <= s.client.blocks)
    && (forall p :: p in s.toServer && p.Ack? ==> s.client.blocks > 0 || s.client.told)
  }

  ghost predicate Inv(s: State, file: seq<Byte>, bs: nat) {
    && bs > 0 && ServerInv(s.conn, file, bs) && OutboxInv(s.conn, file, bs) && ClientInv(s, file, bs)
    && (forall p :: p in s.toClient ==> p in s.conn.outbox)
  }

  function Run(s: State, events: seq<Event>): (r: State)
    requires s.conn.position <= |s.conn.source|
    ensures r.conn.position <= |r.conn.source|
  {
    if events == [] then s else Step(Run(s, events[..|events| - 1]), events[|events| - 1])
  }

  /** Sending the next block keeps everything known about the server. */
  lemma SendKeeps(c: Conn, file: seq<Byte>, bs: nat)
    requires bs > 0 && ServerInv(c, file, bs) && OutboxInv(c, file, bs) && Live(c)
    ensures var d := ReadAndSend(c);
            ServerInv(d, file, bs) && OutboxInv(d, file, bs) && d.blockNumber == c.blockNumber + 1
    ensures c.blockNumber < MAX_SIGNED ==> !ReadAndSend(c).ended
  {
    var d := ReadAndSend(c);
    var k := c.blockNumber + 1;
    BlockShape(file, bs, k);
    OffsetGrows(file, bs, k);
    var data := file[c.position..d.position];
    assert d.position == Offset(file, bs, k);
    assert data == Block(file, bs, k);
    if k <= MAX_SIGNED {
      assert d.outbox == c.outbox + [Data(k, data)];
    }
  }

  lemma StartInv(file: seq<Byte>, bs: nat, ask: Ask)
    requires bs > 0
    ensures Inv(Start(file, bs, ask), file, bs)
  {
    var c := Begin(Fresh(bs), None).(mode := Reading, source := file);
    assert Offset(file, bs, 0) == 0;
    assert ServerInv(c, file, bs) && OutboxInv(c, file, bs);
    if ask.tsize.None? {
      SendKeeps(c, file, bs);
    }
  }

  lemma ServerStepInv(s: State, a: Action, file: seq<Byte>, bs: nat)
    requires Inv(s, file, bs)
    ensures Inv(Step(s, Server(a)), file, bs)
  {
    if Live(s.conn) && a.Take? && a.packet in s.toServer && a.packet.Ack?
       && Signed(a.packet.block) == s.conn.blockNumber {
      SendKeeps(s.conn, file, bs);
    }
    OutboxGrows(s.conn, a);
  }

  /** The client takes the block it waits for. */
  lemma NextBlockInv(s: State, file: seq<Byte>, bs: nat, c: Client)
    requires Inv(s, file, bs) && !s.client.done && s.client.blocks + 1 <= Sent(s.conn)
    requires c.blocks == s.client.blocks + 1 && c.told == s.client.told
    requires c.got == s.client.got + Block(file, bs, c.blocks) && c.done == (|Block(file, bs, c.blocks)| < bs)
    ensures Inv(s.(client := c), file, bs)
  {
    BlockShape(file, bs, c.blocks);
    PrefixStep(file, bs, c.blocks);
  }

  lemma TakeStepInv(s: State, p: Packet, file: seq<Byte>, bs: nat)
    requires Inv(s, file, bs)
    ensures Inv(Step(s, ClientTake(p)), file, bs)
  {
    if p in s.toClient && !s.client.quit {
      var c := Accept(s.client, bs, p);
      if p.Data? && c != s.client {
        NextBlockInv(s, file, bs, c);
      } else {
        assert c.got == s.client.got && c.blocks == s.client.blocks && c.done == s.client.done;
      }
    }
  }

  lemma StepInv(s: State, e: Event, file: seq<Byte>, bs: nat)
    requires Inv(s, file, bs)
    ensures Inv(Step(s, e), file, bs)
  {
    match e
    case Server(a) => ServerStepInv(s, a, file, bs);
    case ClientTake(p) => TakeStepInv(s, p, file, bs);
    case ClientAck =>
    case ClientQuit(_) =>
    case LoseDown(_) =>
    case LoseUp(_) =>
  }

  lemma {:induction false} RunInv(s: State, events: seq<Event>, file: seq<Byte>, bs: nat)
    requires Inv(s, file, bs)
    ensures Inv(Run(s, events), file, bs)
  {
    if events != [] {
      RunInv(s, events[..|events| - 1], file, bs);
      StepInv(Run(s, events[..|events| - 1]), events[|events| - 1], file, bs);
    }
  }

  // ---- what every read transfer guarantees ----

  /** The action of an event, if it is one of the server and possible. */
  function ActionOf(s: State, e: Event): seq<Action> {
    if e.Server? && (e.action.Take? ==> e.action.packet in s.toServer) then [e.action] else []
  }

  /** The server's actions among the events, as far as they were possible. */
  function ServerActions(s: State, events: seq<Event>): seq<Action>
    requires s.conn.position <= |s.conn.source|
    decreases |events|
  {
    if events == [] then [] else ActionOf(s, events[0]) + ServerActions(Step(s, events[0]), events[1..])
  }

  lemma {:induction false} RunConcat(s: State, a: seq<Event>, b: seq<Event>)
    requires s.conn.position <= |s.conn.source|
    ensures Run(s, a + b) == Run(Run(s, a), b)
  {
    if b == [] {
      assert a + b == a;
    } else {
      RunConcat(s, a, b[..|b| - 1]);
      assert (a + b)[..|a + b| - 1] == a + b[..|b| - 1];
    }
  }

  lemma RunOne(s: State, e: Event)
    requires s.conn.position <= |s.conn.source|
    ensures Run(s, [e]) == Step(s, e)
  {
    assert [e][..0] == [];
    assert Run(s, []) == s;
  }

  lemma RunFirst(s: State, e: Event, rest: seq<Event>)
    requires s.conn.position <= |s.conn.source|
    ensures Step(s, e).conn.position <= |Step(s, e).conn.source| && Step(s, e).conn.blocksize == s.conn.blocksize
    ensures Run(s, [e] + rest) == Run(Step(s, e), rest)
    ensures ServerActions(s, [e] + rest) == ActionOf(s, e) + ServerActions(Step(s, e), rest)
  {
    RunOne(s, e);
    RunConcat(s, [e], rest);
    assert ([e] + rest)[1..] == rest;
  }

  lemma StepReplays(s: State, e: Event)
    requires s.conn.position <= |s.conn.source|
    ensures Step(s, e).conn == Replay(s.conn, ActionOf(s, e))
  {
    if ActionOf(s, e) != [] {
      ReplayOne(s.conn, e.action);
    }
  }

  /** In every run the server side is a replay of its own actions, as in the transfer loop. */
  lemma {:induction false} ServerSideIsReplay(s: State, events: seq<Event>)
    requires s.conn.position <= |s.conn.source|
    ensures Run(s, events).conn == Replay(s.conn, ServerActions(s, events))
    decreases |events|
  {
    if events != [] {
      var e, rest := events[0], events[1..];
      assert events == [e] + rest;
      RunFirst(s, e, rest);
      StepReplays(s, e);
      ServerSideIsReplay(Step(s, e), rest);
      ReplayConcat(s.conn, ActionOf(s, e), ServerActions(Step(s, e), rest));
    }
  }

  /** In every run the client holds a prefix of the file, the server is at most one block ahead, and
      a client that saw the short block holds the whole file. */
  lemma ReadIsPrefix(file: seq<Byte>, bs: nat, ask: Ask, events: seq<Event>)
    requires bs > 0
    ensures var s := Run(Start(file, bs, ask), events);
            && s.client.got <= file
            && s.client.blocks <= s.conn.blockNumber <= s.client.blocks + 1
            && (s.client.done ==> s.client.got == file)
  {
    StartInv(file, bs, ask);
    RunInv(Start(file, bs, ask), events, file, bs);
    WholeFile(file, bs);
  }

  /** The DATA packets ever sent are one per block of the file, in the file's order, none twice with
      different bytes; the file has been read exactly up to the last block; and a server that stopped
      on its own has sent all of them. */
  lemma ReadSendsEachBlock(file: seq<Byte>, bs: nat, ask: Ask, events: seq<Event>)
    requires bs > 0
    ensures var s := Run(Start(file, bs, ask), events);
            && (set p | p in s.conn.outbox && p.Data?)
               == (set k: Field | 0 < k <= Sent(s.conn) :: Data(k, Block(file, bs, k)))
            && s.conn.blockNumber >= 0
            && s.conn.position == Offset(file, bs, s.conn.blockNumber)
            && (!s.conn.active ==> Sent(s.conn) == |file| / bs + 1)
  {
    StartInv(file, bs, ask);
    RunInv(Start(file, bs, ask), events, file, bs);
    var c := Run(Start(file, bs, ask), events).conn;
    var data := set p | p in c.outbox && p.Data?;
    var expected := set k: Field | 0 < k <= Sent(c) :: Data(k, Block(file, bs, k));
    forall p | p in data ensures p in expected {
      assert p == Data(p.block, Block(file, bs, p.block));
    }
  }

  /** Block k of the file was sent with its bytes. */
  predicate WasSent(c: Conn, file: seq<Byte>, bs: nat, k: nat)
    requires k > 0
  {
    k <= MAX_SIGNED && Data(k, Block(file, bs, k)) in c.outbox
  }

  /** A server that stopped on its own has sent every block. */
  lemma StoppedSentAll(file: seq<Byte>, bs: nat, ask: Ask, events: seq<Event>)
    requires bs > 0
    ensures var c := Run(Start(file, bs, ask), events).conn;
            !c.active ==> forall k :: 0 < k <= Count(file, bs) ==> WasSent(c, file, bs, k)
  {
    StartInv(file, bs, ask);
    RunInv(Start(file, bs, ask), events, file, bs);
  }

  // ---- how often each datagram is sent ----

  /** A live server waits through a silent round or takes an error of the client: the two events that
      make it send its last packet again. */
  predicate Repeats(s: State, e: Event) {
    e.Server? && Live(s.conn) &&
    (e.action.Again? || (e.action.Take? && e.action.packet in s.toServer && e.action.packet.Err?))
  }

  /** How often that happened while block k was the last one sent. */
  function Resends(s: State, events: seq<Event>, k: int): nat
    requires s.conn.position <= |s.conn.source|
  {
    if events == [] then 0 else
    var before, e := events[..|events| - 1], events[|events| - 1];
    var t := Run(s, before);
    Resends(s, before, k) + if Repeats(t, e) && t.conn.blockNumber == k then 1 else 0
  }

  /** How often that happened after the first block. */
  function AllResends(s: State, events: seq<Event>): nat
    requires s.conn.position <= |s.conn.source|
  {
    if events == [] then 0 else
    var before, e := events[..|events| - 1], events[|events| - 1];
    var t := Run(s, before);
    AllResends(s, before) + if Repeats(t, e) && t.conn.blockNumber > 0 then 1 else 0
  }

  predicate GivesUp(s: State, e: Event) {
    e == Server(GiveUp) && Live(s.conn)
  }

  /** What one event adds to the outbox: the next block exactly when its number advances, the last block
      again exactly when it repeats, an error exactly when it gives up, and otherwise nothing. */
  lemma StepSends(s: State, e: Event, file: seq<Byte>, bs: nat)
    requires Inv(s, file, bs)
    ensures var c, d := s.conn, Step(s, e).conn;
            && Sent(c) <= Sent(d) <= Sent(c) + 1
            && d.outbox == c.outbox + (
               if Sent(d) > Sent(c) then [Data(Sent(d), Block(file, bs, Sent(d)))]
               else if Repeats(s, e) && c.blockNumber > 0 then [Data(c.blockNumber, Block(file, bs, c.blockNumber))]
               else if GivesUp(s, e) then [Err(4, [])] else [])
            && !(Sent(d) > Sent(c) && (Repeats(s, e) || GivesUp(s, e)))
  {
    assert s.conn.outbox + [] == s.conn.outbox;
    if e.Server? && Live(s.conn) && e.action.Take? && e.action.packet in s.toServer && e.action.packet.Ack?
       && Signed(e.action.packet.block) == s.conn.blockNumber {
      SendKeeps(s.conn, file, bs);
      assert ReadAndSend(s.conn).blockNumber <= MAX_SIGNED ==>
        ReadAndSend(s.conn).outbox == s.conn.outbox + [ReadAndSend(s.conn).lastpkt.value];
    }
  }

  lemma CopiesStep(s: State, e: Event, file: seq<Byte>, bs: nat, k: Field)
    requires Inv(s, file, bs) && k > 0
    ensures var c, d, p := s.conn, Step(s, e).conn, Data(k, Block(file, bs, k));
            Times(d.outbox, p) == Times(c.outbox, p) + (if Sent(c) < k <= Sent(d) then 1 else 0)
                                   + (if Repeats(s, e) && c.blockNumber == k then 1 else 0)
    ensures Sent(s.conn) <= Sent(Step(s, e).conn)
    ensures Repeats(s, e) && s.conn.blockNumber == k ==> k <= Sent(s.conn)
  {
    var c, d, p := s.conn, Step(s, e).conn, Data(k, Block(file, bs, k));
    StepSends(s, e, file, bs);
    if Sent(d) > Sent(c) {
      OneMoreTime(c.outbox, Data(Sent(d), Block(file, bs, Sent(d))), p);
    } else if Repeats(s, e) && c.blockNumber > 0 {
      OneMoreTime(c.outbox, Data(c.blockNumber, Block(file, bs, c.blockNumber)), p);
    } else {
      OneMoreTime(c.outbox, Err(4, []), p);
      assert c.outbox + [] == c.outbox;
    }
  }

  lemma StartNumber(file: seq<Byte>, bs: nat, ask: Ask)
    ensures Start(file, bs, ask).conn.blockNumber == if ask.tsize.None? then 1 else 0
  {
  }

  lemma StartOutbox(file: seq<Byte>, bs: nat, ask: Ask)
    requires bs > 0
    ensures Start(file, bs, ask).conn.outbox ==
            if ask.tsize.None? then [Data(1, Block(file, bs, 1))]
            else if ask.tsize == Some(0) then [Oack(|file|, ask.blksize)] else []
  {
    StartInv(file, bs, ask);
    StartNumber(file, bs, ask);
  }

  lemma StartCopies(file: seq<Byte>, bs: nat, ask: Ask, k: Field)
    requires bs > 0 && k > 0
    ensures var c := Start(file, bs, ask).conn;
            Times(c.outbox, Data(k, Block(file, bs, k))) == if k <= Sent(c) then 1 else 0
  {
    StartOutbox(file, bs, ask);
    StartNumber(file, bs, ask);
    OneMoreTime([], Data(1, Block(file, bs, 1)), Data(k, Block(file, bs, k)));
  }

  /** In every run each block sent so far was sent exactly once, plus once for every silent round and every
      error of the client while it was the last one. In particular an acknowledgement that is repeated,
      late or of another block makes the server send nothing. */
  lemma {:induction false} EachBlockOnce(file: seq<Byte>, bs: nat, ask: Ask, events: seq<Event>, k: Field)
    requires bs > 0 && k > 0
    ensures var s := Start(file, bs, ask);
            Times(Run(s, events).conn.outbox, Data(k, Block(file, bs, k)))
            == if k <= Sent(Run(s, events).conn) then 1 + Resends(s, events, k) else 0
    ensures Resends(Start(file, bs, ask), events, k) > 0 ==> k <= Sent(Run(Start(file, bs, ask), events).conn)
  {
    var s := Start(file, bs, ask);
    StartInv(file, bs, ask);
    if events == [] {
      StartCopies(file, bs, ask, k);
    } else {
      var before, e := events[..|events| - 1], events[|events| - 1];
      EachBlockOnce(file, bs, ask, before, k);
      RunInv(s, before, file, bs);
      CopiesStep(Run(s, before), e, file, bs, k);
    }
  }

  /** How often the server gave up. */
  function Surrenders(s: State, events: seq<Event>): nat
    requires s.conn.position <= |s.conn.source|
  {
    if events == [] then 0 else
    var before, e := events[..|events| - 1], events[|events| - 1];
    Surrenders(s, before) + if GivesUp(Run(s, before), e) then 1 else 0
  }

  /** In every run the datagrams sent are the blocks, the option reply if one was asked for, the re-sends
      and at most one error, and no more. */
  lemma {:induction false} NothingElseIsSent(file: seq<Byte>, bs: nat, ask: Ask, events: seq<Event>)
    requires bs > 0
    ensures var s := Start(file, bs, ask);
            var c := Run(s, events).conn;
            && |c.outbox| == Sent(c) + (if ask.tsize == Some(0) then 1 else 0) + AllResends(s, events)
                             + Surrenders(s, events)
            && Surrenders(s, events) <= 1 && (Surrenders(s, events) == 1 ==> c.ended)
  {
    var s := Start(file, bs, ask);
    StartInv(file, bs, ask);
    StartOutbox(file, bs, ask);
    if events != [] {
      var before, e := events[..|events| - 1], events[|events| - 1];
      NothingElseIsSent(file, bs, ask, before);
      RunInv(s, before, file, bs);
      StepSends(Run(s, before), e, file, bs);
    }
  }

  // ---- when a transfer can still finish ----

  /** A server that is no longer live does not give up any more. */
  lemma StopDead(s: State)
    requires s.conn.position <= |s.conn.source| && !Live(s.conn)
    ensures Step(s, Server(GiveUp)) == s
  {
    AddedOne(s.conn.outbox, Err(4, []));
    assert s.toClient + {} == s.toClient;
  }

  predicate BlockIn(packets: set<Packet>, file: seq<Byte>, bs: nat, k: nat)
    requires k > 0
  {
    k <= MAX_SIGNED && Data(k, Block(file, bs, k)) in packets
  }

  /** A client that waits only for the short block, and it is in flight. */
  lemma TakeLast(s: State, file: seq<Byte>, bs: nat)
    requires Inv(s, file, bs) && !s.client.quit && !s.client.done && s.client.blocks + 1 == Count(file, bs)
    requires BlockIn(s.toClient, file, bs, s.client.blocks + 1)
    ensures var k := s.client.blocks + 1;
            Step(s, ClientTake(Data(k, Block(file, bs, k)))).client.done
  {
    BlockShape(file, bs, s.client.blocks + 1);
  }

  predicate OptionReplyIn(packets: set<Packet>) {
    exists p :: p in packets && p.Oack?
  }

  /** The client can still come to the end: it is there, or its last block is in flight, or the server is
      live and either can re-send what the client waits for or has something the client can answer. */
  ghost predicate Hopeful(s: State, file: seq<Byte>, bs: nat)
    requires bs > 0
  {
    var k := s.client.blocks;
    s.client.done || (!s.client.quit && (
      || (k + 1 == Count(file, bs) && BlockIn(s.toClient, file, bs, k + 1))
      || (Live(s.conn) &&
          (s.conn.blockNumber == k + 1 || k > 0 || s.client.told || OptionReplyIn(s.toClient)))))
  }

  // ---- hope is never regained ----

  lemma ServerHope(s: State, a: Action, file: seq<Byte>, bs: nat)
    requires Inv(s, file, bs) && Hopeful(Step(s, Server(a)), file, bs)
    ensures Hopeful(s, file, bs)
  {
    AddedOne(s.conn.outbox, Err(4, []));
    AddedOne(s.conn.outbox, Err(5, []));
  }

  lemma TakeHope(s: State, p: Packet, file: seq<Byte>, bs: nat)
    requires Inv(s, file, bs) && Count(file, bs) <= MAX_SIGNED && Hopeful(Step(s, ClientTake(p)), file, bs)
    ensures Hopeful(s, file, bs)
  {
    if p in s.toClient && p.Data? && !s.client.done && p.block == (s.client.blocks + 1) % 65536 {
      BlockShape(file, bs, s.client.blocks + 1);
    }
  }

  lemma StepHope(s: State, e: Event, file: seq<Byte>, bs: nat)
    requires Inv(s, file, bs) && Count(file, bs) <= MAX_SIGNED && Hopeful(Step(s, e), file, bs)
    ensures Hopeful(s, file, bs)
  {
    match e
    case Server(a) => ServerHope(s, a, file, bs);
    case ClientTake(p) => TakeHope(s, p, file, bs);
    case ClientAck =>
    case ClientQuit(_) =>
    case LoseDown(_) =>
    case LoseUp(_) =>
  }

  lemma {:induction false} RunHope(s: State, events: seq<Event>, file: seq<Byte>, bs: nat)
    requires Inv(s, file, bs) && Count(file, bs) <= MAX_SIGNED && Hopeful(Run(s, events), file, bs)
    ensures Hopeful(s, file, bs)
  {
    if events != [] {
      RunInv(s, events[..|events| - 1], file, bs);
      StepHope(Run(s, events[..|events| - 1]), events[|events| - 1], file, bs);
      RunHope(s, events[..|events| - 1], file, bs);
    }
  }

  // ---- hope is fulfilled ----

  /** Nobody gave up, and what the client waits for is in flight or the client can ask for it. */
  ghost predicate Fed(s: State, file: seq<Byte>, bs: nat) {
    var k := s.client.blocks;
    && !s.conn.ended && !s.client.quit
    && (s.conn.blockNumber == k + 1 ==> BlockIn(s.toClient, file, bs, k + 1))
    && (s.conn.blockNumber == 0 ==> s.client.told || OptionReplyIn(s.toClient))
  }

  /** How far a fed client is from the end, in steps of a network that loses nothing. */
  function Distance(s: State, file: seq<Byte>, bs: nat): int
    requires bs > 0
  {
    var k := s.client.blocks;
    4 * (Count(file, bs) - k) +
    if s.conn.blockNumber == k + 1 then 0
    else if Ack(k % 65536) in s.toServer then 1
    else if k > 0 || s.client.told then 2 else 3
  }

  lemma Deliver(s: State, file: seq<Byte>, bs: nat)
    requires Inv(s, file, bs) && !s.client.quit && !s.client.done
    requires BlockIn(s.toClient, file, bs, s.client.blocks + 1)
    ensures var k := s.client.blocks + 1;
            var t := Step(s, ClientTake(Data(k, Block(file, bs, k))));
            && t.conn == s.conn && t.toServer == s.toServer && t.toClient == s.toClient
            && t.client.blocks == k && t.client.told == s.client.told && !t.client.quit
  {
  }

  /** The client takes the block it waits for. */
  lemma FedTake(s: State, file: seq<Byte>, bs: nat) returns (e: Event)
    requires Inv(s, file, bs) && Count(file, bs) <= MAX_SIGNED && Fed(s, file, bs) && !s.client.done
    requires s.conn.blockNumber == s.client.blocks + 1
    ensures !e.Server?
    ensures var t := Step(s, e);
            Inv(t, file, bs) && Fed(t, file, bs) && 0 <= Distance(t, file, bs) < Distance(s, file, bs)
  {
    var k := s.client.blocks + 1;
    e := ClientTake(Data(k, Block(file, bs, k)));
    StepInv(s, e, file, bs);
    Deliver(s, file, bs);
  }

  /** The server takes the acknowledgement and sends the block after it. */
  lemma FedSend(s: State, file: seq<Byte>, bs: nat) returns (e: Event)
    requires Inv(s, file, bs) && Count(file, bs) <= MAX_SIGNED && Fed(s, file, bs) && !s.client.done
    requires s.conn.blockNumber == s.client.blocks && Ack(s.client.blocks) in s.toServer
    ensures e == Server(Take(Ack(s.client.blocks)))
    ensures var t := Step(s, e);
            Inv(t, file, bs) && Fed(t, file, bs) && 0 <= Distance(t, file, bs) < Distance(s, file, bs)
  {
    e := Server(Take(Ack(s.client.blocks)));
    StepInv(s, e, file, bs);
    SendKeeps(s.conn, file, bs);
    var sent := Data(s.client.blocks + 1, Block(file, bs, s.client.blocks + 1));
    assert ReadAndSend(s.conn).lastpkt == Some(sent);
    assert ReadAndSend(s.conn).outbox == s.conn.outbox + [sent];
    AddedOne(s.conn.outbox, sent);
  }

  /** The client acknowledges, or first takes the option reply. */
  lemma FedAsk(s: State, file: seq<Byte>, bs: nat) returns (e: Event)
    requires Inv(s, file, bs) && Fed(s, file, bs) && !s.client.done
    requires s.conn.blockNumber == s.client.blocks && Ack(s.client.blocks) !in s.toServer
    ensures !e.Server?
    ensures var t := Step(s, e);
            Inv(t, file, bs) && Fed(t, file, bs) && 0 <= Distance(t, file, bs) < Distance(s, file, bs)
  {
    if s.client.blocks > 0 || s.client.told {
      e := ClientAck;
    } else {
      var p :| p in s.toClient && p.Oack?;
      e := ClientTake(p);
    }
    StepInv(s, e, file, bs);
  }

  lemma FedStep(s: State, file: seq<Byte>, bs: nat) returns (e: Event)
    requires Inv(s, file, bs) && Count(file, bs) <= MAX_SIGNED && Fed(s, file, bs) && !s.client.done
    ensures e.Server? ==> e.action.Take?
    ensures var t := Step(s, e);
            Inv(t, file, bs) && Fed(t, file, bs) && 0 <= Distance(t, file, bs) < Distance(s, file, bs)
  {
    if s.conn.blockNumber == s.client.blocks + 1 {
      e := FedTake(s, file, bs);
    } else if Ack(s.client.blocks) in s.toServer {
      e := FedSend(s, file, bs);
    } else {
      e := FedAsk(s, file, bs);
    }
  }

  /** A fed client reaches the end over a network that loses nothing, with no re-send. */
  lemma {:induction false} FinishFed(s: State, file: seq<Byte>, bs: nat) returns (events: seq<Event>)
    requires Inv(s, file, bs) && Count(file, bs) <= MAX_SIGNED && Fed(s, file, bs)
    ensures Run(s, events).client.done && OnlyTakes(ServerActions(s, events))
    decreases Distance(s, file, bs)
  {
    if s.client.done {
      events := [];
    } else {
      var e := FedStep(s, file, bs);
      var rest := FinishFed(Step(s, e), file, bs);
      RunFirst(s, e, rest);
      events := [e] + rest;
    }
  }

  /** A hopeful client is fed at once, or after one re-send, unless its last block is in flight. */
  lemma Resume(s: State, file: seq<Byte>, bs: nat)
    requires Inv(s, file, bs) && Count(file, bs) <= MAX_SIGNED && Hopeful(s, file, bs) && !s.client.done
    requires Live(s.conn) && s.conn.blockNumber == s.client.blocks + 1
    ensures var t := Step(s, Server(Again)); Inv(t, file, bs) && Fed(t, file, bs)
  {
    StepInv(s, Server(Again), file, bs);
    AddedOne(s.conn.outbox, s.conn.lastpkt.value);
  }

  lemma Fulfil(s: State, file: seq<Byte>, bs: nat) returns (events: seq<Event>)
    requires Inv(s, file, bs) && Count(file, bs) <= MAX_SIGNED && Hopeful(s, file, bs)
    ensures Run(s, events).client.done
  {
    var k := s.client.blocks + 1;
    if s.client.done {
      events := [];
    } else if k == Count(file, bs) && BlockIn(s.toClient, file, bs, k) {
      events := [ClientTake(Data(k, Block(file, bs, k)))];
      RunOne(s, events[0]);
      TakeLast(s, file, bs);
    } else if s.conn.blockNumber == k {
      Resume(s, file, bs);
      var rest := FinishFed(Step(s, Server(Again)), file, bs);
      RunFirst(s, Server(Again), rest);
      events := [Server(Again)] + rest;
    } else {
      events := FinishFed(s, file, bs);
    }
  }

  lemma DoneFits(s: State, file: seq<Byte>, bs: nat)
    requires Inv(s, file, bs) && s.client.done
    ensures Count(file, bs) <= MAX_SIGNED
  {
  }

  /** From any reachable state, whatever was lost, repeated or reordered so far: the read can still be
      finished exactly when its block count fits the signed 16-bit block field and the client is hopeful. */
  lemma CanStillFinishIff(s: State, file: seq<Byte>, bs: nat)
    requires Inv(s, file, bs)
    ensures (exists events :: Run(s, events).client.done)
            <==> Count(file, bs) <= MAX_SIGNED && Hopeful(s, file, bs)
  {
    if Count(file, bs) <= MAX_SIGNED && Hopeful(s, file, bs) {
      var events := Fulfil(s, file, bs);
    }
    forall events | Run(s, events).client.done
      ensures Count(file, bs) <= MAX_SIGNED && Hopeful(s, file, bs)
    {
      RunInv(s, events, file, bs);
      DoneFits(Run(s, events), file, bs);
      RunHope(s, events, file, bs);
    }
  }

  /** The short block is sent once: lost before the client has it, nothing brings it back. */
  lemma LostShortBlock(s: State, file: seq<Byte>, bs: nat, events: seq<Event>)
    requires Inv(s, file, bs) && !s.client.done && s.conn.blockNumber == Count(file, bs) <= MAX_SIGNED
    ensures var lost := LoseDown(Data(Count(file, bs), Block(file, bs, Count(file, bs))));
            !Run(Step(s, lost), events).client.done
  {
    var lost := LoseDown(Data(Count(file, bs), Block(file, bs, Count(file, bs))));
    StepInv(s, lost, file, bs);
    CanStillFinishIff(Step(s, lost), file, bs);
  }

  /** On data: a file of one byte whose only block is lost. */
  lemma LostShortBlockExample(b: Byte, events: seq<Event>)
    ensures !Run(Start([b], 512, Ask(None, None)), [LoseDown(Data(1, [b]))] + events).client.done
  {
    var s, lost := Start([b], 512, Ask(None, None)), LoseDown(Data(1, [b]));
    StartInv([b], 512, Ask(None, None));
    assert Block([b], 512, 1) == [b];
    LostShortBlock(s, [b], 512, events);
    RunFirst(s, lost, events);
  }

  /** The option reply is sent once too. */
  lemma LostOptionReply(file: seq<Byte>, bs: nat, blksize: Option<nat>, events: seq<Event>)
    requires bs > 0
    ensures var s := Start(file, bs, Ask(Some(0), blksize));
            !Run(s, [LoseDown(Oack(|file|, blksize))] + events).client.done
  {
    var ask, lost := Ask(Some(0), blksize), LoseDown(Oack(|file|, blksize));
    var s := Start(file, bs, ask);
    StartInv(file, bs, ask);
    StepInv(s, lost, file, bs);
    AddedOne([], Oack(|file|, blksize));
    assert s.conn.outbox == [] + [Oack(|file|, blksize)];
    assert !Hopeful(Step(s, lost), file, bs);
    CanStillFinishIff(Step(s, lost), file, bs);
    RunFirst(s, lost, events);
  }

  // ---- which reads have a finishing run ----

  /** No option reply and no first block: the server waits for a client that has nothing to answer. */
  predicate Unanswered(ask: Ask) {
    ask.tsize.Some? && ask.tsize != Some(0)
  }

  /** Nothing but errors was ever sent, and the client has nothing to acknowledge. */
  ghost predicate Silent(s: State) {
    && s.conn.blockNumber == 0 && s.conn.lastpkt.None?
    && (forall p :: p in s.conn.outbox ==> p.Err?) && (forall p :: p in s.toClient ==> p.Err?)
    && s.client.blocks == 0 && !s.client.told && !s.client.done
    && (forall p :: p in s.toServer ==> p.Err?)
  }

  lemma StepSilent(s: State, e: Event)
    requires s.conn.position <= |s.conn.source| && Silent(s)
    ensures Silent(Step(s, e))
  {
    if e.Server? {
      OutboxGrows(s.conn, e.action);
    }
  }

  lemma {:induction false} RunSilent(s: State, events: seq<Event>)
    requires s.conn.position <= |s.conn.source| && Silent(s)
    ensures Silent(Run(s, events))
  {
    if events != [] {
      RunSilent(s, events[..|events| - 1]);
      StepSilent(Run(s, events[..|events| - 1]), events[|events| - 1]);
    }
  }

  /** A read that gives a nonzero tsize is never served: in every run no DATA packet and no option
      reply is sent and the client gets nothing. */
  lemma NonzeroSizeIsNeverServed(file: seq<Byte>, bs: nat, ask: Ask, events: seq<Event>)
    requires Unanswered(ask)
    ensures var s := Run(Start(file, bs, ask), events);
            && (forall p :: p in s.conn.outbox ==> p.Err?)
            && s.client.blocks == 0 && !s.client.done
  {
    RunSilent(Start(file, bs, ask), events);
  }

  /** An answered request starts with its answer in flight. */
  lemma StartFed(file: seq<Byte>, bs: nat, ask: Ask)
    requires bs > 0 && !Unanswered(ask)
    ensures Inv(Start(file, bs, ask), file, bs) && Fed(Start(file, bs, ask), file, bs)
  {
    StartInv(file, bs, ask);
    var s := Start(file, bs, ask);
    if ask.tsize.None? {
      assert s.conn.blockNumber == 1;
      AddedOne([], s.conn.lastpkt.value);
      assert s.conn.outbox == [] + [s.conn.lastpkt.value];
    } else {
      AddedOne([], Oack(|file|, ask.blksize));
      assert s.conn.outbox == [] + [Oack(|file|, ask.blksize)];
    }
  }

  /** With a block size of 0 every block is empty and none is short. */
  ghost predicate Stuck(s: State) {
    && s.conn.blocksize == 0
    && (forall p :: p in s.conn.outbox && p.Data? ==> p.data == [])
    && (forall p :: p in s.toClient && p.Data? ==> p.data == [])
    && (s.conn.lastpkt.Some? && s.conn.lastpkt.value.Data? ==> s.conn.lastpkt.value.data == [])
    && s.client.got == [] && !s.client.done
  }

  lemma ServerStuck(c: Conn, a: Action)
    requires c.position <= |c.source| && c.blocksize == 0
    requires forall p :: p in c.outbox && p.Data? ==> p.data == []
    requires c.lastpkt.Some? && c.lastpkt.value.Data? ==> c.lastpkt.value.data == []
    ensures var d := Perform(c, a);
            && d.blocksize == 0 && (forall p :: p in d.outbox && p.Data? ==> p.data == [])
            && (d.lastpkt.Some? && d.lastpkt.value.Data? ==> d.lastpkt.value.data == [])
  {
  }

  lemma StepStuck(s: State, e: Event)
    requires s.conn.position <= |s.conn.source| && Stuck(s)
    ensures Stuck(Step(s, e))
  {
    if e.Server? {
      ServerStuck(s.conn, e.action);
      OutboxGrows(s.conn, e.action);
    }
  }

  /** Such a read never finishes, even of an empty file. */
  lemma {:induction false} ZeroBlocksNeverFinish(file: seq<Byte>, ask: Ask, events: seq<Event>)
    ensures Stuck(Run(Start(file, 0, ask), events))
  {
    if events != [] {
      var before := events[..|events| - 1];
      ZeroBlocksNeverFinish(file, ask, before);
      StepStuck(Run(Start(file, 0, ask), before), events[|events| - 1]);
    }
  }

  /** What a read that finished in some run must have been. */
  lemma FinishedMeans(file: seq<Byte>, bs: nat, ask: Ask, events: seq<Event>)
    requires Run(Start(file, bs, ask), events).client.done
    ensures bs > 0 && !Unanswered(ask) && Count(file, bs) <= MAX_SIGNED
  {
    if bs == 0 {
      ZeroBlocksNeverFinish(file, ask, events);
    } else {
      StartInv(file, bs, ask);
      RunInv(Start(file, bs, ask), events, file, bs);
      DoneFits(Run(Start(file, bs, ask), events), file, bs);
    }
    if Unanswered(ask) {
      NonzeroSizeIsNeverServed(file, bs, ask, events);
    }
  }

  lemma EndsIff(s: State, file: seq<Byte>, bs: nat, can: bool)
    requires s.conn.position <= |s.conn.source|
    requires can ==> Inv(s, file, bs) && Fed(s, file, bs) && Count(file, bs) <= MAX_SIGNED
    requires forall events :: Run(s, events).client.done ==> can
    ensures (exists events :: Run(s, events).client.done) <==> can
  {
    if can {
      var events := FinishFed(s, file, bs);
    }
  }

  /** A read can finish, the server being patient enough, exactly when its block size is positive, the
      request gives no tsize or a tsize of 0, and its block count fits the signed 16-bit block field. */
  lemma ReadFinishesIff(file: seq<Byte>, bs: nat, ask: Ask)
    ensures (exists events :: Run(Start(file, bs, ask), events).client.done)
            <==> bs > 0 && (ask.tsize.None? || ask.tsize == Some(0)) && |file| / bs + 1 <= MAX_SIGNED
  {
    var can := bs > 0 && !Unanswered(ask) && Count(file, bs) <= MAX_SIGNED;
    if can {
      StartFed(file, bs, ask);
    }
    forall events | Run(Start(file, bs, ask), events).client.done ensures can {
      FinishedMeans(file, bs, ask, events);
    }
    EndsIff(Start(file, bs, ask), file, bs, can);
  }

  /** The failures on data: a read that announces five bytes, and one of 32768 blocks. */
  lemma NonzeroSizeExample()
    ensures !exists events :: Run(Start([], 512, Ask(Some(5), None)), events).client.done
  {
    ReadFinishesIff([], 512, Ask(Some(5), None));
  }

  lemma TooManyBlocksExample(file: seq<Byte>)
    requires |file| == 512 * 32767
    ensures !exists events :: Run(Start(file, 512, Ask(None, None)), events).client.done
  {
    ReadFinishesIff(file, 512, Ask(None, None));
  }
}
