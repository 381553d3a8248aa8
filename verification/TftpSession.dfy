/** Whole transfers: the connection object itself, from its construction through `connect`, against a
    client and a network that behave as in some run of the read or write protocol. */
module TftpSession {
  import opened Prelude
  import opened TftpWire
  import opened TftpServer
  import opened TftpBlocks
  import TftpRead
  import TftpWrite

  /** The block size both sides use: the client's, if it names one. */
  function Agreed(configured: nat, blksize: Option<nat>): nat {
    if blksize.Some? then blksize.value else configured
  }

  /** What the server object saw is what happened to the server in the run: its own packets arrived
      after the client had sent them, and the silent rounds and re-sends fall where the run has them. */
  ghost predicate ReadExplains(s: TftpRead.State, events: seq<TftpRead.Event>, plan: seq<Action>)
    requires s.conn.position <= |s.conn.source|
  {
    TftpRead.ServerActions(s, events) == plan
  }

  ghost predicate WriteExplains(s: TftpWrite.State, events: seq<TftpWrite.Event>, plan: seq<Action>)
    requires s.conn.position <= |s.conn.source| && s.conn.blocksize > 0
  {
    TftpWrite.ServerActions(s, events) == plan
  }

  /** A read through the connection object: whatever was lost, repeated or reordered, the client holds
      a prefix of the file, the whole file once it saw the short block, and the object has sent
      every block once it is inactive. */
  method Download(file: seq<Byte>, configured: nat, ask: Ask, addr: int, retry: nat, arrivals: seq<Arrival>,
                  ghost events: seq<TftpRead.Event>)
    returns (conn: TftpConnection)
    requires Agreed(configured, ask.blksize) > 0
    requires ReadExplains(TftpRead.Start(file, Agreed(configured, ask.blksize), ask), events,
                          Plan(arrivals, addr, retry, retry))
    ensures var bs := Agreed(configured, ask.blksize);
            var s := TftpRead.Run(TftpRead.Start(file, bs, ask), events);
            && conn.View() == s.conn
            && s.client.got <= file && (s.client.done ==> s.client.got == file)
            && s.client.blocks <= conn.blockNumber <= s.client.blocks + 1
            && (!conn.active ==> forall k :: 0 < k <= Count(file, bs) ==> TftpRead.WasSent(conn.View(), file, bs, k))
  {
    ghost var bs := Agreed(configured, ask.blksize);
    ghost var s := TftpRead.Start(file, bs, ask);
    conn := new TftpConnection(addr, configured, retry);
    conn.Connect(Rrq(ask, Resource(Some(|file|), Some(file))), arrivals);
    TftpRead.ServerSideIsReplay(s, events);
    TftpRead.ReadIsPrefix(file, bs, ask, events);
    TftpRead.StoppedSentAll(file, bs, ask, events);
  }

  /** A write through the connection object: the bytes written are the client's blocks in order, each
      once, and the client's whole file once the object is inactive. */
  method Upload(file: seq<Byte>, configured: nat, blksize: Option<nat>, addr: int, retry: nat,
                arrivals: seq<Arrival>, ghost events: seq<TftpWrite.Event>)
    returns (conn: TftpConnection)
    requires Agreed(configured, blksize) > 0
    requires WriteExplains(TftpWrite.Start(file, Agreed(configured, blksize)), events,
                           Plan(arrivals, addr, retry, retry))
    ensures var bs := Agreed(configured, blksize);
            var s := TftpWrite.Run(TftpWrite.Start(file, bs), events);
            && conn.View() == s.conn
            && (forall i :: 0 <= i < |conn.writes| ==> conn.writes[i] == Block(file, bs, i + 1))
            && Concat(conn.writes) <= file
            && (!conn.active || s.client.done ==> Concat(conn.writes) == file)
  {
    ghost var bs := Agreed(configured, blksize);
    ghost var s := TftpWrite.Start(file, bs);
    conn := new TftpConnection(addr, configured, retry);
    conn.Connect(Wrq(blksize, Opens), arrivals);
    TftpWrite.ServerSideIsReplay(s, events);
    TftpWrite.WriteIsPrefix(file, bs, events);
  }

  // ---- which transfers can finish with this many retries ----

  /** The rounds and the run belong together and bring the client the whole file. */
  ghost predicate ReadEnds(file: seq<Byte>, bs: nat, ask: Ask, addr: int, retry: nat, arrivals: seq<Arrival>,
                           events: seq<TftpRead.Event>)
  {
    var s := TftpRead.Start(file, bs, ask);
    ReadExplains(s, events, Plan(arrivals, addr, retry, retry)) && TftpRead.Run(s, events).client.done
  }

  /** With retries, packets that keep coming finish any read that can finish at all. */
  lemma PatientRead(file: seq<Byte>, bs: nat, ask: Ask, addr: int, retry: nat)
    returns (arrivals: seq<Arrival>, events: seq<TftpRead.Event>)
    requires bs > 0 && !TftpRead.Unanswered(ask) && Count(file, bs) <= MAX_SIGNED && retry > 0
    ensures ReadEnds(file, bs, ask, addr, retry, arrivals, events)
  {
    var s := TftpRead.Start(file, bs, ask);
    TftpRead.StartFed(file, bs, ask);
    events := TftpRead.FinishFed(s, file, bs);
    var actions := TftpRead.ServerActions(s, events);
    arrivals := Heard(addr, actions);
    PlanOfHeard(addr, retry, retry, actions);
  }

  /** Without, the only block of a read without tsize is sent before the server would wait. */
  lemma HastyRead(file: seq<Byte>, bs: nat, ask: Ask, addr: int)
    requires bs > 0 && ask.tsize.None? && Count(file, bs) == 1
    ensures ReadEnds(file, bs, ask, addr, 0, [], [TftpRead.Server(GiveUp)]
              + [TftpRead.ClientTake(Data(1, Block(file, bs, 1)))])
  {
    var s := TftpRead.Start(file, bs, ask);
    var stop, take := TftpRead.Server(GiveUp), TftpRead.ClientTake(Data(1, Block(file, bs, 1)));
    TftpRead.StartFed(file, bs, ask);
    assert s.conn.blockNumber == 1;
    TftpRead.StopDead(s);
    TftpRead.RunFirst(s, stop, [take]);
    TftpRead.RunOne(s, take);
    TftpRead.TakeLast(s, file, bs);
  }

  lemma GivingUpSendsNoBlock(c: Conn)
    requires c.position <= |c.source|
    ensures Replay(c, [GiveUp]).blockNumber == c.blockNumber
  {
    ReplayOne(c, GiveUp);
  }

  lemma DoneByNumber(t: TftpRead.State, file: seq<Byte>, bs: nat)
    requires TftpRead.Inv(t, file, bs) && t.client.done
    ensures t.conn.blockNumber >= Count(file, bs)
  {
  }

  lemma HastyReadMeans(file: seq<Byte>, bs: nat, ask: Ask, addr: int, arrivals: seq<Arrival>,
                       events: seq<TftpRead.Event>)
    requires bs > 0 && ReadEnds(file, bs, ask, addr, 0, arrivals, events)
    ensures ask.tsize.None? && Count(file, bs) == 1
  {
    var s := TftpRead.Start(file, bs, ask);
    var t := TftpRead.Run(s, events);
    TftpRead.ServerSideIsReplay(s, events);
    GivingUpSendsNoBlock(s.conn);
    TftpRead.StartNumber(file, bs, ask);
    TftpRead.StartInv(file, bs, ask);
    TftpRead.RunInv(s, events, file, bs);
    DoneByNumber(t, file, bs);
  }

  /** A read through a server with this many retries has an ending at all exactly when its block size is
      positive, it gives no tsize or a tsize of 0, its block count fits the signed 16-bit block field, and
      the server may wait, unless the first block is all there is. */
  lemma DownloadFinishesIff(file: seq<Byte>, bs: nat, ask: Ask, addr: int, retry: nat)
    ensures (exists arrivals, events :: ReadEnds(file, bs, ask, addr, retry, arrivals, events)) <==>
            && bs > 0 && (ask.tsize.None? || ask.tsize == Some(0)) && |file| / bs + 1 <= MAX_SIGNED
            && (retry > 0 || (ask.tsize.None? && |file| / bs + 1 == 1))
  {
    if bs > 0 && !TftpRead.Unanswered(ask) && Count(file, bs) <= MAX_SIGNED {
      if retry > 0 {
        var arrivals, events := PatientRead(file, bs, ask, addr, retry);
      } else if ask.tsize.None? && Count(file, bs) == 1 {
        HastyRead(file, bs, ask, addr);
      }
    }
    forall arrivals, events | ReadEnds(file, bs, ask, addr, retry, arrivals, events)
      ensures bs > 0 && !TftpRead.Unanswered(ask) && Count(file, bs) <= MAX_SIGNED
      ensures retry > 0 || (ask.tsize.None? && Count(file, bs) == 1)
    {
      TftpRead.FinishedMeans(file, bs, ask, events);
      if retry == 0 {
        HastyReadMeans(file, bs, ask, addr, arrivals, events);
      }
    }
  }

  /** The rounds and the run belong together and bring the server the whole file. */
  ghost predicate WriteEnds(file: seq<Byte>, bs: nat, addr: int, retry: nat, arrivals: seq<Arrival>,
                            events: seq<TftpWrite.Event>)
    requires bs > 0
  {
    var s := TftpWrite.Start(file, bs);
    WriteExplains(s, events, Plan(arrivals, addr, retry, retry)) && !TftpWrite.Run(s, events).conn.active
  }

  lemma PatientWrite(file: seq<Byte>, bs: nat, addr: int, retry: nat)
    returns (arrivals: seq<Arrival>, events: seq<TftpWrite.Event>)
    requires bs > 0 && Count(file, bs) <= MAX_SIGNED && retry > 0
    ensures WriteEnds(file, bs, addr, retry, arrivals, events)
    ensures TftpWrite.Run(TftpWrite.Start(file, bs), events).client.done
  {
    var s := TftpWrite.Start(file, bs);
    TftpWrite.StartFed(file, bs);
    events := TftpWrite.FinishFed(s, bs);
    var actions := TftpWrite.ServerActions(s, events);
    arrivals := Heard(addr, actions);
    PlanOfHeard(addr, retry, retry, actions);
  }

  lemma EndedWriteMeans(file: seq<Byte>, bs: nat, addr: int, retry: nat, arrivals: seq<Arrival>,
                        events: seq<TftpWrite.Event>)
    requires bs > 0 && WriteEnds(file, bs, addr, retry, arrivals, events)
    ensures Count(file, bs) <= MAX_SIGNED && retry > 0
  {
    var s := TftpWrite.Start(file, bs);
    TftpWrite.StartInv(file, bs);
    TftpWrite.RunInv(s, events, bs);
    if retry == 0 {
      TftpWrite.ServerSideIsReplay(s, events);
      ReplayOne(s.conn, GiveUp);
    }
  }

  /** A write through a server with this many retries can be completed exactly when its block count fits
      the signed 16-bit block field and the server may wait at all. */
  lemma UploadFinishesIff(file: seq<Byte>, bs: nat, addr: int, retry: nat)
    requires bs > 0
    ensures (exists arrivals, events :: WriteEnds(file, bs, addr, retry, arrivals, events))
            <==> |file| / bs + 1 <= MAX_SIGNED && retry > 0
  {
    if Count(file, bs) <= MAX_SIGNED && retry > 0 {
      var arrivals, events := PatientWrite(file, bs, addr, retry);
    }
    forall arrivals, events | WriteEnds(file, bs, addr, retry, arrivals, events)
      ensures Count(file, bs) <= MAX_SIGNED && retry > 0
    {
      EndedWriteMeans(file, bs, addr, retry, arrivals, events);
    }
  }

  /** On data: with no retries a read of 600 bytes in blocks of 512 never ends. */
  lemma NoRetriesExample(file: seq<Byte>, addr: int)
    requires |file| == 600
    ensures !exists arrivals, events :: ReadEnds(file, 512, Ask(None, None), addr, 0, arrivals, events)
  {
    DownloadFinishesIff(file, 512, Ask(None, None), addr, 0);
  }
}
