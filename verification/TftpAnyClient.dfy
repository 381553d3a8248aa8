/** A connection against a client that sends anything at all: whatever packets arrive, in whatever order,
    with whatever silent rounds. */
module TftpAnyClient {
  import opened Prelude
  import opened TftpWire
  import opened TftpServer
  import opened TftpBlocks

  lemma {:induction false} ReplayFirst(c: Conn, a: Action, rest: seq<Action>)
    requires c.position <= |c.source|
    ensures Replay(c, [a] + rest) == Replay(Perform(c, a), rest)
  {
    ReplayOne(c, a);
    ReplayConcat(c, [a], rest);
  }

  // ---- reads ----

  /** Every DATA packet carries the block of its number, and nothing was written. */
  ghost predicate ReadsOnly(c: Conn, file: seq<Byte>, bs: nat) {
    && c.mode == Reading && c.source == file && c.blocksize == bs && c.position <= |file| && c.writes == []
    && (Live(c) ==> 0 <= c.blockNumber <= MAX_SIGNED && c.position == Offset(file, bs, c.blockNumber))
    && (forall p :: p in c.outbox && p.Data? ==> 0 < p.block <= MAX_SIGNED && p.data == Block(file, bs, p.block))
    && (c.lastpkt.Some? ==> c.lastpkt.value in c.outbox)
  }

  lemma SendReadsOnly(c: Conn, file: seq<Byte>, bs: nat)
    requires ReadsOnly(c, file, bs) && Live(c)
    ensures ReadsOnly(ReadAndSend(c), file, bs)
  {
    var k, d := c.blockNumber + 1, ReadAndSend(c);
    OffsetGrows(file, bs, k);
    assert d.position == Offset(file, bs, k);
    assert file[c.position..d.position] == Block(file, bs, k);
  }

  lemma StepReadsOnly(c: Conn, a: Action, file: seq<Byte>, bs: nat)
    requires ReadsOnly(c, file, bs)
    ensures ReadsOnly(Perform(c, a), file, bs)
  {
    if Live(c) && a.Take? && a.packet.Ack? && Signed(a.packet.block) == c.blockNumber {
      SendReadsOnly(c, file, bs);
    }
  }

  /** Whatever the client of a read sends, every DATA packet it gets carries the block of its number, and
      the server writes nothing. */
  lemma {:induction false} ReadsOnlyRead(file: seq<Byte>, configured: nat, ask: Ask, size: nat, actions: seq<Action>)
    ensures var bs := if ask.blksize.Some? then ask.blksize.value else configured;
            ReadsOnly(Replay(Open(Fresh(configured), Rrq(ask, Resource(Some(size), Some(file)))), actions), file, bs)
  {
    var bs := if ask.blksize.Some? then ask.blksize.value else configured;
    var c := Open(Fresh(configured), Rrq(ask, Resource(Some(size), Some(file))));
    if actions == [] {
      var reading := Begin(Fresh(configured), ask.blksize).(mode := Reading, source := file);
      assert Offset(file, bs, 0) == 0;
      if ask.tsize.None? {
        SendReadsOnly(reading, file, bs);
      }
    } else {
      ReadsOnlyRead(file, configured, ask, size, actions[..|actions| - 1]);
      StepReadsOnly(Replay(c, actions[..|actions| - 1]), actions[|actions| - 1], file, bs);
    }
  }

  // ---- writes ----

  predicate Awaited(a: Action, next: nat) {
    a.Take? && a.packet.Data? && a.packet.block == next <= MAX_SIGNED
  }

  predicate Ends(a: Action, next: nat) {
    a.GiveUp? ||
    (a.Take? && (a.packet.Request? || a.packet.Oack? || (a.packet.Ack? && a.packet.block == next <= MAX_SIGNED)))
  }

  /** What a server that awaits block `next` must write: the data of the awaited blocks in turn, up to a
      short one or to a packet that ends the transfer. */
  function Wanted(actions: seq<Action>, next: nat, bs: nat): seq<seq<Byte>> {
    if actions == [] then [] else
    var a, rest := actions[0], actions[1..];
    if Awaited(a, next) then [a.packet.data] + if |a.packet.data| == bs then Wanted(rest, next + 1, bs) else []
    else if Ends(a, next) then [] else Wanted(rest, next, bs)
  }

  ghost predicate WaitsForWrite(c: Conn) {
    c.mode == Writing && Live(c) && 0 < c.blockNumber <= MAX_SIGNED + 1 && c.position <= |c.source|
  }

  /** One action on a waiting write connection. */
  lemma WriteStep(c: Conn, a: Action)
    requires WaitsForWrite(c)
    ensures var d, next := Perform(c, a), c.blockNumber;
            && d.position <= |d.source| && d.blocksize == c.blocksize
            && d.writes == c.writes + (if Awaited(a, next) then [a.packet.data] else [])
            && (Live(d) <==> if Awaited(a, next) then |a.packet.data| == c.blocksize else !Ends(a, next))
            && (Live(d) ==> WaitsForWrite(d) && d.blockNumber == if Awaited(a, next) then next + 1 else next)
  {
    assert c.writes + [] == c.writes;
  }

  lemma Associate(a: seq<seq<Byte>>, b: seq<seq<Byte>>, c: seq<seq<Byte>>)
    ensures a + b + c == a + (b + c) && a + [] == a && [] + a == a
  {
  }

  /** From any waiting write connection. */
  lemma {:induction false} WritesWanted(c: Conn, actions: seq<Action>)
    requires WaitsForWrite(c)
    ensures Replay(c, actions).writes == c.writes + Wanted(actions, c.blockNumber, c.blocksize)
    decreases |actions|
  {
    if actions == [] {
      Associate(c.writes, [], []);
    } else {
      var a, rest := actions[0], actions[1..];
      var d := Perform(c, a);
      assert actions == [a] + rest;
      ReplayFirst(c, a, rest);
      WriteStep(c, a);
      var now := if Awaited(a, c.blockNumber) then [a.packet.data] else [];
      var later := if Live(d) then Wanted(rest, d.blockNumber, d.blocksize) else [];
      Associate(c.writes, now, later);
      Associate(later, [], []);
      Associate(d.writes, [], []);
      if Live(d) {
        WritesWanted(d, rest);
      } else {
        ReplayDead(d, rest);
      }
    }
  }

  /** Whatever the client of a write sends, the server writes the data of blocks 1, 2, 3 and so on as they
      come, each once, up to the first short one, and nothing after a packet that ends the transfer. */
  lemma WritesOnlyWanted(configured: nat, blksize: Option<nat>, actions: seq<Action>)
    ensures var bs := if blksize.Some? then blksize.value else configured;
            Replay(Open(Fresh(configured), Wrq(blksize, Opens)), actions).writes == Wanted(actions, 1, bs)
  {
    var c := Open(Fresh(configured), Wrq(blksize, Opens));
    WritesWanted(c, actions);
    assert [] + Wanted(actions, 1, c.blocksize) == Wanted(actions, 1, c.blocksize);
  }

  // ---- requests that cannot be served ----

  /** No file: no data goes out or is written. */
  predicate NoTransfer(c: Conn) {
    c.mode == NoFile && c.writes == [] && c.position == 0 && c.source == [] && (Live(c) ==> c.blockNumber == 0)
    && (c.lastpkt.Some? ==> c.lastpkt.value.Ack?) && forall i :: 0 <= i < |c.outbox| ==> !c.outbox[i].Data?
  }

  /** Giving up, a request, an unknown packet, or anything numbered 0: all that a connection without a file
      does not survive. */
  predicate Touches(a: Action) {
    a.GiveUp? || (a.Take? && (a.packet.Request? || a.packet.Oack?
      || (a.packet.Ack? && a.packet.block == 0) || (a.packet.Data? && a.packet.block == 0)))
  }

  lemma StepNoTransfer(c: Conn, a: Action)
    requires NoTransfer(c)
    ensures NoTransfer(Perform(c, a)) && c.outbox <= Perform(c, a).outbox && (!Live(c) ==> Perform(c, a) == c)
    ensures Live(Perform(c, a)) <==> Live(c) && !Touches(a)
  {
  }

  lemma {:induction false} StaysNoTransfer(c: Conn, actions: seq<Action>)
    requires NoTransfer(c)
    ensures NoTransfer(Replay(c, actions)) && c.outbox <= Replay(c, actions).outbox
    ensures Live(Replay(c, actions)) <==> Live(c) && forall i :: 0 <= i < |actions| ==> !Touches(actions[i])
  {
    if actions != [] {
      StaysNoTransfer(c, actions[..|actions| - 1]);
      StepNoTransfer(Replay(c, actions[..|actions| - 1]), actions[|actions| - 1]);
    }
  }

  /** What the client is told first about a request that cannot be served. */
  function Refusal(o: Opening): seq<Packet> {
    match o
    case NoRequest => [Err(4, [])]
    case Wrq(_, target) => if target.CannotOpen? then [Err(1, [])] else []
    case Rrq(ask, resource) =>
      if ask.tsize == Some(0) && resource.size.Some? then [Oack(resource.size.value, ask.blksize), Err(1, [])]
      else [Err(1, [])]
  }

  predicate Unserved(o: Opening) {
    match o
    case NoRequest => true
    case Wrq(_, target) => !target.Opens?
    case Rrq(ask, resource) => resource.bytes.None? || (ask.tsize == Some(0) && resource.size.None?)
  }

  lemma OpenUnserved(configured: nat, o: Opening)
    requires Unserved(o)
    ensures var c := Open(Fresh(configured), o);
            && NoTransfer(c) && c.outbox == Refusal(o)
            && (Live(c) <==> o.Wrq? || (o.Rrq? && (o.ask.tsize == Some(0) ==> o.resource.size.Some?)))
  {
  }

  /** A request that cannot be served is told so first, and whatever arrives afterwards no data is sent,
      read or written. It ends the connection at once only if it is no request, or if its size was asked
      for and cannot be told. */
  lemma UnservedIsRefused(configured: nat, o: Opening, actions: seq<Action>)
    requires Unserved(o)
    ensures var c := Replay(Open(Fresh(configured), o), actions);
            NoTransfer(c) && Refusal(o) <= c.outbox
    ensures Live(Replay(Open(Fresh(configured), o), actions)) <==>
            Live(Open(Fresh(configured), o)) && forall i :: 0 <= i < |actions| ==> !Touches(actions[i])
    ensures Live(Open(Fresh(configured), o)) <==>
            o.Wrq? || (o.Rrq? && (o.ask.tsize == Some(0) ==> o.resource.size.Some?))
    ensures !Live(Open(Fresh(configured), o)) ==> Replay(Open(Fresh(configured), o), actions).outbox == Refusal(o)
  {
    var c := Open(Fresh(configured), o);
    OpenUnserved(configured, o);
    StaysNoTransfer(c, actions);
    if !Live(c) {
      ReplayDead(c, actions);
    }
  }

  // ---- errors ----

  /** What ends a live connection with an error packet, and its code. */
  function ErrorFor(a: Action): Option<Field> {
    match a
    case Again => None
    case GiveUp => Some(4)
    case Take(p) => if p.Oack? then Some(4) else if p.Request? then Some(5) else None
  }

  /** A live connection sends an error exactly for a time-out or an unknown packet, code 4, or another
      request, code 5; it is the last thing it sends. */
  lemma ErrorEnds(c: Conn, a: Action, later: seq<Action>)
    requires c.position <= |c.source| && Live(c) && ErrorFor(a).Some?
    ensures Replay(c, [a] + later).outbox == c.outbox + [Err(ErrorFor(a).value, [])]
    ensures Replay(c, [a] + later).ended
  {
    ReplayFirst(c, a, later);
    ReplayDead(Perform(c, a), later);
  }

  lemma NoOtherError(c: Conn, a: Action)
    requires c.position <= |c.source| && ErrorFor(a).None?
    requires forall i :: 0 <= i < |c.outbox| ==> !c.outbox[i].Err?
    requires c.lastpkt.Some? ==> !c.lastpkt.value.Err?
    ensures var d := Perform(c, a);
            && (forall i :: 0 <= i < |d.outbox| ==> !d.outbox[i].Err?)
            && (d.lastpkt.Some? ==> !d.lastpkt.value.Err?)
  {
  }
}
