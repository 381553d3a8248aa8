/** TFTP packets as `TftpConnection` packs and parses them (big-endian 16-bit fields). */
module TftpWire {
  import opened Prelude

  // The two-byte block field as it travels; the server reads it back with struct's signed '!h'.
  type Field = x: int | 0 <= x < 65536

  const RRQ := 1
  const WRQ := 2
  const DATA := 3
  const ACK := 4
  const ERR := 5
  const MAX_SIGNED := 32767

  datatype Packet =
    | Data(block: Field, data: seq<Byte>)
    | Ack(block: Field)
    | Err(code: Field, text: seq<Byte>)
    | Oack(size: nat, blksize: Option<nat>)
    | Request(opcode: Field)

  /** struct.unpack('!h'): the field read as a signed 16-bit number. */
  function Signed(f: Field): (v: int)
    ensures -32768 <= v <= MAX_SIGNED
    ensures v % 65536 == f
  {
    if f <= MAX_SIGNED then f else f - 65536
  }

  /** struct.pack('!h') raises struct.error outside the signed range: modelled as None. */
  function Pack(v: int): (f: Option<Field>)
    ensures f.Some? <==> -32768 <= v <= MAX_SIGNED
    ensures f.Some? ==> Signed(f.value) == v
  {
    if -32768 <= v <= MAX_SIGNED then Some(v % 65536) else None
  }

  function FieldBytes(f: Field): seq<Byte> {
    [(f / 256) as Byte, (f % 256) as Byte]
  }

  function ReadField(b: seq<Byte>): Field
    requires |b| >= 2
  {
    b[0] as int * 256 + b[1] as int
  }

  /** The datagram for a packet the transfer phase sends. */
  function Encode(p: Packet): seq<Byte>
    requires p.Data? || p.Ack? || p.Err?
  {
    match p
    case Data(k, d) => FieldBytes(DATA) + FieldBytes(k) + d
    case Ack(k) => FieldBytes(ACK) + FieldBytes(k)
    case Err(c, t) => FieldBytes(ERR) + FieldBytes(c) + t + [0]
  }

  /** `parse`; None where it raises (short datagram, unknown opcode). A request's body is not parsed. */
  function Decode(b: seq<Byte>): Option<Packet> {
    if |b| < 2 then None else
    var opcode := ReadField(b);
    if opcode == RRQ || opcode == WRQ then Some(Request(opcode))
    else if |b| < 4 then None
    else if opcode == ACK then Some(Ack(ReadField(b[2..])))
    else if opcode == DATA then Some(Data(ReadField(b[2..]), b[4..]))
    else if opcode == ERR then
      // buf[4:-1] is empty when the datagram stops at the code
      Some(Err(ReadField(b[2..]), if |b| == 4 then [] else b[4..|b| - 1]))
    else None
  }

  /** On the wire a DATA, ACK or ERROR packet starts with opcode 3, 4 or 5 and its number, high byte first
      (section 5 of RFC 1350). */
  lemma WireLayout(p: Packet)
    requires p.Data? || p.Ack? || p.Err?
    ensures var b, n := Encode(p), if p.Err? then p.code else p.block;
            && |b| >= 4 && b[0] == 0 && b[1] == (if p.Data? then 3 else if p.Ack? then 4 else 5)
            && b[2] as int * 256 + b[3] as int == n
            && b[4..] == if p.Data? then p.data else if p.Ack? then [] else p.text + [0]
  {
    var b := Encode(p);
    assert b[..4] == FieldBytes(if p.Data? then DATA else if p.Ack? then ACK else ERR)
                     + FieldBytes(if p.Err? then p.code else p.block);
    assert b[0] == b[..4][0] && b[1] == b[..4][1] && b[2] == b[..4][2] && b[3] == b[..4][3];
  }

  /** What either side sends in the transfer phase, the other side reads back unchanged. */
  lemma RoundTrip(p: Packet)
    requires p.Data? || p.Ack? || p.Err?
    ensures Decode(Encode(p)) == Some(p)
  {
    var b := Encode(p);
    match p
    case Data(k, d) =>
      assert b[2..4] == FieldBytes(k) && b[2..][..2] == b[2..4];
      assert b[4..] == d;
    case Ack(k) =>
      assert b[2..] == FieldBytes(k);
    case Err(c, t) =>
      assert b[2..4] == FieldBytes(c) && b[2..][..2] == b[2..4];
      assert b[4..|b| - 1] == t;
  }
}
