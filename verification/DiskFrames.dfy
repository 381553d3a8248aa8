/** The packed little-endian frames the hook sends and the introspection server reads. */
module DiskFrames {
  import opened Prelude

  const SECTOR := 512
  const MAX_BYTES_SENT := 512 * 1024
  const HEADER := 20
  const OP_READ := 0
  const OP_WRITE := 1
  const OP_INVALID := 2
  const WORD := 0x1_0000_0000

  predicate Int32(v: int) {
    -0x8000_0000 <= v < 0x8000_0000
  }

  predicate Int64(v: int) {
    -0x8000_0000_0000_0000 <= v < 0x8000_0000_0000_0000
  }

  /** DiskIntrospectionHeader. */
  datatype Header = Header(sector: int, numSectors: int, op: int, size: int) {
    predicate Fits() {
      Int64(sector) && Int32(numSectors) && Int32(op) && Int32(size)
    }
  }

  function PutWord(u: int): (b: seq<Byte>)
    requires 0 <= u < WORD
    ensures |b| == 4
  {
    var v := u / 256;
    var w := v / 256;
    [(u % 256) as Byte, (v % 256) as Byte, (w % 256) as Byte, (w / 256) as Byte]
  }

  function GetWord(b: seq<Byte>): (u: int)
    requires |b| == 4
    ensures 0 <= u < WORD
  {
    b[0] as int + 256 * (b[1] as int + 256 * (b[2] as int + 256 * (b[3] as int)))
  }

  function Signed(u: int): int {
    if u < 0x8000_0000 then u else u - WORD
  }

  function EncodeHeader(h: Header): (b: seq<Byte>)
    requires h.Fits()
    ensures |b| == HEADER
  {
    PutWord(h.sector % WORD) + PutWord(h.sector / WORD % WORD)
    + PutWord(h.numSectors % WORD) + PutWord(h.op % WORD) + PutWord(h.size % WORD)
  }

  function DecodeHeader(b: seq<Byte>): (h: Header)
    requires |b| == HEADER
    ensures h.Fits()
  {
    Header(GetWord(b[..4]) + Signed(GetWord(b[4..8])) * WORD,
           Signed(GetWord(b[8..12])), Signed(GetWord(b[12..16])), Signed(GetWord(b[16..20])))
  }

  lemma WordRoundTrip(u: int)
    requires 0 <= u < WORD
    ensures GetWord(PutWord(u)) == u
  {
  }

  lemma HighWord(v: int)
    requires Int64(v)
    ensures v % WORD + Signed(v / WORD % WORD) * WORD == v
  {
    assert -0x8000_0000 <= v / WORD < 0x8000_0000;
  }

  lemma LowWord(v: int)
    requires Int32(v)
    ensures Signed(v % WORD) == v
  {
  }

  lemma HeaderSlices(h: Header)
    requires h.Fits()
    ensures var b := EncodeHeader(h);
            && b[..4] == PutWord(h.sector % WORD) && b[4..8] == PutWord(h.sector / WORD % WORD)
            && b[8..12] == PutWord(h.numSectors % WORD) && b[12..16] == PutWord(h.op % WORD)
            && b[16..20] == PutWord(h.size % WORD)
  {
  }

  /** A header written by the hook is the header the server sees. */
  lemma HeaderRoundTrip(h: Header)
    requires h.Fits()
    ensures DecodeHeader(EncodeHeader(h)) == h
  {
    HeaderSlices(h);
    WordRoundTrip(h.sector % WORD);
    WordRoundTrip(h.sector / WORD % WORD);
    WordRoundTrip(h.numSectors % WORD);
    WordRoundTrip(h.op % WORD);
    WordRoundTrip(h.size % WORD);
    HighWord(h.sector);
    LowWord(h.numSectors);
    LowWord(h.op);
    LowWord(h.size);
  }

  /** One disk access handed to the hook: `contents` is what num_sectors sectors hold. */
  datatype Access = Access(sector: int, numSectors: nat, op: int, contents: seq<Byte>) {
    predicate Fits() {
      Int64(sector) && Int32(op) && numSectors * SECTOR < 0x8000_0000 && |contents| == numSectors * SECTOR
    }
  }

  /** lophi_thread: the header goes in front of the contents in one buffer. */
  function Frame(a: Access): (f: seq<Byte>)
    requires a.Fits()
    ensures |f| == HEADER + |a.contents|
  {
    EncodeHeader(Header(a.sector, a.numSectors, a.op, a.numSectors * SECTOR)) + a.contents
  }

  lemma LowByte(v: int)
    ensures PutWord(v % WORD)[0] as int == v % 256
  {
    var q, r := v / WORD, v % WORD;
    assert v == 256 * (q * 0x100_0000 + r / 256) + r % 256;
  }

  /** The header is packed little-endian: sector in bytes 0 to 7, number of sectors from 8, operation from
      12, size from 16. */
  lemma HeaderLayout(h: Header)
    requires h.Fits()
    ensures var b := EncodeHeader(h);
            && b[0] as int == h.sector % 256 && b[4] as int == h.sector / WORD % 256
            && b[8] as int == h.numSectors % 256 && b[12] as int == h.op % 256 && b[16] as int == h.size % 256
  {
    HeaderSlices(h);
    var b := EncodeHeader(h);
    LowByte(h.sector);
    LowByte(h.sector / WORD);
    LowByte(h.numSectors);
    LowByte(h.op);
    LowByte(h.size);
    assert b[0] == b[..4][0] && b[4] == b[4..8][0] && b[8] == b[8..12][0];
    assert b[12] == b[12..16][0] && b[16] == b[16..20][0];
  }

  /** A frame is the header of its access followed by exactly the access's contents. */
  lemma FrameLayout(a: Access)
    requires a.Fits()
    ensures Frame(a)[HEADER..] == a.contents
    ensures DecodeHeader(Frame(a)[..HEADER]) == Header(a.sector, a.numSectors, a.op, |a.contents|)
  {
    var h := Header(a.sector, a.numSectors, a.op, a.numSectors * SECTOR);
    HeaderRoundTrip(h);
    assert Frame(a)[..HEADER] == EncodeHeader(h);
  }
}
