/** A file cut into TFTP blocks: full ones, then one short (possibly empty) last block. */
module TftpBlocks {
  import opened Prelude

  /** Number of blocks a transfer of the file takes, the short last one included. */
  function Count(file: seq<Byte>, bs: nat): (n: nat)
    requires bs > 0
    ensures n > 0
  {
    |file| / bs + 1
  }

  function Offset(file: seq<Byte>, bs: nat, k: nat): (n: nat)
    ensures n <= |file|
  {
    if k * bs < |file| then k * bs else |file|
  }

  lemma OffsetGrows(file: seq<Byte>, bs: nat, k: nat)
    requires k > 0
    ensures Offset(file, bs, k - 1) <= Offset(file, bs, k)
    ensures k * bs == (k - 1) * bs + bs
  {
  }

  /** The k-th block, counted from 1. */
  function Block(file: seq<Byte>, bs: nat, k: nat): seq<Byte>
    requires k > 0
  {
    OffsetGrows(file, bs, k);
    file[Offset(file, bs, k - 1)..Offset(file, bs, k)]
  }

  function Prefix(file: seq<Byte>, bs: nat, k: nat): seq<Byte> {
    file[..Offset(file, bs, k)]
  }

  lemma MulMonotone(a: nat, b: nat, c: nat)
    requires a <= b
    ensures a * c <= b * c
  {
  }

  /** A block is full before the last one, short at it, and there is nothing after it. */
  lemma BlockShape(file: seq<Byte>, bs: nat, k: nat)
    requires bs > 0 && 0 < k <= Count(file, bs)
    ensures |Block(file, bs, k)| <= bs
    ensures |Block(file, bs, k)| == bs <==> k < Count(file, bs)
    ensures Offset(file, bs, k - 1) == (k - 1) * bs
  {
    var q := |file| / bs;
    assert |file| == q * bs + |file| % bs;
    OffsetGrows(file, bs, k);
    if k <= q {
      assert k * bs <= q * bs by { MulMonotone(k, q, bs); }
    }
  }

  lemma PrefixStep(file: seq<Byte>, bs: nat, k: nat)
    requires k > 0
    ensures Prefix(file, bs, k) == Prefix(file, bs, k - 1) + Block(file, bs, k)
  {
    OffsetGrows(file, bs, k);
  }

  /** All the blocks together are the file. */
  lemma WholeFile(file: seq<Byte>, bs: nat)
    requires bs > 0
    ensures Prefix(file, bs, Count(file, bs)) == file
  {
    var q := |file| / bs;
    assert |file| == q * bs + |file| % bs;
    OffsetGrows(file, bs, q + 1);
  }
}
