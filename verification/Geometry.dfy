/** Volume geometry: blocks, sectors and the two conversions of the reconstructor. */
module Geometry {

  /** SECTOR_SIZE, BLOCK_SIZE (bytes), VOLUME_OFFSET (sectors), BLOCK_COUNT. */
  datatype Volume = Volume(sectorSize: nat, blockSize: nat, offset: nat, blockCount: nat)

  /** What _block_to_sectors asserts. */
  predicate Usable(v: Volume) {
    0 < v.sectorSize <= v.blockSize
  }

  /** Sectors do not straddle blocks. */
  predicate Aligned(v: Volume) {
    Usable(v) && v.blockSize % v.sectorSize == 0
  }

  function PerBlock(v: Volume): (k: nat)
    requires Usable(v)
  {
    v.blockSize / v.sectorSize
  }

  function FirstSector(v: Volume, block: int): int
    requires Usable(v)
  {
    (v.offset * v.sectorSize + block * v.blockSize) / v.sectorSize
  }

  function BlockToSectors(v: Volume, block: int): seq<int>
    requires Usable(v)
  {
    seq(PerBlock(v), i => FirstSector(v, block) + i)
  }

  function SectorToBlock(v: Volume, sector: int): int
    requires Usable(v)
  {
    ((sector - v.offset) * v.sectorSize) / v.blockSize
  }

  // ---- division facts ----

  lemma MulNonNeg(a: int, d: int)
    requires a >= 0 && d >= 0
    ensures a * d >= 0
  {
  }

  lemma MulAtLeast(a: int, d: int)
    requires d > 0
    ensures a >= 1 ==> a * d >= d
    ensures a <= -1 ==> a * d <= -d
  {
    if a >= 1 {
      MulNonNeg(a - 1, d);
      assert a * d == (a - 1) * d + d;
    } else if a <= -1 {
      MulNonNeg(-a - 1, d);
      assert a * d == -((-a - 1) * d) - d;
    }
  }

  lemma Distribute(a: int, b: int, d: int)
    ensures (a - b) * d == a * d - b * d
    ensures (a + b) * d == a * d + b * d
  {
  }

  lemma DivUnique(n: int, d: int, q: int, r: int)
    requires d > 0 && n == q * d + r && 0 <= r < d
    ensures n / d == q && n % d == r
  {
    var q', r' := n / d, n % d;
    assert n == q' * d + r';
    Distribute(q, q', d);
    MulAtLeast(q - q', d);
  }

  lemma DivMul(a: int, d: int)
    requires d > 0
    ensures (a * d) / d == a && (a * d) % d == 0
  {
    DivUnique(a * d, d, a, 0);
  }

  /** Scaling dividend and divisor alike keeps the quotient and scales the remainder. */
  lemma DivScale(x: int, k: int, m: int)
    requires k > 0 && m > 0
    ensures k * m > 0
    ensures (x * m) / (k * m) == x / k
    ensures (x * m) % (k * m) == (x % k) * m
  {
    var q, r := x / k, x % k;
    assert x == q * k + r;
    Distribute(q * k, -r, m);
    assert (q * k) * m == q * (k * m);
    MulNonNeg(r, m);
    MulNonNeg(k - 1 - r, m);
    Distribute(k - 1, r, m);
    Distribute(k, 1, m);
    DivUnique(x * m, k * m, q, r * m);
  }

  lemma DivBetween(x: int, k: int, b: int)
    requires k > 0
    ensures x / k == b <==> b * k <= x < b * k + k
  {
    if b * k <= x < b * k + k {
      DivUnique(x, k, b, x - b * k);
    }
  }

  // ---- the two maps ----

  lemma Exact(v: Volume)
    requires Aligned(v)
    ensures PerBlock(v) > 0 && v.blockSize == PerBlock(v) * v.sectorSize
  {
  }

  lemma FirstSectorExact(v: Volume, block: int)
    requires Aligned(v)
    ensures FirstSector(v, block) == v.offset + block * PerBlock(v)
  {
    Exact(v);
    var k, m := PerBlock(v), v.sectorSize;
    assert block * v.blockSize == block * (k * m) == (block * k) * m;
    assert v.offset * m + (block * k) * m == (v.offset + block * k) * m;
    DivMul(v.offset + block * k, m);
  }

  lemma SectorToBlockExact(v: Volume, sector: int)
    requires Aligned(v)
    ensures PerBlock(v) > 0 && SectorToBlock(v, sector) == (sector - v.offset) / PerBlock(v)
  {
    Exact(v);
    DivScale(sector - v.offset, PerBlock(v), v.sectorSize);
  }

  /** Blocks follow each other without sharing a sector, even if sectors straddle them. */
  lemma NextBlock(v: Volume, block: int)
    requires Usable(v)
    ensures FirstSector(v, block) + PerBlock(v) <= FirstSector(v, block + 1)
  {
    var m, k := v.sectorSize, PerBlock(v);
    var x, y := v.offset * m + block * v.blockSize, v.offset * m + (block + 1) * v.blockSize;
    Distribute(block, 1, v.blockSize);
    assert y == x + v.blockSize;
    assert x == FirstSector(v, block) * m + x % m && y == FirstSector(v, block + 1) * m + y % m;
    assert v.blockSize == k * m + v.blockSize % m;
    var d := FirstSector(v, block + 1) - FirstSector(v, block) - k;
    Distribute(FirstSector(v, block + 1) - FirstSector(v, block), k, m);
    Distribute(FirstSector(v, block + 1), FirstSector(v, block), m);
    MulAtLeast(d, m);
  }

  lemma {:induction false} BlocksApart(v: Volume, a: int, b: int)
    requires Usable(v) && a < b
    ensures FirstSector(v, a) + PerBlock(v) <= FirstSector(v, b)
    decreases b - a
  {
    NextBlock(v, b - 1);
    if a < b - 1 {
      BlocksApart(v, a, b - 1);
    }
  }

  lemma SectorsOf(v: Volume, block: int, sector: int)
    requires Usable(v)
    ensures sector in BlockToSectors(v, block) <==>
            FirstSector(v, block) <= sector < FirstSector(v, block) + PerBlock(v)
  {
    var first := FirstSector(v, block);
    if first <= sector < first + PerBlock(v) {
      assert BlockToSectors(v, block)[sector - first] == sector;
    }
  }

  /** No sector belongs to two blocks. */
  lemma OneBlock(v: Volume, a: int, b: int, sector: int)
    requires Usable(v) && sector in BlockToSectors(v, a) && sector in BlockToSectors(v, b)
    ensures a == b
  {
    SectorsOf(v, a, sector);
    SectorsOf(v, b, sector);
    if a < b {
      BlocksApart(v, a, b);
    } else if b < a {
      BlocksApart(v, b, a);
    }
  }

  /** A sector is one of block b's sectors exactly when it maps back to b. */
  lemma BlockMapsInvert(v: Volume, block: int, sector: int)
    requires Aligned(v)
    ensures sector in BlockToSectors(v, block) <==> SectorToBlock(v, sector) == block
  {
    FirstSectorExact(v, block);
    SectorToBlockExact(v, sector);
    var k, first := PerBlock(v), FirstSector(v, block);
    DivBetween(sector - v.offset, k, block);
    if first <= sector < first + k {
      assert BlockToSectors(v, block)[sector - first] == sector;
    }
  }

  /** The maps agree on every block exactly for aligned geometries. */
  lemma BlockMapsInvertIff(v: Volume)
    requires Usable(v)
    ensures (forall block: nat, sector :: sector in BlockToSectors(v, block) ==> SectorToBlock(v, sector) == block)
            <==> Aligned(v)
  {
    if Aligned(v) {
      forall block: nat, sector | sector in BlockToSectors(v, block)
        ensures SectorToBlock(v, sector) == block
      {
        BlockMapsInvert(v, block, sector);
      }
    } else {
      // the first sector of block 1 starts before block 0 ends
      var q, r := v.blockSize / v.sectorSize, v.blockSize % v.sectorSize;
      assert v.blockSize == q * v.sectorSize + r && q >= 1;
      assert v.offset * v.sectorSize + 1 * v.blockSize == (v.offset + q) * v.sectorSize + r;
      DivUnique(v.offset * v.sectorSize + 1 * v.blockSize, v.sectorSize, v.offset + q, r);
      var sector := FirstSector(v, 1);
      assert BlockToSectors(v, 1)[0] == sector;
      DivUnique(q * v.sectorSize, v.blockSize, 0, q * v.sectorSize);
      assert SectorToBlock(v, sector) == 0;
    }
  }
}
