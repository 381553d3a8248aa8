/** The master file table over its data runs: record number to sectors, and sectors back to record
    numbers, as two independently written loops. */
module MftMap {
  import opened Prelude
  import opened Geometry

  const ENTRY := 1024

  /** A data run: length and address in blocks. */
  datatype Run = Run(len: nat, addr: nat)

  // ---- record to sectors ----

  /** First sector of the byte `left` bytes into runs[j..], if the runs reach that far. */
  function Locate(v: Volume, runs: seq<Run>, j: nat, left: int): Option<int>
    requires Usable(v) && j <= |runs|
    decreases |runs| - j
  {
    if j == |runs| then None
    else if left < runs[j].len * v.blockSize
    then Some(FirstSector(v, runs[j].addr + left / v.blockSize) + left % v.blockSize / v.sectorSize)
    else Locate(v, runs, j + 1, left - runs[j].len * v.blockSize)
  }

  function RecordSectors(v: Volume, runs: seq<Run>, record: nat): seq<int>
    requires Usable(v)
  {
    match Locate(v, runs, 0, record * ENTRY)
    case None => []
    case Some(first) => seq(ENTRY / v.sectorSize, i => first + i)
  }

  /** `_mft_record_to_sectors`. */
  method RecordToSectors(v: Volume, runs: seq<Run>, record: nat) returns (sectors: seq<int>)
    requires Usable(v)
    ensures sectors == RecordSectors(v, runs, record)
  {
    var left := record * ENTRY;
    for j := 0 to |runs|
      invariant Locate(v, runs, 0, record * ENTRY) == Locate(v, runs, j, left)
    {
      if left < runs[j].len * v.blockSize {
        var block := runs[j].addr + left / v.blockSize;
        var first := FirstSector(v, block) + left % v.blockSize / v.sectorSize;
        return seq(ENTRY / v.sectorSize, i => first + i);
      }
      left := left - runs[j].len * v.blockSize;
    }
    sectors := [];
  }

  // ---- sectors to records ----

  function RunStart(v: Volume, run: Run): int
    requires Usable(v)
  {
    FirstSector(v, run.addr)
  }

  function RunEnd(v: Volume, run: Run): int
    requires Usable(v)
  {
    RunStart(v, run) + run.len * v.blockSize / v.sectorSize
  }

  /** Number of records before run i. */
  function Base(v: Volume, runs: seq<Run>, i: nat): int
    requires Usable(v) && i <= |runs|
  {
    if i == 0 then 0
    else Base(v, runs, i - 1) + (RunEnd(v, runs[i - 1]) - RunStart(v, runs[i - 1])) * v.sectorSize / ENTRY
  }

  function RecordAt(v: Volume, runs: seq<Run>, i: nat, sector: int): int
    requires Usable(v) && i < |runs|
  {
    Base(v, runs, i) + (sector - RunStart(v, runs[i])) * v.sectorSize / ENTRY
  }

  /** The end bound is inclusive: one sector past the run counts. */
  predicate InRun(v: Volume, run: Run, sector: int)
    requires Usable(v)
  {
    RunStart(v, run) <= sector <= RunEnd(v, run)
  }

  ghost predicate Hit(v: Volume, runs: seq<Run>, i: nat, sectors: seq<int>, n: int)
    requires Usable(v) && i < |runs|
  {
    exists s :: s in sectors && InRun(v, runs[i], s) && RecordAt(v, runs, i, s) == n
  }

  /** One run of `_get_records_from_sectors`. */
  method RecordsInRun(v: Volume, runs: seq<Run>, i: nat, sectors: seq<int>, found: seq<int>)
    returns (inodes: seq<int>)
    requires Usable(v) && i < |runs| && Distinct(found)
    ensures Distinct(inodes)
    ensures forall n :: n in inodes <==> n in found || Hit(v, runs, i, sectors, n)
  {
    inodes := found;
    for k := 0 to |sectors|
      invariant Distinct(inodes)
      invariant forall n :: n in inodes <==> n in found || Hit(v, runs, i, sectors[..k], n)
    {
      var s := sectors[k];
      ghost var before := inodes;
      assert sectors[..k + 1] == sectors[..k] + [s];
      if InRun(v, runs[i], s) {
        var record := RecordAt(v, runs, i, s);
        if record !in inodes {
          inodes := inodes + [record];
        }
      }
      forall n ensures Hit(v, runs, i, sectors[..k + 1], n) <==>
          Hit(v, runs, i, sectors[..k], n) || (InRun(v, runs[i], s) && RecordAt(v, runs, i, s) == n)
      {
        assert s in sectors[..k + 1];
      }
    }
    assert sectors[..|sectors|] == sectors;
  }

  /** `_get_records_from_sectors`: every record a sector falls on in some run, each once. */
  method RecordsFromSectors(v: Volume, runs: seq<Run>, sectors: seq<int>) returns (inodes: seq<int>)
    requires Usable(v)
    ensures Distinct(inodes)
    ensures forall n :: n in inodes <==> exists i :: 0 <= i < |runs| && Hit(v, runs, i, sectors, n)
  {
    inodes := [];
    for i := 0 to |runs|
      invariant Distinct(inodes)
      invariant forall n :: n in inodes <==> exists j :: 0 <= j < i && Hit(v, runs, j, sectors, n)
    {
      inodes := RecordsInRun(v, runs, i, sectors, inodes);
    }
  }

  // ---- a well-formed table ----

  /** Sector size divides block and entry; runs are non-empty and whole entries. */
  ghost predicate WholeRuns(v: Volume, runs: seq<Run>) {
    && Aligned(v) && ENTRY % v.sectorSize == 0 && v.sectorSize <= ENTRY
    && (forall i :: 0 <= i < |runs| ==> runs[i].len > 0 && (runs[i].len * v.blockSize) % ENTRY == 0)
  }

  /** Moreover they are sorted by address and disjoint. */
  ghost predicate Sound(v: Volume, runs: seq<Run>) {
    && WholeRuns(v, runs)
    && (forall i :: 0 < i < |runs| ==> runs[i - 1].addr + runs[i - 1].len <= runs[i].addr)
  }

  function PerEntry(v: Volume): nat
    requires Usable(v)
  {
    ENTRY / v.sectorSize
  }

  function Records(v: Volume, run: Run): nat {
    run.len * v.blockSize / ENTRY
  }

  lemma EntryExact(v: Volume)
    requires Usable(v) && ENTRY % v.sectorSize == 0 && v.sectorSize <= ENTRY
    ensures PerEntry(v) > 0 && ENTRY == PerEntry(v) * v.sectorSize
  {
  }

  /** A run in sectors: where it starts, and that it is a whole number of records long. */
  lemma RunShape(v: Volume, runs: seq<Run>, i: nat)
    requires WholeRuns(v, runs) && i < |runs|
    ensures RunStart(v, runs[i]) == v.offset + runs[i].addr * PerBlock(v)
    ensures RunEnd(v, runs[i]) == RunStart(v, runs[i]) + runs[i].len * PerBlock(v)
    ensures runs[i].len * PerBlock(v) == Records(v, runs[i]) * PerEntry(v)
    ensures runs[i].len * v.blockSize == Records(v, runs[i]) * ENTRY
    ensures Records(v, runs[i]) > 0
    ensures Base(v, runs, i + 1) == Base(v, runs, i) + Records(v, runs[i])
  {
    var len, k, m, c := runs[i].len, PerBlock(v), v.sectorSize, PerEntry(v);
    FirstSectorExact(v, runs[i].addr);
    Exact(v);
    EntryExact(v);
    var bytes := len * v.blockSize;
    assert bytes == len * (k * m) == (len * k) * m;
    DivMul(len * k, m);
    var r := Records(v, runs[i]);
    assert bytes == r * ENTRY == r * (c * m) == (r * c) * m;
    DivMul(r * c, m);
    MulAtLeast(len, v.blockSize);
  }

  /** Runs come one after the other on the disk. */
  lemma {:induction false} RunsApart(v: Volume, runs: seq<Run>, i: nat, j: nat)
    requires Sound(v, runs) && i < j < |runs|
    ensures RunEnd(v, runs[i]) <= RunStart(v, runs[j])
    ensures RunEnd(v, runs[i]) == RunStart(v, runs[j]) ==> j == i + 1
    decreases j - i
  {
    RunShape(v, runs, i);
    RunShape(v, runs, j);
    RunShape(v, runs, j - 1);
    var k := PerBlock(v);
    var gap := runs[j].addr - (runs[j - 1].addr + runs[j - 1].len);
    MulNonNeg(gap, k);
    Distribute(runs[j].addr, runs[j - 1].addr + runs[j - 1].len, k);
    Distribute(runs[j - 1].addr, runs[j - 1].len, k);
    if j > i + 1 {
      RunsApart(v, runs, i, j - 1);
      MulAtLeast(Records(v, runs[j - 1]), PerEntry(v)) by { EntryExact(v); }
    }
  }

  lemma {:induction false} BaseGrows(v: Volume, runs: seq<Run>, i: nat, j: nat)
    requires WholeRuns(v, runs) && i <= j <= |runs|
    ensures 0 <= Base(v, runs, i) <= Base(v, runs, j)
    ensures i < j ==> Base(v, runs, i) + Records(v, runs[i]) <= Base(v, runs, j)
    decreases j
  {
    if j > i {
      RunShape(v, runs, j - 1);
      BaseGrows(v, runs, i, j - 1);
      RunShape(v, runs, i);
    } else if j > 0 {
      RunShape(v, runs, j - 1);
      BaseGrows(v, runs, j - 1, j - 1);
    }
  }

  // ---- both maps in terms of run and offset ----

  /** The sector of the byte x sectors past the start of block addr. */
  lemma SectorOfByte(v: Volume, addr: nat, x: nat)
    requires Aligned(v)
    ensures var left := x * v.sectorSize;
            FirstSector(v, addr + left / v.blockSize) + left % v.blockSize / v.sectorSize
            == v.offset + addr * PerBlock(v) + x
  {
    Exact(v);
    var k, m := PerBlock(v), v.sectorSize;
    DivScale(x, k, m);
    DivMul(x % k, m);
    FirstSectorExact(v, addr + x / k);
    Distribute(addr, x / k, k);
    assert (x / k) * k + x % k == x;
  }

  lemma EntriesInSectors(v: Volume, q: nat)
    requires Usable(v) && ENTRY % v.sectorSize == 0 && v.sectorSize <= ENTRY
    ensures q * ENTRY == (q * PerEntry(v)) * v.sectorSize
  {
    EntryExact(v);
    var c, m := PerEntry(v), v.sectorSize;
    assert q * (c * m) == (q * c) * m;
  }

  /** Record q of a run starts q entries after the run. */
  lemma FirstOfRecord(v: Volume, runs: seq<Run>, i: nat, q: nat)
    requires WholeRuns(v, runs) && i < |runs| && q < Records(v, runs[i])
    ensures var left := q * ENTRY;
            && left < runs[i].len * v.blockSize
            && FirstSector(v, runs[i].addr + left / v.blockSize) + left % v.blockSize / v.sectorSize
               == RunStart(v, runs[i]) + q * PerEntry(v)
  {
    RunShape(v, runs, i);
    EntriesInSectors(v, q);
    SectorOfByte(v, runs[i].addr, q * PerEntry(v));
  }

  lemma {:induction false} LocateFrom(v: Volume, runs: seq<Run>, j: nat, i: nat, q: nat)
    requires WholeRuns(v, runs) && j <= i < |runs| && q < Records(v, runs[i])
    ensures Locate(v, runs, j, (Base(v, runs, i) - Base(v, runs, j) + q) * ENTRY)
            == Some(RunStart(v, runs[i]) + q * PerEntry(v))
    decreases i - j
  {
    if j == i {
      FirstOfRecord(v, runs, i, q);
    } else {
      RunShape(v, runs, j);
      BaseGrows(v, runs, j, i);
      LocateFrom(v, runs, j + 1, i, q);
    }
  }

  lemma {:induction false} LocateBeyond(v: Volume, runs: seq<Run>, j: nat, record: int)
    requires WholeRuns(v, runs) && j <= |runs| && record >= Base(v, runs, |runs|) - Base(v, runs, j)
    ensures Locate(v, runs, j, record * ENTRY).None?
    decreases |runs| - j
  {
    if j < |runs| {
      RunShape(v, runs, j);
      BaseGrows(v, runs, j + 1, |runs|);
      LocateBeyond(v, runs, j + 1, record - Records(v, runs[j]));
    }
  }

  lemma {:induction false} FindRun(v: Volume, runs: seq<Run>, record: nat, n: nat) returns (i: nat)
    requires WholeRuns(v, runs) && n <= |runs| && record < Base(v, runs, n)
    ensures i < n && Base(v, runs, i) <= record < Base(v, runs, i) + Records(v, runs[i])
  {
    RunShape(v, runs, n - 1);
    if record >= Base(v, runs, n - 1) {
      i := n - 1;
    } else {
      i := FindRun(v, runs, record, n - 1);
    }
  }

  /** Sector s belongs to a record exactly when it lies in that record's place in its run. */
  lemma SectorOfRecord(v: Volume, runs: seq<Run>, i: nat, q: nat, s: int)
    requires WholeRuns(v, runs) && i < |runs| && q < Records(v, runs[i])
    ensures Base(v, runs, i) + q >= 0
    ensures s in RecordSectors(v, runs, Base(v, runs, i) + q) <==>
            0 <= s - (RunStart(v, runs[i]) + q * PerEntry(v)) < PerEntry(v)
  {
    BaseGrows(v, runs, i, i);
    LocateFrom(v, runs, 0, i, q);
    var first := RunStart(v, runs[i]) + q * PerEntry(v);
    var all := RecordSectors(v, runs, Base(v, runs, i) + q);
    assert |all| == PerEntry(v);
    if 0 <= s - first < PerEntry(v) {
      assert all[s - first] == s;
    }
  }

  /** The backward map inside run i, in sectors per entry. */
  lemma RecordAtExact(v: Volume, runs: seq<Run>, i: nat, s: int)
    requires WholeRuns(v, runs) && i < |runs|
    ensures PerEntry(v) > 0
    ensures RecordAt(v, runs, i, s) == Base(v, runs, i) + (s - RunStart(v, runs[i])) / PerEntry(v)
  {
    EntryExact(v);
    DivScale(s - RunStart(v, runs[i]), PerEntry(v), v.sectorSize);
  }

  /** Strictly inside a run, the backward map names the record the sector belongs to, and no other. */
  lemma InsideRun(v: Volume, runs: seq<Run>, i: nat, s: int)
    requires WholeRuns(v, runs) && i < |runs| && RunStart(v, runs[i]) <= s < RunEnd(v, runs[i])
    ensures var n := RecordAt(v, runs, i, s);
            && Base(v, runs, i) <= n < Base(v, runs, i) + Records(v, runs[i]) && 0 <= n
            && s in RecordSectors(v, runs, n)
  {
    RunShape(v, runs, i);
    RecordAtExact(v, runs, i, s);
    BaseGrows(v, runs, i, i);
    var c := PerEntry(v);
    var off := s - RunStart(v, runs[i]);
    var q := off / c;
    DivBetween(off, c, q);
    if q >= Records(v, runs[i]) {
      MulNonNeg(q - Records(v, runs[i]), c);
      Distribute(q, Records(v, runs[i]), c);
    }
    if q < 0 {
      MulAtLeast(q, c);
    }
    SectorOfRecord(v, runs, i, q, s);
  }

  /** One sector past a run, the backward map names the first record after it. */
  lemma PastRun(v: Volume, runs: seq<Run>, i: nat)
    requires WholeRuns(v, runs) && i < |runs|
    ensures RecordAt(v, runs, i, RunEnd(v, runs[i])) == Base(v, runs, i + 1)
  {
    RunShape(v, runs, i);
    var s, c := RunEnd(v, runs[i]), PerEntry(v);
    RecordAtExact(v, runs, i, s);
    assert s - RunStart(v, runs[i]) == Records(v, runs[i]) * c;
    DivMul(Records(v, runs[i]), c);
  }

  /** The sectors of a record lie strictly inside one run, where the backward map gives it back. */
  lemma RecordInside(v: Volume, runs: seq<Run>, record: nat, s: int) returns (i: nat)
    requires Sound(v, runs) && s in RecordSectors(v, runs, record)
    ensures i < |runs| && RunStart(v, runs[i]) <= s < RunEnd(v, runs[i])
    ensures RecordAt(v, runs, i, s) == record
  {
    if record >= Base(v, runs, |runs|) {
      LocateBeyond(v, runs, 0, record);
    }
    i := FindRun(v, runs, record, |runs|);
    var q := record - Base(v, runs, i);
    SectorOfRecord(v, runs, i, q, s);
    RunShape(v, runs, i);
    RecordAtExact(v, runs, i, s);
    var c, off := PerEntry(v), s - RunStart(v, runs[i]);
    DivBetween(off, c, q);
    MulNonNeg(q, c);
    MulNonNeg(Records(v, runs[i]) - 1 - q, c);
    Distribute(Records(v, runs[i]) - 1, q, c);
    Distribute(Records(v, runs[i]), 1, c);
  }

  // ---- the two maps invert each other ----

  /** Record n has a sector in the list. */
  ghost predicate Touched(v: Volume, runs: seq<Run>, sectors: seq<int>, n: int)
    requires Usable(v)
  {
    n >= 0 && exists s :: s in sectors && s in RecordSectors(v, runs, n)
  }

  /** The sector past run i is in the list and n is the first record after the run. */
  predicate JustPast(v: Volume, runs: seq<Run>, i: nat, sectors: seq<int>, n: int)
    requires Usable(v) && i < |runs|
  {
    RunEnd(v, runs[i]) in sectors && Base(v, runs, i + 1) == n
  }

  lemma HitMeans(v: Volume, runs: seq<Run>, i: nat, sectors: seq<int>, n: int)
    requires Sound(v, runs) && i < |runs| && Hit(v, runs, i, sectors, n)
    ensures Touched(v, runs, sectors, n) || JustPast(v, runs, i, sectors, n)
  {
    var s :| s in sectors && InRun(v, runs[i], s) && RecordAt(v, runs, i, s) == n;
    if s < RunEnd(v, runs[i]) {
      InsideRun(v, runs, i, s);
    } else {
      PastRun(v, runs, i);
    }
  }

  lemma TouchedHits(v: Volume, runs: seq<Run>, sectors: seq<int>, n: int) returns (i: nat)
    requires Sound(v, runs) && Touched(v, runs, sectors, n)
    ensures i < |runs| && Hit(v, runs, i, sectors, n)
  {
    var s :| s in sectors && s in RecordSectors(v, runs, n);
    i := RecordInside(v, runs, n, s);
    assert InRun(v, runs[i], s);
  }

  lemma JustPastHits(v: Volume, runs: seq<Run>, i: nat, sectors: seq<int>, n: int)
    requires Sound(v, runs) && i < |runs| && JustPast(v, runs, i, sectors, n)
    ensures Hit(v, runs, i, sectors, n)
  {
    PastRun(v, runs, i);
    RunShape(v, runs, i);
    assert InRun(v, runs[i], RunEnd(v, runs[i]));
  }

  /** The records reported for any list of sectors are exactly those with a sector in the list, plus,
      because the end bound is inclusive, the first record after a run whose next sector is listed. */
  lemma ReportedIff(v: Volume, runs: seq<Run>, sectors: seq<int>, n: int)
    requires Sound(v, runs)
    ensures (exists i :: 0 <= i < |runs| && Hit(v, runs, i, sectors, n)) <==>
            || Touched(v, runs, sectors, n)
            || (exists i :: 0 <= i < |runs| && JustPast(v, runs, i, sectors, n))
  {
    forall i | 0 <= i < |runs| && Hit(v, runs, i, sectors, n)
      ensures Touched(v, runs, sectors, n) || JustPast(v, runs, i, sectors, n)
    {
      HitMeans(v, runs, i, sectors, n);
    }
    if Touched(v, runs, sectors, n) {
      var i := TouchedHits(v, runs, sectors, n);
    }
    forall i | 0 <= i < |runs| && JustPast(v, runs, i, sectors, n)
      ensures Hit(v, runs, i, sectors, n)
    {
      JustPastHits(v, runs, i, sectors, n);
    }
  }

  lemma SameSector(v: Volume, runs: seq<Run>, a: nat, b: nat, s: int)
    requires Sound(v, runs) && s in RecordSectors(v, runs, a) && s in RecordSectors(v, runs, b)
    ensures a == b
  {
    var i := RecordInside(v, runs, a, s);
    var j := RecordInside(v, runs, b, s);
    if i < j {
      RunsApart(v, runs, i, j);
    } else if j < i {
      RunsApart(v, runs, j, i);
    }
  }

  lemma RunNotEmpty(v: Volume, runs: seq<Run>, i: nat)
    requires Sound(v, runs) && i < |runs|
    ensures RunStart(v, runs[i]) < RunEnd(v, runs[i])
  {
    RunShape(v, runs, i);
    EntryExact(v);
    MulAtLeast(Records(v, runs[i]), PerEntry(v));
  }

  lemma StartOfRun(v: Volume, runs: seq<Run>, j: nat)
    requires Sound(v, runs) && j < |runs|
    ensures RecordAt(v, runs, j, RunStart(v, runs[j])) == Base(v, runs, j)
  {
    RecordAtExact(v, runs, j, RunStart(v, runs[j]));
  }

  /** The sector after a run is a record's sector only when the next run is adjacent, and then that
      record is the one the backward map names. */
  lemma EndInRecord(v: Volume, runs: seq<Run>, i: nat, record: nat)
    requires Sound(v, runs) && i < |runs| && RunEnd(v, runs[i]) in RecordSectors(v, runs, record)
    ensures Base(v, runs, i + 1) == record
  {
    var j := RecordInside(v, runs, record, RunEnd(v, runs[i]));
    RunNotEmpty(v, runs, i);
    if j < i {
      RunsApart(v, runs, j, i);
    } else if j > i {
      RunsApart(v, runs, i, j);
      StartOfRun(v, runs, j);
    }
  }

  /** Looking up the sectors of any record in the table gives that record and nothing else. */
  lemma RecordRoundTrip(v: Volume, runs: seq<Run>, record: nat, n: int)
    requires Sound(v, runs) && record < Base(v, runs, |runs|)
    ensures RecordSectors(v, runs, record) != []
    ensures (exists i :: 0 <= i < |runs| && Hit(v, runs, i, RecordSectors(v, runs, record), n)) <==> n == record
  {
    var j := FindRun(v, runs, record, |runs|);
    var q := record - Base(v, runs, j);
    var mine := RecordSectors(v, runs, record);
    EntryExact(v);
    SectorOfRecord(v, runs, j, q, RunStart(v, runs[j]) + q * PerEntry(v));
    ReportedIff(v, runs, mine, n);
    ReportedIff(v, runs, mine, record);
    assert mine[0] in mine && Touched(v, runs, mine, record);
    if Touched(v, runs, mine, n) {
      var s :| s in mine && s in RecordSectors(v, runs, n);
      SameSector(v, runs, record, n, s);
    }
    forall i | 0 <= i < |runs| && RunEnd(v, runs[i]) in mine
      ensures Base(v, runs, i + 1) == record
    {
      EndInRecord(v, runs, i, record);
    }
  }

  lemma OnlyElement(s: seq<int>, x: int)
    requires Distinct(s) && forall n :: n in s <==> n == x
    ensures s == [x]
  {
    assert x in s;
    var last := |s| - 1;
    assert s[0] in s && s[last] in s;
  }

  /** The two loops one after the other, on any record of the table. */
  method LookUpOwnSectors(v: Volume, runs: seq<Run>, record: nat) returns (inodes: seq<int>)
    requires Sound(v, runs) && record < Base(v, runs, |runs|)
    ensures inodes == [record]
  {
    var sectors := RecordToSectors(v, runs, record);
    inodes := RecordsFromSectors(v, runs, sectors);
    forall n ensures n in inodes <==> n == record {
      RecordRoundTrip(v, runs, record, n);
    }
    OnlyElement(inodes, record);
  }

  // ---- where the maps are not the table's own ----

  /** The record numbered past the end of the table does not exist, yet the sector after the last run
      reports it. */
  lemma SpuriousReport(v: Volume, runs: seq<Run>)
    requires Sound(v, runs) && runs != []
    ensures var past, n := RunEnd(v, runs[|runs| - 1]), Base(v, runs, |runs|);
            Hit(v, runs, |runs| - 1, [past], n) && n >= 0 && RecordSectors(v, runs, n) == []
  {
    var last := |runs| - 1;
    var past := RunEnd(v, runs[last]);
    PastRun(v, runs, last);
    RunShape(v, runs, last);
    BaseGrows(v, runs, 0, |runs|);
    LocateBeyond(v, runs, 0, Base(v, runs, |runs|));
    assert past in [past] && InRun(v, runs[last], past);
  }

  /** On data: the four sectors 63 to 66 hold records 0 and 1, and sector 67 is reported as record 2. */
  lemma SpuriousReportExample()
    ensures var v, runs := Volume(512, 2048, 63, 100), [Run(1, 0)];
            Hit(v, runs, 0, [67], 2) && RecordSectors(v, runs, 2) == []
  {
    var v, runs := Volume(512, 2048, 63, 100), [Run(1, 0)];
    assert RunEnd(v, runs[0]) == 67;
    assert Base(v, runs, 1) == Base(v, runs, 0) + 2;
    SpuriousReport(v, runs);
  }

  predicate Ascending(runs: seq<Run>) {
    forall i, j :: 0 <= i < j < |runs| ==> runs[i].addr < runs[j].addr
  }

  /** Sorted by address, no two at the same one. */
  lemma {:induction false} SoundAscends(v: Volume, runs: seq<Run>, i: nat, j: nat)
    requires Sound(v, runs) && i < j < |runs|
    ensures runs[i].addr < runs[j].addr
    decreases j
  {
    if i < j - 1 {
      SoundAscends(v, runs, i, j - 1);
    }
  }

  /** The first place at which the file's own run order differs from the sorted one. */
  lemma FirstDifference(file: seq<Run>, sorted: seq<Run>) returns (i: nat)
    requires |file| == |sorted| && file != sorted
    ensures i < |file| && file[..i] == sorted[..i] && file[i] != sorted[i]
  {
    i := 0;
    while file[i] == sorted[i]
      invariant i < |file| && file[..i] == sorted[..i] && file[i..] != sorted[i..]
      decreases |file| - i
    {
      assert file[..i + 1] == file[..i] + [file[i]] && sorted[..i + 1] == sorted[..i] + [sorted[i]];
      assert file[i..] == [file[i]] + file[i + 1..] && sorted[i..] == [sorted[i]] + sorted[i + 1..];
      i := i + 1;
    }
  }

  lemma SameRest(a: seq<Run>, b: seq<Run>, i: nat)
    requires multiset(a) == multiset(b) && i <= |a| == |b| && a[..i] == b[..i]
    ensures multiset(a[i..]) == multiset(b[i..])
  {
    assert a == a[..i] + a[i..] && b == b[..i] + b[i..];
    assert multiset(a) == multiset(a[..i]) + multiset(a[i..]);
    assert multiset(b) == multiset(b[..i]) + multiset(b[i..]);
    forall x ensures multiset(a[i..])[x] == multiset(b[i..])[x] {
      assert multiset(a)[x] == multiset(a[..i])[x] + multiset(a[i..])[x];
      assert multiset(b)[x] == multiset(b[..i])[x] + multiset(b[i..])[x];
    }
  }

  /** There the sorted order has the lower address, which the file's own order has later. */
  lemma Displaced(file: seq<Run>, sorted: seq<Run>, i: nat)
    requires multiset(file) == multiset(sorted) && Ascending(sorted)
    requires i < |file| == |sorted| && file[..i] == sorted[..i] && file[i] != sorted[i]
    ensures sorted[i].addr < file[i].addr && !Ascending(file)
  {
    SameRest(file, sorted, i);
    assert sorted[i] == sorted[i..][0] && file[i] == file[i..][0];
    assert sorted[i] in multiset(file[i..]) && file[i] in multiset(sorted[i..]);
    var j :| 0 <= j < |file| - i && file[i..][j] == sorted[i];
    var k :| 0 <= k < |sorted| - i && sorted[i..][k] == file[i];
    assert file[i + j] == sorted[i] && sorted[i + k] == file[i];
  }

  /** Bases agree as long as the runs before do. */
  lemma {:induction false} SameBase(v: Volume, a: seq<Run>, b: seq<Run>, i: nat)
    requires Usable(v) && i <= |a| && i <= |b| && a[..i] == b[..i]
    ensures Base(v, a, i) == Base(v, b, i)
  {
    if i > 0 {
      assert a[i - 1] == a[..i][i - 1] == b[..i][i - 1] == b[i - 1];
      assert a[..i - 1] == a[..i][..i - 1] == b[..i - 1];
      SameBase(v, a, b, i - 1);
    }
  }

  /** The first record of a run has the run's first sector. */
  lemma FirstRecordOfRun(v: Volume, runs: seq<Run>, i: nat)
    requires WholeRuns(v, runs) && i < |runs|
    ensures Base(v, runs, i) >= 0
    ensures |RecordSectors(v, runs, Base(v, runs, i))| > 0
    ensures RecordSectors(v, runs, Base(v, runs, i))[0] == v.offset + runs[i].addr * PerBlock(v)
  {
    RunShape(v, runs, i);
    EntryExact(v);
    BaseGrows(v, runs, i, i);
    LocateFrom(v, runs, 0, i, 0);
  }

  lemma OtherStart(v: Volume, a: int, b: int)
    requires Aligned(v) && a < b
    ensures a * PerBlock(v) != b * PerBlock(v)
  {
    Exact(v);
    MulAtLeast(b - a, PerBlock(v));
    Distribute(b, a, PerBlock(v));
  }

  /** `_mft_dataruns` sorts the runs by address, while records are numbered in the file's own run order.
      So the sectors computed for a record are its own, for every record, exactly when the file's runs
      are ascending already. */
  lemma SortedNumberingIff(v: Volume, file: seq<Run>, sorted: seq<Run>)
    requires WholeRuns(v, file) && Sound(v, sorted) && multiset(file) == multiset(sorted)
    ensures (forall r: nat :: RecordSectors(v, sorted, r) == RecordSectors(v, file, r)) <==> Ascending(file)
  {
    forall i, j | 0 <= i < j < |sorted| ensures sorted[i].addr < sorted[j].addr {
      SoundAscends(v, sorted, i, j);
    }
    assert |file| == |multiset(file)| == |sorted|;
    if file != sorted {
      var i := FirstDifference(file, sorted);
      Displaced(file, sorted, i);
      SameBase(v, file, sorted, i);
      FirstRecordOfRun(v, file, i);
      FirstRecordOfRun(v, sorted, i);
      OtherStart(v, sorted[i].addr, file[i].addr);
      var r: nat := Base(v, file, i);
      assert RecordSectors(v, sorted, r)[0] != RecordSectors(v, file, r)[0];
    }
  }

  /** On data: two runs given highest first; record 0 is looked for in the wrong one. */
  lemma WrongRunExample()
    ensures var v, file, sorted := Volume(512, 1024, 0, 100), [Run(1, 9), Run(1, 4)], [Run(1, 4), Run(1, 9)];
            RecordSectors(v, file, 0) == [18, 19] && RecordSectors(v, sorted, 0) == [8, 9]
  {
  }
}
