/** fs_sector_to_inode: the dictionary from sectors to inodes built from the files' data runs. */
module SectorIndex {
  import opened Geometry

  /** A data run of an inode, in blocks. `boot` marks the file named $Boot. */
  datatype Extent = Extent(inode: int, addr: int, len: int, boot: bool)

  predicate InBounds(v: Volume, addr: int, len: int) {
    0 <= len <= v.blockCount && 0 <= addr && addr + len <= v.blockCount
  }

  /** The sector is one of the sectors of the run's blocks. */
  ghost predicate Covers(v: Volume, addr: int, len: int, sector: int)
    requires Usable(v)
  {
    exists b :: addr <= b < addr + len && sector in BlockToSectors(v, b)
  }

  /** For aligned volumes: the sector maps back to one of the run's blocks. */
  lemma CoversAligned(v: Volume, addr: int, len: int, sector: int)
    requires Aligned(v)
    ensures Covers(v, addr, len, sector) <==> addr <= SectorToBlock(v, sector) < addr + len
  {
    forall b ensures sector in BlockToSectors(v, b) <==> SectorToBlock(v, sector) == b {
      BlockMapsInvert(v, b, sector);
    }
    assert sector in BlockToSectors(v, SectorToBlock(v, sector));
  }

  /** The runs _load_file_entry hands to _add_run: address 0 marks a sparse run, except for $Boot. */
  predicate Loads(v: Volume, e: Extent) {
    (e.addr != 0 || e.boot) && InBounds(v, e.addr, e.len)
  }

  predicate Apart(a: Extent, b: Extent) {
    a.addr + a.len <= b.addr || b.addr + b.len <= a.addr
  }

  /** Sector s is in a loaded run of the inode. */
  ghost predicate Holds(v: Volume, e: Extent, s: int)
    requires Usable(v)
  {
    Loads(v, e) && Covers(v, e.addr, e.len, s)
  }

  /** The dictionary holds exactly the sectors of the loaded runs, each under its inode. */
  ghost predicate Mirrors(v: Volume, index: map<int, int>, extents: seq<Extent>)
    requires Usable(v)
  {
    && (forall s :: s in index ==> exists e :: e in extents && Holds(v, e, s) && e.inode == index[s])
    && (forall s, e :: e in extents && Holds(v, e, s) ==> s in index && index[s] == e.inode)
  }

  datatype Failure = OutOfBounds(inode: int, addr: int, len: int) | Collision(inode: int, other: int, block: int)

  /** What `_add_run` does at a sector already in the dictionary. */
  datatype Choice = Overwrite | Keep | Raise

  /** Two named files collide unless one's name starts with '$' after the slash; a one-character
      name makes the index f_name[1] raise. */
  function Choose(paths: map<int, string>, inode: int, other: int): Choice {
    var f1 := if inode in paths then paths[inode] else "";
    var f2 := if other in paths then paths[other] else "";
    if inode == other || f1 == "" then Overwrite
    else if |f1| == 1 then Raise
    else if f1[1] == '$' || f2 == "" then Overwrite
    else if |f2| == 1 then Raise
    else if f2[1] == '$' then Overwrite
    else Keep
  }

  /** One more block brings exactly its own sectors, none of them covered before. */
  lemma CoversOneMore(v: Volume, addr: int, i: nat)
    requires Usable(v)
    ensures forall s :: Covers(v, addr, i + 1, s) <==> Covers(v, addr, i, s) || s in BlockToSectors(v, addr + i)
    ensures forall s :: s in BlockToSectors(v, addr + i) ==> !Covers(v, addr, i, s)
  {
    forall s ensures Covers(v, addr, i + 1, s) <==> Covers(v, addr, i, s) || s in BlockToSectors(v, addr + i) {
      if Covers(v, addr, i + 1, s) {
        var b :| addr <= b < addr + i + 1 && s in BlockToSectors(v, b);
        assert b < addr + i ==> Covers(v, addr, i, s);
      }
      if Covers(v, addr, i, s) {
        var b :| addr <= b < addr + i && s in BlockToSectors(v, b);
        assert Covers(v, addr, i + 1, s);
      }
      if s in BlockToSectors(v, addr + i) {
        assert Covers(v, addr, i + 1, s);
      }
    }
    forall s | s in BlockToSectors(v, addr + i) ensures !Covers(v, addr, i, s) {
      if Covers(v, addr, i, s) {
        var b :| addr <= b < addr + i && s in BlockToSectors(v, b);
        OneBlock(v, b, addr + i, s);
      }
    }
  }

  lemma ApartCovers(v: Volume, a: Extent, b: Extent, s: int)
    requires Usable(v) && Apart(a, b) && Covers(v, a.addr, a.len, s)
    ensures !Covers(v, b.addr, b.len, s)
  {
    if Covers(v, b.addr, b.len, s) {
      var x :| a.addr <= x < a.addr + a.len && s in BlockToSectors(v, x);
      var y :| b.addr <= y < b.addr + b.len && s in BlockToSectors(v, y);
      OneBlock(v, x, y, s);
    }
  }

  /** A run apart from all loaded ones meets no entry. */
  lemma NotYetMapped(v: Volume, index: map<int, int>, extents: seq<Extent>, e: Extent)
    requires Usable(v) && Mirrors(v, index, extents)
    requires forall x :: x in extents && Loads(v, x) && Loads(v, e) ==> Apart(x, e)
    ensures Loads(v, e) ==> forall s :: Covers(v, e.addr, e.len, s) ==> s !in index
  {
    if Loads(v, e) {
      forall s | Covers(v, e.addr, e.len, s) ensures s !in index {
        if s in index {
          var x :| x in extents && Holds(v, x, s) && x.inode == index[s];
          ApartCovers(v, x, e, s);
        }
      }
    }
  }

  lemma MirrorsOneMore(v: Volume, a: map<int, int>, b: map<int, int>, extents: seq<Extent>, e: Extent)
    requires Usable(v) && Mirrors(v, a, extents)
    requires Loads(v, e) ==> forall s :: Covers(v, e.addr, e.len, s) ==> s !in a
    requires forall s :: Holds(v, e, s) ==> s in b && b[s] == e.inode
    requires forall s :: !Holds(v, e, s) ==> (s in b <==> s in a) && (s in a ==> b[s] == a[s])
    ensures Mirrors(v, b, extents + [e])
  {
    var more := extents + [e];
    forall s | s in b ensures exists x :: x in more && Holds(v, x, s) && x.inode == b[s] {
      if Holds(v, e, s) {
        assert e in more;
      } else {
        var x :| x in extents && Holds(v, x, s) && x.inode == a[s];
        assert x in more;
      }
    }
    forall s, x | x in more && Holds(v, x, s) ensures s in b && b[s] == x.inode {
      if x != e {
        assert x in extents;
        assert !Holds(v, e, s);
      }
    }
  }

  /** The name lookup at the sector raises, or the sector keeps its old inode. */
  predicate Raises(paths: map<int, string>, before: map<int, int>, inode: int, s: int) {
    s in before && Choose(paths, inode, before[s]) == Raise
  }

  predicate Keeps(paths: map<int, string>, before: map<int, int>, inode: int, s: int) {
    s in before && Choose(paths, inode, before[s]) == Keep
  }

  /** The collision is one of a sector of the block that keeps its inode. */
  ghost predicate CollidesIn(paths: map<int, string>, before: map<int, int>, inode: int, block: int, mine: seq<int>,
                             c: Failure)
  {
    exists s :: s in mine && Keeps(paths, before, inode, s) && c == Collision(inode, before[s], block)
  }

  lemma CollidesMore(paths: map<int, string>, before: map<int, int>, inode: int, block: int, mine: seq<int>, s: int)
    ensures forall c :: CollidesIn(paths, before, inode, block, mine + [s], c) <==>
            || CollidesIn(paths, before, inode, block, mine, c)
            || (Keeps(paths, before, inode, s) && c == Collision(inode, before[s], block))
  {
    forall c ensures CollidesIn(paths, before, inode, block, mine + [s], c) <==>
        || CollidesIn(paths, before, inode, block, mine, c)
        || (Keeps(paths, before, inode, s) && c == Collision(inode, before[s], block))
    {
      assert s in mine + [s];
      if CollidesIn(paths, before, inode, block, mine, c) {
        var x :| x in mine && Keeps(paths, before, inode, x) && c == Collision(inode, before[x], block);
        assert x in mine + [s];
      }
    }
  }

  // The loop over a run's blocks is stated for any layout `at` of blocks in sectors.

  type Layout = int -> seq<int>

  /** No block lists a sector twice, and no two blocks list the same one. */
  ghost predicate Tiles(at: Layout) {
    && (forall b, j, k :: 0 <= j < k < |at(b)| ==> at(b)[j] != at(b)[k])
    && (forall b, c, s :: s in at(b) && s in at(c) ==> b == c)
  }

  ghost predicate Lies(at: Layout, addr: int, i: nat, s: int) {
    exists b :: addr <= b < addr + i && s in at(b)
  }

  /** The collision is one in the first i blocks of the run. */
  ghost predicate CollidesInRun(at: Layout, paths: map<int, string>, before: map<int, int>, inode: int, addr: int,
                                i: nat, c: Failure)
  {
    exists b :: addr <= b < addr + i && CollidesIn(paths, before, inode, b, at(b), c)
  }

  lemma LiesOneMore(at: Layout, addr: int, i: nat)
    requires Tiles(at)
    ensures forall s :: Lies(at, addr, i + 1, s) <==> Lies(at, addr, i, s) || s in at(addr + i)
    ensures forall s :: s in at(addr + i) ==> !Lies(at, addr, i, s)
  {
    forall s ensures Lies(at, addr, i + 1, s) <==> Lies(at, addr, i, s) || s in at(addr + i) {
      if Lies(at, addr, i + 1, s) {
        var b :| addr <= b < addr + (i + 1) && s in at(b);
        assert b < addr + i ==> Lies(at, addr, i, s);
      }
    }
  }

  lemma LiesGrows(at: Layout, addr: int, i: nat, j: nat)
    requires i <= j
    ensures forall s :: Lies(at, addr, i, s) ==> Lies(at, addr, j, s)
  {
  }

  lemma CollidesOneMore(at: Layout, paths: map<int, string>, before: map<int, int>, inode: int, addr: int, i: nat,
                        c: Failure)
    ensures CollidesInRun(at, paths, before, inode, addr, i + 1, c) <==>
            || CollidesInRun(at, paths, before, inode, addr, i, c)
            || CollidesIn(paths, before, inode, addr + i, at(addr + i), c)
  {
    if CollidesInRun(at, paths, before, inode, addr, i + 1, c) {
      var b :| addr <= b < addr + (i + 1) && CollidesIn(paths, before, inode, b, at(b), c);
      assert b < addr + i ==> CollidesInRun(at, paths, before, inode, addr, i, c);
    }
  }

  lemma LogOneMore(at: Layout, paths: map<int, string>, before: map<int, int>, inode: int, addr: int, i: nat,
                   extra: seq<Failure>, more: seq<Failure>)
    requires forall c :: c in extra <==> CollidesInRun(at, paths, before, inode, addr, i, c)
    requires forall c :: c in more <==> CollidesIn(paths, before, inode, addr + i, at(addr + i), c)
    ensures forall c :: c in extra + more <==> CollidesInRun(at, paths, before, inode, addr, i + 1, c)
  {
    forall c ensures c in extra + more <==> CollidesInRun(at, paths, before, inode, addr, i + 1, c) {
      CollidesOneMore(at, paths, before, inode, addr, i, c);
    }
  }

  /** The volume's own layout. */
  function LayoutOf(v: Volume): Layout
    requires Usable(v)
  {
    b => BlockToSectors(v, b)
  }

  lemma LayoutTiles(v: Volume)
    requires Usable(v)
    ensures Tiles(LayoutOf(v))
  {
    var at := LayoutOf(v);
    forall b, c, s | s in at(b) && s in at(c) ensures b == c {
      OneBlock(v, b, c, s);
    }
  }

  lemma LiesCovers(v: Volume, addr: int, i: nat)
    requires Usable(v)
    ensures forall s :: Lies(LayoutOf(v), addr, i, s) <==> Covers(v, addr, i, s)
  {
    var at := LayoutOf(v);
    forall s ensures Lies(at, addr, i, s) <==> Covers(v, addr, i, s) {
      if Lies(at, addr, i, s) {
        var b :| addr <= b < addr + i && s in at(b);
        assert s in BlockToSectors(v, b);
      }
      if Covers(v, addr, i, s) {
        var b :| addr <= b < addr + i && s in BlockToSectors(v, b);
        assert s in at(b);
      }
    }
  }

  class Index {
    const volume: Volume
    var sectors: map<int, int>
    var paths: map<int, string>
    var log: seq<Failure>

    ghost predicate Valid()
      reads this
    {
      Usable(volume)
    }

    constructor (v: Volume, paths: map<int, string>)
      requires Usable(v)
      ensures Valid() && volume == v && sectors == map[] && this.paths == paths && log == []
    {
      volume, sectors, this.paths, log := v, map[], paths, [];
    }

    /** The entry a sector gets: the inode's, unless a collision keeps the old one. */
    function Settled(before: map<int, int>, inode: int, s: int): int
      reads this`paths
    {
      if Keeps(paths, before, inode, s) then before[s] else inode
    }

    ghost predicate SameOutside(before: map<int, int>, mine: set<int>)
      reads this
    {
      forall s :: s !in mine ==> (s in sectors <==> s in before) && (s in before ==> sectors[s] == before[s])
    }

    /** Nothing changed outside the given sectors, and those are settled. */
    ghost predicate Written(before: map<int, int>, inode: int, mine: set<int>)
      reads this
    {
      && (forall s :: s in mine ==> s in sectors && sectors[s] == Settled(before, inode, s))
      && SameOutside(before, mine)
    }

    /** The body of `_add_run`'s inner loop. */
    method AddSector(s: int, inode: int, block: int, ghost before: map<int, int>, ghost done: set<int>)
      returns (ok: bool)
      requires Written(before, inode, done) && s !in done
      modifies this`sectors, this`log
      ensures ok ==> Written(before, inode, done + {s})
      ensures !ok ==> sectors == old(sectors) && log == old(log)
      ensures ok <==> !Raises(paths, before, inode, s)
      ensures ok ==>
          log == old(log) + (if Keeps(paths, before, inode, s) then [Collision(inode, before[s], block)] else [])
    {
      ok := true;
      assert log + [] == log;
      var choice := if s in sectors then Choose(paths, inode, sectors[s]) else Overwrite;
      match choice {
        case Raise => ok := false;
        case Keep => log := log + [Collision(inode, sectors[s], block)];
        case Overwrite => sectors := sectors[s := inode];
      }
    }

    /** The sectors of one block; `extra` is what is logged. */
    method AddSectors(mine: seq<int>, inode: int, block: int, ghost before: map<int, int>, ghost done: set<int>)
      returns (ok: bool, ghost extra: seq<Failure>)
      requires Written(before, inode, done) && forall s :: s in mine ==> s !in done
      requires forall j, k :: 0 <= j < k < |mine| ==> mine[j] != mine[k]
      modifies this`sectors, this`log
      ensures ok ==> Written(before, inode, done + set s | s in mine)
      ensures SameOutside(before, done + set s | s in mine)
      ensures ok <==> forall s :: s in mine ==> !Raises(paths, before, inode, s)
      ensures log == old(log) + extra
      ensures ok ==> forall c :: c in extra <==> CollidesIn(paths, before, inode, block, mine, c)
    {
      ok, extra := true, [];
      ghost var seen := done;
      for k := 0 to |mine|
        invariant ok && Written(before, inode, seen)
        invariant forall s :: s in seen <==> s in done || s in mine[..k]
        invariant forall s :: s in mine[..k] ==> !Raises(paths, before, inode, s)
        invariant log == old(log) + extra
        invariant forall c :: c in extra <==> CollidesIn(paths, before, inode, block, mine[..k], c)
      {
        assert mine[k] !in mine[..k] && mine[k] in mine;
        assert mine[..k + 1] == mine[..k] + [mine[k]];
        ok := AddSector(mine[k], inode, block, before, seen);
        if !ok {
          return;
        }
        seen := seen + {mine[k]};
        if Keeps(paths, before, inode, mine[k]) {
          extra := extra + [Collision(inode, before[mine[k]], block)];
          assert CollidesIn(paths, before, inode, block, mine[..k + 1], Collision(inode, before[mine[k]], block));
        }
        CollidesMore(paths, before, inode, block, mine[..k], mine[k]);
      }
      assert mine[..|mine|] == mine;
      assert forall s :: s in seen <==> s in done || s in mine;
      assert seen == done + (set s | s in mine);
    }

    /** Block i of a run, after the blocks before it. */
    method AddBlock(at: Layout, inode: int, addr: int, i: nat, ghost before: map<int, int>, ghost done: set<int>)
      returns (ok: bool, ghost more: set<int>, ghost extra: seq<Failure>)
      requires Tiles(at)
      requires Written(before, inode, done) && forall s :: s in done <==> Lies(at, addr, i, s)
      modifies this`sectors, this`log
      ensures (forall s :: s in more <==> Lies(at, addr, i + 1, s)) && SameOutside(before, more)
      ensures ok ==> Written(before, inode, more)
      ensures ok ==> forall s :: s in more && s !in done ==> !Raises(paths, before, inode, s)
      ensures !ok ==> exists s :: s in more && Raises(paths, before, inode, s)
      ensures log == old(log) + extra
      ensures ok ==> forall c :: c in extra <==> CollidesIn(paths, before, inode, addr + i, at(addr + i), c)
    {
      LiesOneMore(at, addr, i);
      var mine := at(addr + i);
      ok, extra := AddSectors(mine, inode, addr + i, before, done);
      more := done + set s | s in mine;
    }

    /** The blocks of a run; `done` are the sectors looked at and `extra` is what is logged. */
    method AddBlocks(at: Layout, inode: int, addr: int, len: nat)
      returns (ok: bool, ghost done: set<int>, ghost extra: seq<Failure>)
      requires Tiles(at)
      modifies this`sectors, this`log
      ensures forall s :: s in done ==> Lies(at, addr, len, s)
      ensures SameOutside(old(sectors), done)
      ensures ok ==> Written(old(sectors), inode, done) && forall s :: Lies(at, addr, len, s) ==> s in done
      ensures if ok then forall s :: s in done ==> !Raises(paths, old(sectors), inode, s)
              else exists s :: s in done && Raises(paths, old(sectors), inode, s)
      ensures log == old(log) + extra
      ensures ok ==> forall c :: c in extra <==> CollidesInRun(at, paths, old(sectors), inode, addr, len, c)
    {
      ok, done, extra := true, {}, [];
      for i := 0 to len
        invariant ok && Written(old(sectors), inode, done)
        invariant forall s :: s in done <==> Lies(at, addr, i, s)
        invariant forall s :: s in done ==> !Raises(paths, old(sectors), inode, s)
        invariant log == old(log) + extra
        invariant forall c :: c in extra <==> CollidesInRun(at, paths, old(sectors), inode, addr, i, c)
      {
        ghost var more;
        ok, done, more := AddBlock(at, inode, addr, i, old(sectors), done);
        if !ok {
          LiesGrows(at, addr, i + 1, len);
          extra := extra + more;
          return;
        }
        LogOneMore(at, paths, old(sectors), inode, addr, i, extra, more);
        extra := extra + more;
      }
    }

    /** `_add_run`: every sector of the run ends up under the inode unless a collision keeps the old
        entry; no other sector changes; exactly the collisions are logged; `ok` is false exactly if a name
        lookup raises, half way. */
    method AddRun(inode: int, addr: int, len: int) returns (ok: bool)
      requires Valid()
      modifies this`sectors, this`log
      ensures !InBounds(volume, addr, len) ==>
          ok && sectors == old(sectors) && log == old(log) + [OutOfBounds(inode, addr, len)]
      ensures forall s :: !Covers(volume, addr, len, s) ==>
          (s in sectors <==> s in old(sectors)) && (s in old(sectors) ==> sectors[s] == old(sectors)[s])
      ensures ok && InBounds(volume, addr, len) ==> forall s :: Covers(volume, addr, len, s) ==>
          s in sectors && sectors[s] == Settled(old(sectors), inode, s)
      ensures InBounds(volume, addr, len) ==>
          (ok <==> forall s :: Covers(volume, addr, len, s) ==> !Raises(paths, old(sectors), inode, s))
      ensures old(log) <= log
      ensures ok && InBounds(volume, addr, len) ==> forall c :: c in log[|old(log)|..] <==>
          CollidesInRun(LayoutOf(volume), paths, old(sectors), inode, addr, len, c)
    {
      if len < 0 || len > volume.blockCount || addr < 0 || addr + len > volume.blockCount {
        log := log + [OutOfBounds(inode, addr, len)];
        return true;
      }
      ghost var done, extra;
      LayoutTiles(volume);
      LiesCovers(volume, addr, len);
      ok, done, extra := AddBlocks(LayoutOf(volume), inode, addr, len);
      assert log[|old(log)|..] == extra;
    }

    /** `_remove_run`: exactly the run's sectors leave the dictionary. */
    method RemoveRun(inode: int, addr: int, len: int)
      requires Valid()
      modifies this`sectors, this`log
      ensures !InBounds(volume, addr, len) ==>
          sectors == old(sectors) && log == old(log) + [OutOfBounds(inode, addr, len)]
      ensures InBounds(volume, addr, len) ==> log == old(log)
      ensures InBounds(volume, addr, len) ==>
          forall s :: (s in sectors <==> s in old(sectors) && !Covers(volume, addr, len, s))
                      && (s in sectors ==> sectors[s] == old(sectors)[s])
    {
      if len < 0 || len > volume.blockCount || addr < 0 || addr + len > volume.blockCount {
        log := log + [OutOfBounds(inode, addr, len)];
        return;
      }
      ghost var done: set<int> := {};
      for i := 0 to len
        invariant sectors == old(sectors) - done
        invariant forall s :: s in done <==> Covers(volume, addr, i, s)
        invariant log == old(log)
      {
        var mine := BlockToSectors(volume, addr + i);
        CoversOneMore(volume, addr, i);
        for k := 0 to |mine|
          invariant sectors == old(sectors) - (done + set s | s in mine[..k])
          invariant log == old(log)
        {
          assert mine[..k + 1] == mine[..k] + [mine[k]];
          if mine[k] in sectors {
            sectors := sectors - {mine[k]};
          }
        }
        assert mine[..|mine|] == mine;
        done := done + set s | s in mine;
      }
    }

    /** `_load_file_entry` over the runs of any files, in any order: if the loaded runs are pairwise
        disjoint, the dictionary ends up with exactly their sectors, and no name is ever looked up. */
    method Load(extents: seq<Extent>) returns (ok: bool)
      requires Valid() && sectors == map[]
      requires forall j, k :: 0 <= j < k < |extents| && Loads(volume, extents[j]) && Loads(volume, extents[k]) ==>
                 Apart(extents[j], extents[k])
      modifies this`sectors, this`log
      ensures ok && Mirrors(volume, sectors, extents)
    {
      ok := true;
      for n := 0 to |extents|
        invariant ok && Mirrors(volume, sectors, extents[..n])
      {
        var e := extents[n];
        assert extents[..n + 1] == extents[..n] + [e];
        ghost var before := sectors;
        if e.addr != 0 || e.boot {
          NotYetMapped(volume, sectors, extents[..n], e);
          ok := AddRun(e.inode, e.addr, e.len);
        }
        MirrorsOneMore(volume, before, sectors, extents[..n], e);
      }
      assert extents[..|extents|] == extents;
    }
  }

  lemma SameDictionary(v: Volume, a: map<int, int>, b: map<int, int>, xs: seq<Extent>, ys: seq<Extent>)
    requires Usable(v) && Mirrors(v, a, xs) && Mirrors(v, b, ys) && multiset(xs) == multiset(ys)
    ensures forall s :: s in a ==> s in b && b[s] == a[s]
  {
    forall s | s in a ensures s in b && b[s] == a[s] {
      var x :| x in xs && Holds(v, x, s) && x.inode == a[s];
      assert x in multiset(xs);
      assert x in ys;
    }
  }

  /** The dictionary is determined by the set of runs: loading them in another order gives the same. */
  lemma OrderDoesNotMatter(v: Volume, a: map<int, int>, b: map<int, int>, xs: seq<Extent>, ys: seq<Extent>)
    requires Usable(v) && Mirrors(v, a, xs) && Mirrors(v, b, ys) && multiset(xs) == multiset(ys)
    ensures a == b
  {
    SameDictionary(v, a, b, xs, ys);
    SameDictionary(v, b, a, ys, xs);
    assert forall s :: s in a <==> s in b;
    assert forall s :: s in a ==> a[s] == b[s];
  }

  /** A sector already in the dictionary keeps its inode exactly if both inodes are different named files and
      neither is a metafile, that is has a '$' after its slash. */
  lemma KeepsIff(paths: map<int, string>, inode: int, other: int)
    ensures Choose(paths, inode, other) == Keep <==>
            && inode != other && inode in paths && other in paths
            && |paths[inode]| > 1 && |paths[other]| > 1 && paths[inode][1] != '$' && paths[other][1] != '$'
    ensures Choose(paths, inode, other) == Raise <==>
            && inode != other && inode in paths && paths[inode] != ""
            && (|paths[inode]| == 1 ||
                (paths[inode][1] != '$' && other in paths && |paths[other]| == 1))
  {
  }

  predicate InVolume(v: Volume, block: int) {
    0 <= block < v.blockCount
  }

  /** A non-empty run is in bounds exactly if all its blocks are blocks of the volume. */
  lemma InBoundsIff(v: Volume, addr: int, len: int)
    requires len > 0
    ensures InBounds(v, addr, len) <==> forall b :: addr <= b < addr + len ==> InVolume(v, b)
  {
    if forall b :: addr <= b < addr + len ==> InVolume(v, b) {
      assert InVolume(v, addr) && InVolume(v, addr + len - 1);
    }
  }

  /** A run at address 0 stands for a sparse one and is not loaded, except that of $Boot. */
  lemma SparseIsNotLoaded(v: Volume, e: Extent)
    ensures e.addr == 0 && !e.boot ==> !Loads(v, e)
    ensures e.addr > 0 || (e.addr == 0 && e.boot) ==> (Loads(v, e) <==> e.len >= 0 && e.addr + e.len <= v.blockCount)
  {
  }
}
