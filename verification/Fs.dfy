/** kernel/fs.c: block allocator, block map, file reads and writes, truncation, over the logical disk
    that bread and log_write present (LogSystem). */
module Fs {
  import opened Machine
  import opened FsLayout
  import opened FsOwnership
  import opened FsContents
  import opened FsSpace

  class Fs {
    const sb: Super
    var disk: Disk
    var inodes: Inodes
    ghost var owner: Owners
    ghost var loose: set<nat>
    ghost var logged: set<nat>    // blocks passed to log_write

    ghost predicate Owned()
      reads this
    {
      Own(sb, disk, inodes, owner, loose)
    }

    ghost function Now(): View
      reads this
    {
      View(disk, inodes, owner, logged)
    }

    /** The two scanning loops of balloc: the lowest block whose bit is clear. */
    method FirstFree() returns (ok: bool, b: nat)
      requires Geometry(sb, disk)
      ensures ok ==> b < sb.size && BitmapBlock(sb, b) < |disk| && !Used(sb, disk, b)
      ensures forall x: nat :: x < (if ok then b else sb.size) ==> BitmapBlock(sb, x) < |disk| && Used(sb, disk, x)
    {
      hide Bit, Used, BitmapBlock;
      var k := 0;
      while k * BPB < sb.size
        invariant forall x: nat :: x < k * BPB && x < sb.size ==> BitmapBlock(sb, x) < |disk| && Used(sb, disk, x)
        decreases sb.size - k * BPB
      {
        UsedBit(sb, disk, k, 0);
        var bp := disk[sb.bmapstart + k];
        var bi := 0;
        while bi < BPB && k * BPB + bi < sb.size
          invariant bi <= BPB
          invariant forall x: nat :: x < k * BPB + bi && x < sb.size ==>
                      BitmapBlock(sb, x) < |disk| && Used(sb, disk, x)
        {
          UsedBit(sb, disk, k, bi);
          if !Bit(bp[bi / 8], bi % 8) {
            return true, k * BPB + bi;
          }
          bi := bi + 1;
        }
        k := k + 1;
      }
      return false, 0;
    }

    /** balloc: mark and zero the first free block; failing stands for the panic. */
    method Balloc() returns (ok: bool, b: nat)
      requires Owned()
      modifies this`disk, this`loose, this`logged
      ensures Owned()
      ensures forall x: nat :: x < (if ok then b else sb.size) ==>
                BitmapBlock(sb, x) < |old(disk)| && Used(sb, old(disk), x)
      ensures if ok then
                && sb.nmeta <= b < sb.size <= |disk| <= 0x1_0000_0000 && 0 < b
                && BitmapBlock(sb, b) < |old(disk)| && !Used(sb, old(disk), b)
                && disk == Mark(sb, old(disk), b, true)[b := ZERO_BLOCK]
                && loose == old(loose) + {b} && logged == old(logged) + {BitmapBlock(sb, b), b}
              else disk == old(disk) && loose == old(loose) && logged == old(logged) && Full(sb, disk)
      ensures LowKept(sb, old(disk), disk) && AllLogged(old(logged), old(disk), logged, disk, {})
    {
      hide SlotsOwned, OwnersHaveSlots, BitmapExact, Bit, AllLogged;
      LoggedSame(logged, disk);
      ok, b := FirstFree();
      if ok {
        AllocKeeps(sb, disk, inodes, owner, loose, b);
        LoggedAlloc(sb, logged, disk, b);
        disk := Mark(sb, disk, b, true);
        disk := disk[b := ZERO_BLOCK];
        loose := loose + {b};
        logged := logged + {BitmapBlock(sb, b), b};
      }
    }

    /** bfree; `panics` is the "freeing free block" panic. */
    method Bfree(b: nat) returns (panics: bool)
      requires Geometry(sb, disk) && b < sb.size
      modifies this`disk, this`logged
      ensures BitmapBlock(sb, b) < |old(disk)| && panics == !Used(sb, old(disk), b)
      ensures disk == (if panics then old(disk) else Mark(sb, old(disk), b, false))
      ensures logged == if panics then old(logged) else old(logged) + {BitmapBlock(sb, b)}
      ensures AllLogged(old(logged), old(disk), logged, disk, {})
    {
      BitmapInMeta(sb, disk, b);
      var bp := disk[BitmapBlock(sb, b)];
      var bi := b % BPB;
      if !Bit(bp[bi / 8], bi % 8) {
        return true;
      }
      bp := bp[bi / 8 := PutBitByte(bp[bi / 8], bi % 8, false)];
      disk := disk[BitmapBlock(sb, b) := bp];
      logged := logged + {BitmapBlock(sb, b)};
      return false;
    }

    /** The block at position p of the inode, allocated if there is none. */
    method MapAddr(i: nat, p: nat) returns (ok: bool, addr: nat, ghost meta: set<nat>)
      requires Owned() && loose == {} && i in inodes && p <= NDIRECT
      modifies this`disk, this`inodes, this`owner, this`loose, this`logged
      ensures Owned() && loose == {} && Extended(sb, old(disk), old(inodes), disk, inodes, i)
      ensures ok ==> addr == Slot(disk, inodes[i], p) && 0 < addr < |disk|
      ensures ok ==> inodes[i].addrs == old(inodes)[i].addrs[p := addr]
      ensures Found(Slot(old(disk), old(inodes)[i], p), old(Now()), Now(), ok, meta)
      ensures Logs(old(logged), logged, meta, {addr})
      ensures |meta| <= (if Slot(old(disk), old(inodes)[i], p) != 0 then 0 else 1)
      ensures !ok ==> inodes == old(inodes) && disk == old(disk) && Full(sb, disk)
      ensures Got(old(owner), owner, {Owner(i, p)}, ok)
      ensures AllLogged(old(logged), old(disk), logged, disk, {})
    {
      hide Own, Extended, Full, Got, Mark, Used, BitmapBlock, AllLogged;
      LoggedSame(logged, disk);
      ExtendedSame(sb, disk, inodes, owner, loose, i);
      SlotInRange(sb, disk, inodes, owner, loose, i, p);
      meta := {};
      addr := inodes[i].addrs[p];
      GotNone(sb, disk, inodes, owner, i, p);
      if addr == 0 {
        ghost var d0 := disk;
        ok, addr := Balloc();
        if !ok { return; }
        meta := {BitmapBlock(sb, addr)};
        GainAddr(sb, d0, inodes, owner, i, p, addr);
        GotOne(sb, d0, inodes, owner, addr, Owner(i, p));
        inodes := inodes[i := inodes[i].(addrs := inodes[i].addrs[p := addr])];
        owner, loose := owner[addr := Owner(i, p)], {};
      }
      return true, addr, meta;
    }

    /** The block at entry j of the indirect block, allocated and logged if there is none. */
    method MapEntry(i: nat, j: nat) returns (ok: bool, addr: nat, ghost meta: set<nat>)
      requires Owned() && loose == {} && i in inodes && j < NINDIRECT
      requires |inodes[i].addrs| == NDIRECT + 1 && inodes[i].addrs[NDIRECT] != 0
      modifies this`disk, this`owner, this`loose, this`logged
      ensures Owned() && loose == {} && Extended(sb, old(disk), inodes, disk, inodes, i)
      ensures ok ==> addr == Slot(disk, inodes[i], NDIRECT + 1 + j) && 0 < addr < |disk|
      ensures Found(Slot(old(disk), inodes[i], NDIRECT + 1 + j), old(Now()), Now(), ok, meta)
      ensures Logs(old(logged), logged, meta, {addr, inodes[i].addrs[NDIRECT] as nat}) && |meta| <= 1
      ensures !ok ==> disk == old(disk) && Full(sb, disk)
      ensures Got(old(owner), owner, {Owner(i, NDIRECT + 1 + j)}, ok)
      ensures AllLogged(old(logged), old(disk), logged, disk, {})
    {
      hide Own, Extended, Full, Got, Mark, Used, BitmapBlock, Word, PutWord, AllLogged;
      LoggedSame(logged, disk);
      ExtendedSame(sb, disk, inodes, owner, loose, i);
      SlotInRange(sb, disk, inodes, owner, loose, i, NDIRECT);
      SlotInRange(sb, disk, inodes, owner, loose, i, NDIRECT + 1 + j);
      meta := {};
      var ind := inodes[i].addrs[NDIRECT];
      addr := Word(disk[ind], j);
      GotNone(sb, disk, inodes, owner, i, NDIRECT + 1 + j);
      if addr == 0 {
        ghost var d0 := disk;
        ok, addr := Balloc();
        if !ok { return; }
        meta := {BitmapBlock(sb, addr)};
        GainEntry(sb, d0, inodes, owner, i, j, addr);
        GotOne(sb, d0, inodes, owner, addr, Owner(i, NDIRECT + 1 + j));
        LoggedPut(logged, disk, ind, PutWord(disk[ind], j, addr));
        ghost var log1, d1 := logged, disk;
        disk := disk[ind := PutWord(disk[ind], j, addr)];
        logged := logged + {ind as nat};
        LoggedTwice(old(logged), d0, log1, d1, logged, disk, {});
        owner, loose := owner[addr := Owner(i, NDIRECT + 1 + j)], {};
      }
      return true, addr, meta;
    }

    /** bmap beyond the direct blocks: first the indirect block, then the entry in it. */
    method MapIndirect(i: nat, j: nat) returns (ok: bool, addr: nat, ghost meta: set<nat>)
      requires Owned() && loose == {} && i in inodes && j < NINDIRECT
      modifies this`disk, this`inodes, this`owner, this`loose, this`logged
      ensures Owned() && loose == {} && Extended(sb, old(disk), old(inodes), disk, inodes, i)
      ensures if ok then addr == Slot(disk, inodes[i], NDIRECT + 1 + j) && 0 < addr < |disk| else Full(sb, disk)
      ensures Found(Slot(old(disk), old(inodes)[i], NDIRECT + 1 + j), old(Now()), Now(), ok, meta)
      ensures Logs(old(logged), logged, meta, {addr, inodes[i].addrs[NDIRECT] as nat})
      ensures |meta| <= 1 + (if old(inodes)[i].addrs[NDIRECT] == inodes[i].addrs[NDIRECT] then 0 else 1)
      ensures Got(old(owner), owner, Places(i, NDIRECT + j, NDIRECT + j + 1), ok)
      ensures AllLogged(old(logged), old(disk), logged, disk, {})
    {
      hide Own, Slot, Extended, Full, Got, Places, Logs, Found, AllLogged;
      PlacesIndirect(i, j);
      SlotInRange(sb, disk, inodes, owner, loose, i, NDIRECT);
      EntryNeedsTable(disk, inodes[i], NDIRECT);
      ghost var v0 := Now();
      ok, addr, meta := MapAddr(i, NDIRECT);
      ghost var v1, meta1 := Now(), meta;
      ExtendedShape(sb, v0.disk, v0.inodes, disk, inodes, i);
      if !ok {
        GotLess(v0.owner, owner, {Owner(i, NDIRECT)}, Places(i, NDIRECT + j, NDIRECT + j + 1));
        LogsMore(v0.logged, logged, meta, {addr}, {addr, inodes[i].addrs[NDIRECT] as nat});
        FoundNot(v0.disk, v0.inodes[i], j, v0, v1, meta);
        return;
      }
      var ind := addr;
      ok, addr, meta := MapEntry(i, j);
      ExtendedTrans(sb, v0.disk, v0.inodes, v1.disk, v1.inodes, disk, inodes, i);
      LogsTwice(v0.logged, v1.logged, logged, meta1, meta, ind, addr);
      LoggedTwice(v0.logged, v0.disk, v1.logged, v1.disk, logged, disk, {});
      FoundTwice(v0.disk, v0.inodes[i], j, v0, v1, Now(), meta1, meta, ok);
      GotTwice(v0.owner, v1.owner, owner, {Owner(i, NDIRECT)}, {Owner(i, NDIRECT + 1 + j)}, ok);
      meta := meta1 + meta;
    }

    /** bmap; failing stands for a panic (out of blocks, or bn out of range). */
    method Bmap(i: nat, bn: nat) returns (ok: bool, addr: nat, ghost meta: set<nat>)
      requires Owned() && loose == {} && i in inodes
      modifies this`disk, this`inodes, this`owner, this`loose, this`logged
      ensures Owned() && loose == {} && Extended(sb, old(disk), old(inodes), disk, inodes, i)
      ensures ok ==> bn < MAXFILE && addr == Slot(disk, inodes[i], DataPos(bn)) && 0 < addr < |disk|
      // a mapped block is found without allocating anything
      ensures bn < MAXFILE ==> Found(Slot(old(disk), old(inodes)[i], DataPos(bn)), old(Now()), Now(), ok, meta)
      // what one call may log: the data block, the indirect block, and a bitmap block per allocation
      ensures Logs(old(logged), logged, meta, DataAndTable(addr, bn, inodes[i]))
      ensures |meta| <= 1 + (if old(inodes)[i].addrs[NDIRECT] == inodes[i].addrs[NDIRECT] then 0 else 1)
      // it allocates exactly what was not there, and fails exactly out of range or when that many are not free
      ensures if bn < MAXFILE then Got(old(owner), owner, Places(i, bn, bn + 1), ok) else !ok && owner == old(owner)
      ensures !ok && bn < MAXFILE ==> Full(sb, disk)
      ensures |old(inodes)[i].addrs| == NDIRECT + 1
      ensures ok <==> bn < MAXFILE && |Unused(sb, old(disk))| >= Lacks(old(disk), old(inodes)[i], bn, bn + 1)
      // every block it changes is logged
      ensures AllLogged(old(logged), old(disk), logged, disk, {})
    {
      hide Own, Slot, Extended, Full, Got, Places, Lacks, Unused, Logs, Found, AllLogged;
      LoggedSame(logged, disk);
      SlotInRange(sb, disk, inodes, owner, loose, i, NDIRECT);
      if bn < NDIRECT {
        ok, addr, meta := MapAddr(i, bn);
        ExtendedShape(sb, old(disk), old(inodes), disk, inodes, i);
        PlacesDirect(i, bn);
        NeedIff(sb, old(disk), old(inodes), old(owner), disk, inodes, owner, i, bn, bn + 1, ok);
        return;
      }
      if bn - NDIRECT < NINDIRECT {
        assert DataPos(bn) == NDIRECT + 1 + (bn - NDIRECT);
        ok, addr, meta := MapIndirect(i, bn - NDIRECT);
        NeedIff(sb, old(disk), old(inodes), old(owner), disk, inodes, owner, i, bn, bn + 1, ok);
        return;
      }
      ExtendedSame(sb, disk, inodes, owner, loose, i);
      LogsMore(logged, logged, {}, {}, DataAndTable(0, bn, inodes[i]));
      return false, 0, {};
    }

    /** One turn of writei's loop: the bytes `chunk` go to offset `off`, inside one block. With `fault`
        the copy from the source fails part-way, so the buffer keeps some bytes and is not logged. */
    method WriteChunk(i: nat, off: nat, chunk: seq<byte>, fault: bool)
      returns (ok: bool, addr: nat, ghost meta: set<nat>)
      requires Owned() && loose == {} && i in inodes
      requires 0 < |chunk| <= BSIZE - off % BSIZE
      modifies this`disk, this`inodes, this`owner, this`loose, this`logged
      ensures Owned() && loose == {} && SlotsKept(old(disk), old(inodes), disk, inodes) && LowKept(sb, old(disk), disk)
      ensures inodes == old(inodes)[i := inodes[i]]
      ensures OnlyBytes(old(disk), old(inodes), disk, inodes, i, off, off + |chunk|)
      ensures ok && !fault ==> forall k: nat :: off <= k < off + |chunk| ==>
                FileByte(disk, inodes[i], k) == chunk[k - off]
      ensures ok ==> Slot(disk, inodes[i], DataPos(off / BSIZE)) != 0 && off / BSIZE < MAXFILE
      ensures Logs(old(logged), logged, meta, DataAndTable(addr, off / BSIZE, inodes[i]))
      ensures |meta| <= (if off / BSIZE < MAXFILE && Slot(old(disk), old(inodes)[i], DataPos(off / BSIZE)) != 0
                         then 0 else 1)
                      + (if old(inodes)[i].addrs[NDIRECT] == inodes[i].addrs[NDIRECT] then 0 else 1)
      ensures !ok && off / BSIZE < MAXFILE ==> Full(sb, disk)
      ensures off / BSIZE < MAXFILE ==> Got(old(owner), owner, Places(i, off / BSIZE, off / BSIZE + 1), ok)
      // every block it changes is logged, but for one whose new bytes could not be copied
      ensures AllLogged(old(logged), old(disk), logged, disk,
                        if ok && fault then {Slot(disk, inodes[i], DataPos(off / BSIZE))} else {})
    {
      hide SlotsOwned, OwnersHaveSlots, BitmapExact, Slot, FileByte, Grew, Full, Got, Places, Lacks, Unused, AllLogged;
      ok, addr, meta := Bmap(i, off / BSIZE);
      ghost var log1 := logged;
      GrewKeepsSlots(old(disk), old(inodes), disk, inodes);
      if ok {
        ghost var d1 := disk;
        var o := off % BSIZE;
        var buf := disk[addr];
        if fault {
          buf :| forall x :: 0 <= x < BSIZE && !(o <= x < o + |chunk|) ==> buf[x] == disk[addr][x];
        } else {
          buf := Splice(buf, o, chunk);
        }
        DataBlockKeeps(sb, disk, inodes, owner, i, off / BSIZE, addr, buf);
        DataBlockWrite(sb, disk, inodes, owner, i, off / BSIZE, addr, buf);
        ChunkBytes(d1, inodes[i], off, |chunk|, addr);
        LoggedPut(logged, disk, addr, buf);
        disk := disk[addr := buf];
        if !fault {
          logged := logged + {addr};
        }
        LoggedTwice(old(logged), old(disk), log1, d1, logged, disk, if fault then {addr} else {});
      }
    }

    /** writei's loop. Source bytes from `readable` on cannot be copied; failing stands for a panic. */
    method WriteLoop(i: nat, off: nat, src: seq<byte>, readable: nat)
      returns (ok: bool, tot: nat, ghost touched: set<nat>)
      requires Owned() && loose == {} && i in inodes && |inodes[i].addrs| == NDIRECT + 1
      requires MappedTo(disk, inodes[i], off) && off + |src| <= MAXFILE * BSIZE
      modifies this`disk, this`inodes, this`owner, this`loose, this`logged
      ensures Owned() && loose == {} && SlotsKept(old(disk), old(inodes), disk, inodes) && LowKept(sb, old(disk), disk)
      ensures tot <= |src|
      ensures inodes == old(inodes)[i := inodes[i]]
      ensures OnlyBytes(old(disk), old(inodes), disk, inodes, i, off, off + |src|)
      ensures MappedTo(disk, inodes[i], off + tot)
      ensures forall k: nat :: off <= k < off + tot ==> FileByte(disk, inodes[i], k) == src[k - off]
      ensures ok ==> (tot == |src| <==> readable >= |src| || src == [])
      ensures ok ==> logged <= old(logged) + touched
      ensures ok ==> |touched| + (if off % BSIZE != 0 && src != [] then 1 else 0) <= 2 * Spans(off, |src|) + 2
      // it allocates exactly what was not there, and fails only on a full disk
      ensures Filled(old(owner), owner, i, off, Tried(|src|, readable), ok)
      ensures !ok ==> Full(sb, disk)
      // every block it changes is logged, but for one whose new bytes could not be copied
      ensures i in inodes && |inodes[i].addrs| == NDIRECT + 1
      ensures AllLogged(old(logged), old(disk), logged, disk,
                        if ok then Torn(disk, inodes[i], off, tot, |src|) else {})
    {
      hide Own, Slot, FileByte, OnlyBytes, MappedTo, Counted, Spans, ChunkLen, Full, Got, Places, Filled, SlotsKept,
        Logs, AllLogged;
      LoggedSame(logged, disk);
      touched := {};
      ghost var d0, inodes0, ind0 := disk, inodes, inodes[i].addrs[NDIRECT];
      ghost var c := Count({}, {}, 0, false);
      OwnShape(sb, disk, inodes, owner, loose);
      WroteStart(d0, inodes0, i, off, src);
      CountStart(logged, off, ind0);
      FilledNone(owner, i, off);
      tot := 0;
      ok := true;
      while tot < |src|
        invariant Owned() && loose == {} && LowKept(sb, d0, disk) && Wrote(d0, inodes0, disk, inodes, i, off, src, tot)
        invariant i in inodes && inodes == inodes0[i := inodes[i]] && |inodes[i].addrs| == NDIRECT + 1
        invariant Counted(old(logged), logged, c, off, tot, ind0, inodes[i].addrs[NDIRECT])
        invariant Filled(old(owner), owner, i, off, tot, true)
        invariant 0 < tot < |src| ==> (off + tot) % BSIZE == 0
        invariant tot > 0 ==> tot <= readable
        invariant AllLogged(old(logged), d0, logged, disk, {})
      {
        var o := off + tot;
        var m := ChunkLen(o, |src| - tot);
        ghost var d1, inodes1, log1, owner1 := disk, inodes, logged, owner;
        var addr;
        ghost var more;
        ok, addr, more := WriteChunk(i, o, src[tot..tot + m], tot + m > readable);
        OwnShape(sb, disk, inodes, owner, loose);
        LoggedTwice(old(logged), d0, log1, d1, logged, disk,
                    if ok && tot + m > readable then {Slot(disk, inodes[i], DataPos(o / BSIZE))} else {});
        WroteFault(d0, inodes0, d1, inodes1, disk, inodes, i, off, src, tot, m);
        FilledTurn(old(owner), owner1, owner, i, off, tot, m, ok);
        if tot + m > readable { FilledSame(old(owner), owner, i, off, tot, m, readable, ok); }
        if !ok {
          if tot + m <= readable { FilledFarther(old(owner), owner, i, off, tot + m, Tried(|src|, readable)); }
          return;
        }
        c := CountTurn(old(logged), log1, logged, c, off, tot, m, ind0, d1, inodes1, disk, inodes, i, addr, more);
        if tot + m > readable {
          touched := CountTotal(old(logged), logged, c, off, tot + m, |src|, ind0, inodes[i].addrs[NDIRECT]);
          return;
        }
        WroteTurn(d0, inodes0, d1, inodes1, disk, inodes, i, off, src, tot, m);
        tot := tot + m;
      }
      touched := CountTotal(old(logged), logged, c, off, tot, |src|, ind0, inodes[i].addrs[NDIRECT]);
    }

    // ----- Whole operations -----

    /** What every file system operation finds and leaves: exact ownership, no holes, and an on-disk
        inode for every inode in memory. */
    ghost predicate Valid()
      reads this
    {
      Owned() && loose == {} && HoleFree(disk, inodes) && Synced(sb, disk, inodes, {})
    }

    ghost function File(i: nat): seq<byte>
      reads this
      requires Owned() && i in inodes
    {
      Contents(disk, inodes[i])
    }

    method Iupdate(i: nat)
      requires Owned() && loose == {} && i in inodes && Synced(sb, disk, inodes, {i})
      modifies this`disk, this`logged
      ensures Owned() && Synced(sb, disk, inodes, {}) && SameBytes(old(disk), inodes, disk, inodes)
      ensures forall j :: j in inodes ==>
                |inodes[j].addrs| == NDIRECT + 1 && Contents(disk, inodes[j]) == Contents(old(disk), inodes[j])
      ensures HoleFree(old(disk), inodes) ==> HoleFree(disk, inodes)
      ensures logged == old(logged) + {IBlock(sb, i)} && AllLogged(old(logged), old(disk), logged, disk, {})
      ensures |inodes[i].addrs| == NDIRECT + 1
      ensures forall p: nat :: Slot(disk, inodes[i], p) == Slot(old(disk), inodes[i], p)
    {
      hide SlotsOwned, OwnersHaveSlots, BitmapExact, FileByte, Slot, PutDinode, Dinode, Contents, HoleFree;
      OwnShape(sb, disk, inodes, owner, loose);
      BitmapInMeta(sb, disk, 0);
      var b := IBlock(sb, i);
      InodeBlockWrite(sb, disk, inodes, owner, b, PutDinode(disk[b], i % IPB, inodes[i]));
      IupdateSyncs(sb, disk, inodes, i);
      SlotsAndBytesKeep(disk, disk[b := PutDinode(disk[b], i % IPB, inodes[i])], inodes);
      disk := disk[b := PutDinode(disk[b], i % IPB, inodes[i])];
      logged := logged + {b};
    }

    /** writei. Source bytes from `readable` on cannot be copied; failing stands for a panic. */
    method Writei(i: nat, src: seq<byte>, off: uint32, readable: nat)
      returns (ok: bool, r: int, ghost touched: set<nat>)
      requires Valid() && i in inodes && |src| < 0x1_0000_0000
      modifies this`disk, this`inodes, this`owner, this`loose, this`logged
      ensures ok ==> Valid() && inodes.Keys == old(inodes).Keys
      ensures ok ==> (r == -1 <==> off > old(inodes)[i].size || off + |src| > MAXFILE * BSIZE)
      ensures ok && r == -1 ==> disk == old(disk) && inodes == old(inodes) && owner == old(owner)
      // a full write replaces exactly the bytes at off; a short one keeps what it reports
      ensures ok && r != -1 ==> 0 <= r <= |src| && (r == |src| <==> readable >= |src| || src == [])
      ensures ok && r == |src| ==> File(i) == Overwrite(old(File(i)), off, src)
      ensures ok && r != -1 ==> |File(i)| >= off + r && File(i)[..off + r] == old(File(i))[..off] + src[..r]
      // every other file is untouched
      ensures ok ==> forall j :: j in inodes && j != i ==>
                inodes[j].size == old(inodes)[j].size && File(j) == old(Contents(disk, inodes[j]))
      // and the operation logs few blocks
      ensures ok ==> logged <= old(logged) + touched
      ensures ok ==> |touched| + (if off % BSIZE != 0 && src != [] then 1 else 0) <= 2 * Spans(off, |src|) + 3
      // balloc panics exactly when fewer blocks were free than the bytes it gets to lack
      ensures |old(inodes)[i].addrs| == NDIRECT + 1
      ensures ok <==> || off > old(inodes)[i].size || off + |src| > MAXFILE * BSIZE
                      || Enough(sb, old(disk), old(inodes)[i], off, Tried(|src|, readable))
      ensures Owned() && loose == {}
      ensures !ok || r != -1 ==> Filled(old(owner), owner, i, off, Tried(|src|, readable), ok)
      ensures !ok ==> Full(sb, disk)
      // every block it changes is logged, but for one whose new bytes could not be copied
      ensures ok ==> |inodes[i].addrs| == NDIRECT + 1
      ensures ok ==> AllLogged(old(logged), old(disk), logged, disk, Torn(disk, inodes[i], off, r, |src|))
    {
      hide Own, FileByte, Slot, OnlyBytes, SlotsKept, HoleFree, Synced, MappedTo, Contents, Overwrite, Spans, LowKept,
           Full, Filled, Enough, Tried, AllLogged;
      LoggedSame(logged, disk);
      OwnShape(sb, disk, inodes, owner, loose);
      ghost var d0, inodes0 := disk, inodes;
      if off > inodes[i].size || (off + |src|) % 0x1_0000_0000 < off {
        return true, -1, {};
      }
      if off + |src| > MAXFILE * BSIZE {
        return true, -1, {};
      }
      HoleFreeAt(disk, inodes, i, off);
      var tot;
      ok, tot, touched := WriteLoop(i, off, src, readable);
      FilledIff(sb, d0, inodes0, old(owner), disk, inodes, owner, i, off, Tried(|src|, readable), ok);
      if !ok {
        return false, 0, {};
      }
      ghost var d1, inodes1 := disk, inodes;
      OwnShape(sb, disk, inodes, owner, loose);
      WriteSize(d0, inodes0, disk, inodes, i, off + tot);
      var size := if off + tot > inodes[i].size then off + tot else inodes[i].size;
      inodes := inodes[i := inodes[i].(size := size)];
      WriteHoleFree(d0, inodes0, d1, inodes1, i, size);
      WriteContents(d0, inodes0, d1, inodes1, i, off, src, tot, inodes[i]);
      AllOthersUntouched(d0, inodes0, d1, inodes1, i, off, off + |src|);
      FieldsKeep(sb, disk, inodes1, owner, loose, i, inodes[i]);
      SyncedKept(sb, d0, inodes0, disk, inodes, i);
      ghost var log1 := logged;
      Iupdate(i);
      LoggedThen(old(logged), d0, log1, d1, logged, disk,
                 if tot < |src| then {Slot(d1, inodes1[i], DataPos((off + tot) / BSIZE))} else {});
      SlotFields(d1, inodes1[i], inodes[i]);
      r := tot;
      UnionBound(touched, {IBlock(sb, i)});
      touched := touched + {IBlock(sb, i)};
    }

    /** itrunc's first loop. */
    method FreeDirect(i: nat) returns (panics: bool)
      requires Owned() && loose == {} && i in inodes
      modifies this`disk, this`inodes, this`owner, this`logged
      ensures !panics && Owned() && LowKept(sb, old(disk), disk) && DataKept(sb, old(disk), disk)
      ensures i in inodes && inodes == old(inodes)[i := inodes[i]] && SameFields(old(inodes)[i], inodes[i])
      ensures forall p :: 0 <= p < NDIRECT ==> inodes[i].addrs[p] == 0
      ensures inodes[i].addrs[NDIRECT] == old(inodes)[i].addrs[NDIRECT]
      ensures owner == Disowned(old(owner), i, 0, NDIRECT) && AllLogged(old(logged), old(disk), logged, disk, {})
    {
      hide SlotsOwned, OwnersHaveSlots, BitmapExact, Used, Mark, BitmapBlock, AllLogged;
      LoggedSame(logged, disk);
      ghost var owner0 := owner;
      OwnShape(sb, disk, inodes, owner, loose);
      assert owner == Disowned(owner0, i, 0, 0);
      for p := 0 to NDIRECT
        invariant Owned() && loose == {} && LowKept(sb, old(disk), disk) && DataKept(sb, old(disk), disk)
        invariant i in inodes && inodes == old(inodes)[i := inodes[i]] && SameFields(old(inodes)[i], inodes[i])
        invariant forall q :: 0 <= q < p ==> inodes[i].addrs[q] == 0
        invariant forall q :: p <= q <= NDIRECT ==> inodes[i].addrs[q] == old(inodes)[i].addrs[q]
        invariant owner == Disowned(owner0, i, 0, p) && AllLogged(old(logged), old(disk), logged, disk, {})
      {
        FreeAddrKeeps(sb, disk, inodes, owner, owner0, i, p);
        var b := inodes[i].addrs[p];
        if b != 0 {
          MarkKeepsRest(sb, old(disk), disk, b, false);
          ghost var log1, d1 := logged, disk;
          panics := Bfree(b);
          LoggedTwice(old(logged), old(disk), log1, d1, logged, disk, {});
          inodes := inodes[i := inodes[i].(addrs := inodes[i].addrs[p := 0])];
          owner := Disowned(owner0, i, 0, p + 1);
        }
      }
      panics := false;
    }

    /** The rest of itrunc up to the size: the blocks the indirect block lists, then the block itself. */
    method FreeIndirect(i: nat) returns (panics: bool)
      requires Owned() && loose == {} && i in inodes && |inodes[i].addrs| == NDIRECT + 1
      requires inodes[i].addrs[NDIRECT] != 0
      modifies this`disk, this`inodes, this`owner, this`logged, this`loose
      ensures !panics && Owned() && loose == {} && LowKept(sb, old(disk), disk) && DataKept(sb, old(disk), disk)
      ensures inodes == old(inodes)[i := old(inodes)[i].(addrs := old(inodes)[i].addrs[NDIRECT := 0])]
      ensures owner == Disowned(old(owner), i, NDIRECT, MAXFILE + 1)
      ensures AllLogged(old(logged), old(disk), logged, disk, {})
    {
      hide SlotsOwned, OwnersHaveSlots, BitmapExact, Used, Mark, BitmapBlock, Word, StillListed, Disowned, AllLogged;
      LoggedSame(logged, disk);
      ghost var d0, owner0 := disk, owner;
      var ind := inodes[i].addrs[NDIRECT];
      ghost var cleared := inodes[i := inodes[i].(addrs := inodes[i].addrs[NDIRECT := 0])];
      GiveUpIndirect(sb, disk, inodes, owner, i);
      owner, loose := Disowned(owner, i, NDIRECT, MAXFILE + 1), StillListed(owner, i, 0);
      var a := disk[ind];
      for j := 0 to NINDIRECT
        invariant inodes == old(inodes) && owner == Disowned(owner0, i, NDIRECT, MAXFILE + 1)
        invariant loose == StillListed(owner0, i, j)
        invariant Own(sb, disk, cleared, owner, loose) && LowKept(sb, d0, disk) && DataKept(sb, d0, disk)
        invariant AllLogged(old(logged), d0, logged, disk, {})
      {
        FreeEntryKeeps(sb, disk, d0, inodes, cleared, owner0, owner, i, j);
        if Word(a, j) != 0 {
          MarkKeepsRest(sb, d0, disk, Word(a, j), false);
          ghost var log1, d1 := logged, disk;
          panics := Bfree(Word(a, j));
          LoggedTwice(old(logged), d0, log1, d1, logged, disk, {});
        }
        loose := StillListed(owner0, i, j + 1);
      }
      FreeKeeps(sb, disk, cleared, owner, loose, ind);
      assert loose - {ind as nat} == {};
      MarkKeepsRest(sb, d0, disk, ind, false);
      ghost var log1, d1 := logged, disk;
      panics := Bfree(ind);
      LoggedTwice(old(logged), d0, log1, d1, logged, disk, {});
      inodes := inodes[i := inodes[i].(addrs := inodes[i].addrs[NDIRECT := 0])];
      loose := {};
    }

    /** itrunc: afterwards the file is empty, exactly its blocks are free, and no other file noticed. The
        "freeing free block" panic is unreachable. */
    method Itrunc(i: nat) returns (panics: bool)
      requires Valid() && i in inodes
      modifies this`disk, this`inodes, this`owner, this`logged, this`loose
      ensures !panics && Valid() && i in inodes && inodes == old(inodes)[i := inodes[i]]
      ensures inodes[i] == old(inodes)[i].(size := 0, addrs := seq(NDIRECT + 1, _ => 0)) && File(i) == []
      ensures owner == Disowned(old(owner), i, 0, MAXFILE + 1)
      ensures forall b: nat :: b < sb.size ==>
                BitmapBlock(sb, b) < |disk| && (Used(sb, disk, b) <==> b < sb.nmeta || b in owner)
      ensures forall j :: j in inodes && j != i ==> File(j) == old(Contents(disk, inodes[j]))
      ensures AllLogged(old(logged), old(disk), logged, disk, {})
    {
      hide Own, HoleFree, Synced, Slot, FileByte, Disowned, BitmapBlock, Used, AllLogged;
      ghost var d0, inodes0, owner0 := disk, inodes, owner;
      panics := FreeDirect(i);
      ghost var log1, d1 := logged, disk;
      DisownedTwice(owner0, i, 0, NDIRECT, MAXFILE + 1);
      if inodes[i].addrs[NDIRECT] != 0 {
        panics := FreeIndirect(i);
        LoggedTwice(old(logged), d0, log1, d1, logged, disk, {});
      } else {
        assert inodes[i].addrs == seq(NDIRECT + 1, _ => 0);
        EmptyInodeOwnsNothing(sb, disk, inodes, owner, i);
      }
      assert inodes[i].addrs == seq(NDIRECT + 1, _ => 0);
      FieldsKeep(sb, disk, inodes, owner, loose, i, inodes[i].(size := 0));
      inodes := inodes[i := inodes[i].(size := 0)];
      TruncOthers(sb, d0, inodes0, owner0, disk, inodes, owner, i);
      SyncedKept(sb, d0, inodes0, disk, inodes, i);
      ghost var log2, d2 := logged, disk;
      Iupdate(i);
      LoggedTwice(old(logged), d0, log2, d2, logged, disk, {});
      BitmapIs(sb, disk, inodes, owner);
    }

    /** readi's loop. Destination bytes from `writable` on cannot be stored. */
    method ReadLoop(i: nat, off: nat, len: nat, writable: nat) returns (r: int, out: seq<byte>)
      requires Valid() && i in inodes && off + len <= inodes[i].size
      modifies this`disk, this`inodes, this`owner, this`loose, this`logged
      ensures disk == old(disk) && inodes == old(inodes) && owner == old(owner) && loose == old(loose)
      ensures logged == old(logged)
      ensures if writable >= len then r == len && out == File(i)[off..off + len] else r == -1
    {
      hide Own, FileByte, Slot, Synced, MappedTo, Contents, Grew, SameBytes, LowKept, ChunkLen, Full;
      out := [];
      var tot := 0;
      while tot < len
        invariant disk == old(disk) && inodes == old(inodes) && owner == old(owner) && loose == old(loose)
        invariant logged == old(logged)
        invariant 0 <= tot <= len && tot <= writable
        invariant out == File(i)[off..off + tot]
      {
        var o := off + tot;
        MappedAt(disk, inodes[i], o);
        InRange(o);
        var ok, addr;
        ghost var meta;
        ok, addr, meta := Bmap(i, o / BSIZE);
        var m := ChunkLen(o, len - tot);
        ReadTurn(disk, inodes[i], o, m, addr);
        if tot + m > writable {
          return -1, out;
        }
        out := out + disk[addr][o % BSIZE..o % BSIZE + m];
        tot := tot + m;
      }
      r := tot;
    }

    /** readi: exactly the bytes of the file from off, up to its end. Nothing is ever allocated. */
    method Readi(i: nat, off: uint32, n: uint32, writable: nat) returns (r: int, out: seq<byte>)
      requires Valid() && i in inodes
      modifies this`disk, this`inodes, this`owner, this`loose, this`logged
      ensures disk == old(disk) && inodes == old(inodes) && owner == old(owner) && loose == old(loose)
      ensures logged == old(logged)
      ensures off > inodes[i].size || off + n >= 0x1_0000_0000 ==> r == 0
      // otherwise as many as were asked for or are left, whichever is less
      ensures off <= inodes[i].size && off + n < 0x1_0000_0000 ==>
                && (r == -1 <==> writable < n && writable < inodes[i].size - off)
                && (r != -1 ==> 0 <= r <= n && off + r <= inodes[i].size && (r == n || off + r == inodes[i].size))
      ensures r >= 0 && off <= inodes[i].size ==> off + r <= |File(i)| && out == File(i)[off..off + r]
    {
      hide Own, FileByte, Slot, Synced, HoleFree, Contents;
      var len: nat := n;
      if off > inodes[i].size || (off + n) % 0x1_0000_0000 < off {
        return 0, [];
      }
      if off + len > inodes[i].size {
        len := inodes[i].size - off;
      }
      r, out := ReadLoop(i, off, len, writable);
    }

    /** iput: dropping the last reference to an inode that has been read and has no links empties and frees it.
        `ref` and `valid` are those of the cached inode, `left` and `validLeft` what becomes of them. */
    method Iput(i: nat, ref: nat, valid: bool) returns (panics: bool, left: nat, validLeft: bool)
      requires Valid() && i in inodes && ref > 0
      modifies this`disk, this`inodes, this`owner, this`logged, this`loose
      ensures !panics && Valid() && inodes.Keys == old(inodes).Keys
      ensures forall j :: j in inodes && j != i ==>
                inodes[j] == old(inodes)[j] && File(j) == old(Contents(disk, inodes[j]))
      ensures left == ref - 1
      ensures if ref == 1 && valid && old(inodes)[i].links / 0x1_0000 == 0
              then !validLeft && inodes[i].kind % 0x1_0000 == 0 && owner == Disowned(old(owner), i, 0, MAXFILE + 1) &&
                File(i) == []
              else validLeft == valid && disk == old(disk) && inodes == old(inodes) && owner == old(owner)
      ensures AllLogged(old(logged), old(disk), logged, disk, {})
    {
      hide Own, FileByte, Slot, Synced, HoleFree, Contents, Disowned, AllLogged;
      LoggedSame(logged, disk);
      panics, validLeft := false, valid;
      if ref == 1 && valid && inodes[i].links / 0x1_0000 == 0 {
        panics := Itrunc(i);
        ghost var d1, log1 := disk, logged;
        var ip := inodes[i].(kind := inodes[i].kind - inodes[i].kind % 0x1_0000);
        FieldsKeep(sb, disk, inodes, owner, loose, i, ip);
        RetypeKeeps(sb, disk, inodes, i, ip);
        inodes := inodes[i := ip];
        Iupdate(i);
        LoggedTwice(old(logged), old(disk), log1, d1, logged, disk, {});
        validLeft := false;
      }
      left := ref - 1;
    }
  }
}
