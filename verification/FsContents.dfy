/** A file as a sequence of bytes, and what mapping blocks and writing into them does to every file.

    The lemmas come in the order of the code: what bmap's two cases keep, what one turn of writei's loop does
    and what all of them do together, how many blocks they log, how an inode reaches its block, and what itrunc
    leaves of the other files. */
module FsContents {
  import opened Machine
  import opened FsLayout
  import opened FsOwnership

  // ----- File contents -----

  /** Byte k of the file, 0 where no block is mapped. */
  function FileByte(d: Disk, ip: Inode, k: nat): byte
    requires |ip.addrs| == NDIRECT + 1
  {
    var b := Slot(d, ip, DataPos(k / BSIZE));
    if 0 < b < |d| then d[b][k % BSIZE] else 0
  }

  ghost function Contents(d: Disk, ip: Inode): (c: seq<byte>)
    requires |ip.addrs| == NDIRECT + 1
    ensures |c| == ip.size
  {
    seq(ip.size, k requires 0 <= k < ip.size => FileByte(d, ip, k))
  }

  /** Every block below the first `size` bytes is mapped. */
  ghost predicate MappedTo(d: Disk, ip: Inode, size: nat)
    requires |ip.addrs| == NDIRECT + 1
  {
    forall bn: nat :: bn * BSIZE < size ==> Slot(d, ip, DataPos(bn)) != 0
  }

  ghost predicate HoleFree(d: Disk, inodes: Inodes) {
    forall i :: i in inodes ==>
      |inodes[i].addrs| == NDIRECT + 1 && inodes[i].size <= MAXFILE * BSIZE && MappedTo(d, inodes[i], inodes[i].size)
  }

  /** The blocks below the bitmap (boot, super, log, inodes) are untouched. */
  ghost predicate LowKept(sb: Super, d: Disk, d': Disk) {
    |d'| == |d| && forall b :: 0 <= b < sb.bmapstart && b < |d| ==> d'[b] == d[b]
  }

  /** Mapped blocks stay mapped where they are, with their contents; only block lists may have grown. */
  ghost predicate Grew(d: Disk, inodes: Inodes, d': Disk, inodes': Inodes) {
    && inodes'.Keys == inodes.Keys && |d'| == |d|
    && forall i :: i in inodes ==>
      SameFields(inodes[i], inodes'[i]) && forall p: nat :: SlotKept(d, inodes[i], d', inodes'[i], p)
  }

  ghost predicate SameFields(ip: Inode, ip': Inode) {
    |ip.addrs| == |ip'.addrs| == NDIRECT + 1 && ip' == ip.(addrs := ip'.addrs)
  }

  ghost predicate SlotKept(d: Disk, ip: Inode, d': Disk, ip': Inode, p: nat)
    requires |ip.addrs| == |ip'.addrs| == NDIRECT + 1 && |d'| == |d|
  {
    var b := Slot(d, ip, p);
    b != 0 ==> Slot(d', ip', p) == b && (p != NDIRECT && b < |d| ==> d'[b] == d[b])
  }

  /** Every byte of every file reads the same; a fresh zeroed block reads like no block at all. */
  ghost predicate SameBytes(d: Disk, inodes: Inodes, d': Disk, inodes': Inodes) {
    && inodes'.Keys == inodes.Keys
    && (forall i :: i in inodes ==> |inodes[i].addrs| == |inodes'[i].addrs| == NDIRECT + 1)
    && (forall i, k: nat :: i in inodes ==> FileByte(d', inodes'[i], k) == FileByte(d, inodes[i], k))
  }

  lemma AllocSameBytes(sb: Super, d: Disk, inodes: Inodes, owner: Owners, loose: set<nat>, r: nat)
    requires Own(sb, d, inodes, owner, loose) && r < sb.size && BitmapBlock(sb, r) < |d| && !Used(sb, d, r)
    ensures SameBytes(d, inodes, Mark(sb, d, r, true)[r := ZERO_BLOCK], inodes)
  {
    hide Slot, Bit;
    var d' := Mark(sb, d, r, true)[r := ZERO_BLOCK];
    BitmapInMeta(sb, d, r);
    forall i, k: nat | i in inodes ensures FileByte(d', inodes[i], k) == FileByte(d, inodes[i], k) {
      SlotSame(d, d', inodes, owner, i, DataPos(k / BSIZE));
    }
  }

  lemma AttachAddrSameBytes(sb: Super, d: Disk, inodes: Inodes, owner: Owners, loose: set<nat>, i: nat, p: nat,
                            r: uint32)
    requires Own(sb, d, inodes, owner, loose) && i in inodes && p <= NDIRECT && inodes[i].addrs[p] == 0
    requires r in loose && d[r] == ZERO_BLOCK
    ensures SameBytes(d, inodes, d, inodes[i := inodes[i].(addrs := inodes[i].addrs[p := r])])
  {
    hide Word;
    var ip' := inodes[i].(addrs := inodes[i].addrs[p := r]);
    forall k: nat ensures FileByte(d, ip', k) == FileByte(d, inodes[i], k) {
      var q := DataPos(k / BSIZE);
      if p == NDIRECT && NDIRECT < q <= MAXFILE {
        ZeroWords(q - NDIRECT - 1);
      }
    }
  }

  lemma AttachEntrySameBytes(sb: Super, d: Disk, inodes: Inodes, owner: Owners, loose: set<nat>, i: nat, p: nat,
                             r: uint32)
    requires Own(sb, d, inodes, owner, loose) && i in inodes && NDIRECT < p <= MAXFILE
    requires 0 < inodes[i].addrs[NDIRECT] < |d| && Slot(d, inodes[i], p) == 0
    requires r in loose && d[r] == ZERO_BLOCK
    ensures var ind := inodes[i].addrs[NDIRECT];
            SameBytes(d, inodes, d[ind := PutWord(d[ind], p - NDIRECT - 1, r)], inodes)
  {
    hide Word, PutWord;
    var ind := inodes[i].addrs[NDIRECT];
    var d' := d[ind := PutWord(d[ind], p - NDIRECT - 1, r)];
    assert Slot(d, inodes[i], NDIRECT) == ind;
    forall j, k: nat | j in inodes ensures FileByte(d', inodes[j], k) == FileByte(d, inodes[j], k) {
      var q := DataPos(k / BSIZE);
      if j != i {
        assert Slot(d, inodes[j], NDIRECT) == inodes[j].addrs[NDIRECT];
      }
      assert Slot(d', inodes[j], q) == if j == i && q == p then r else Slot(d, inodes[j], q);
      assert q != NDIRECT;
    }
  }

  lemma GrewSame(sb: Super, d: Disk, inodes: Inodes, owner: Owners, loose: set<nat>)
    requires Own(sb, d, inodes, owner, loose)
    ensures Grew(d, inodes, d, inodes) && SameBytes(d, inodes, d, inodes)
  {
  }

  lemma SlotInRange(sb: Super, d: Disk, inodes: Inodes, owner: Owners, loose: set<nat>, i: nat, p: nat)
    requires Own(sb, d, inodes, owner, loose) && i in inodes
    ensures |inodes[i].addrs| == NDIRECT + 1
    ensures Slot(d, inodes[i], p) != 0 ==> sb.bmapstart < sb.nmeta <= Slot(d, inodes[i], p) < sb.size <= |d|
  {
  }

  lemma GrewTrans(d: Disk, inodes: Inodes, d1: Disk, inodes1: Inodes, d2: Disk, inodes2: Inodes)
    requires Grew(d, inodes, d1, inodes1) && Grew(d1, inodes1, d2, inodes2)
    ensures Grew(d, inodes, d2, inodes2)
  {
    hide Slot;
    forall i, p: nat | i in inodes
      ensures SameFields(inodes[i], inodes2[i]) && SlotKept(d, inodes[i], d2, inodes2[i], p)
    {
      assert SlotKept(d, inodes[i], d1, inodes1[i], p) && SlotKept(d1, inodes1[i], d2, inodes2[i], p);
    }
  }

  lemma AllocGrew(sb: Super, d: Disk, inodes: Inodes, owner: Owners, loose: set<nat>, r: nat)
    requires Own(sb, d, inodes, owner, loose) && r < sb.size && BitmapBlock(sb, r) < |d| && !Used(sb, d, r)
    ensures Grew(d, inodes, Mark(sb, d, r, true)[r := ZERO_BLOCK], inodes)
  {
    hide Slot, Bit;
    var d' := Mark(sb, d, r, true)[r := ZERO_BLOCK];
    BitmapInMeta(sb, d, r);
    forall i, p: nat | i in inodes ensures SlotKept(d, inodes[i], d', inodes[i], p) {
      SlotSame(d, d', inodes, owner, i, p);
    }
  }

  lemma AllocSlot(sb: Super, d: Disk, inodes: Inodes, owner: Owners, r: nat, i: nat, p: nat)
    requires Own(sb, d, inodes, owner, {}) && r < sb.size && BitmapBlock(sb, r) < |d| && !Used(sb, d, r) && i in inodes
    ensures Slot(Mark(sb, d, r, true)[r := ZERO_BLOCK], inodes[i], p) == Slot(d, inodes[i], p)
  {
    hide Bit;
    BitmapInMeta(sb, d, r);
    SlotSame(d, Mark(sb, d, r, true)[r := ZERO_BLOCK], inodes, owner, i, p);
  }

  lemma AttachAddrGrew(sb: Super, d: Disk, inodes: Inodes, owner: Owners, loose: set<nat>, i: nat, p: nat, r: uint32)
    requires Own(sb, d, inodes, owner, loose) && i in inodes && p <= NDIRECT && inodes[i].addrs[p] == 0
    ensures Grew(d, inodes, d, inodes[i := inodes[i].(addrs := inodes[i].addrs[p := r])])
  {
    hide Word;
    var ip' := inodes[i].(addrs := inodes[i].addrs[p := r]);
    forall q: nat ensures SlotKept(d, inodes[i], d, ip', q) {
    }
  }

  lemma AttachEntryGrew(sb: Super, d: Disk, inodes: Inodes, owner: Owners, loose: set<nat>, i: nat, p: nat, r: uint32)
    requires Own(sb, d, inodes, owner, loose) && i in inodes && NDIRECT < p <= MAXFILE
    requires 0 < inodes[i].addrs[NDIRECT] < |d| && Slot(d, inodes[i], p) == 0
    ensures var ind := inodes[i].addrs[NDIRECT];
            Grew(d, inodes, d[ind := PutWord(d[ind], p - NDIRECT - 1, r)], inodes)
  {
    hide Word, PutWord;
    var ind := inodes[i].addrs[NDIRECT];
    var d' := d[ind := PutWord(d[ind], p - NDIRECT - 1, r)];
    assert Slot(d, inodes[i], NDIRECT) == ind;
    forall j, q: nat | j in inodes ensures SlotKept(d, inodes[j], d', inodes[j], q) {
      if j != i {
        assert Slot(d, inodes[j], NDIRECT) == inodes[j].addrs[NDIRECT];
      }
    }
  }

  lemma EntryNeedsTable(d: Disk, ip: Inode, bn: nat)
    requires |ip.addrs| == NDIRECT + 1
    ensures Slot(d, ip, NDIRECT) == ip.addrs[NDIRECT]
    ensures bn >= NDIRECT && Slot(d, ip, DataPos(bn)) != 0 ==> ip.addrs[NDIRECT] != 0
  {
  }

  /** Inode i may have got more blocks; every file reads as before. */
  ghost predicate Extended(sb: Super, d0: Disk, inodes0: Inodes, d: Disk, inodes: Inodes, i: nat) {
    && Grew(d0, inodes0, d, inodes) && SameBytes(d0, inodes0, d, inodes) && LowKept(sb, d0, d)
    && i in inodes0 && i in inodes && inodes == inodes0[i := inodes[i]] && SameFields(inodes0[i], inodes[i])
  }

  lemma ExtendedSame(sb: Super, d: Disk, inodes: Inodes, owner: Owners, loose: set<nat>, i: nat)
    requires Own(sb, d, inodes, owner, loose) && i in inodes
    ensures Extended(sb, d, inodes, d, inodes, i)
  {
    GrewSame(sb, d, inodes, owner, loose);
  }

  lemma ExtendedShape(sb: Super, d0: Disk, inodes0: Inodes, d: Disk, inodes: Inodes, i: nat)
    requires Extended(sb, d0, inodes0, d, inodes, i)
    ensures i in inodes0 && i in inodes && |inodes0[i].addrs| == |inodes[i].addrs| == NDIRECT + 1
  {
  }

  lemma ExtendedTrans(sb: Super, d0: Disk, inodes0: Inodes, d1: Disk, inodes1: Inodes, d2: Disk, inodes2: Inodes,
                      i: nat)
    requires Extended(sb, d0, inodes0, d1, inodes1, i) && Extended(sb, d1, inodes1, d2, inodes2, i)
    ensures Extended(sb, d0, inodes0, d2, inodes2, i)
  {
    hide Grew, SameBytes;
    GrewTrans(d0, inodes0, d1, inodes1, d2, inodes2);
    SameBytesTrans(d0, inodes0, d1, inodes1, d2, inodes2);
  }

  // balloc for a position in addrs.
  lemma GainAddr(sb: Super, d0: Disk, inodes: Inodes, owner: Owners, i: nat, p: nat, r: uint32)
    requires Own(sb, d0, inodes, owner, {}) && i in inodes && p <= NDIRECT
    requires |inodes[i].addrs| == NDIRECT + 1 && inodes[i].addrs[p] == 0
    requires 0 < r < sb.size && BitmapBlock(sb, r) < |d0| && !Used(sb, d0, r)
    ensures sb.size <= |d0|
    ensures var d, inodes' := Mark(sb, d0, r, true)[r := ZERO_BLOCK],
              inodes[i := inodes[i].(addrs := inodes[i].addrs[p := r])];
            && Own(sb, d, inodes', owner[r as nat := Owner(i, p)], {})
            && Extended(sb, d0, inodes, d, inodes', i)
  {
    hide SlotsOwned, OwnersHaveSlots, BitmapExact, Word, Mark, SlotKept, FileByte, Used;
    var d, inodes' := Mark(sb, d0, r, true)[r := ZERO_BLOCK], inodes[i := inodes[i].(addrs := inodes[i].addrs[p := r])];
    AllocKeeps(sb, d0, inodes, owner, {}, r);
    AllocGrew(sb, d0, inodes, owner, {}, r);
    AllocSameBytes(sb, d0, inodes, owner, {}, r);
    AttachAddrGrew(sb, d, inodes, owner, {} + {r as nat}, i, p, r);
    AttachAddrSameBytes(sb, d, inodes, owner, {} + {r as nat}, i, p, r);
    AttachAddrKeeps(sb, d, inodes, owner, {} + {r as nat}, i, p, r);
    assert {} + {r as nat} - {r as nat} == {};
    AllocLow(sb, d0, r);
    GrewTrans(d0, inodes, d, inodes, d, inodes');
    hide Grew;
    SameBytesTrans(d0, inodes, d, inodes, d, inodes');
  }

  lemma AllocLow(sb: Super, d0: Disk, r: nat)
    requires Geometry(sb, d0) && sb.nmeta <= r < sb.size && BitmapBlock(sb, r) < |d0|
    ensures LowKept(sb, d0, Mark(sb, d0, r, true)[r := ZERO_BLOCK])
  {
  }

  // balloc for entry j of the indirect block.
  lemma GainEntry(sb: Super, d0: Disk, inodes: Inodes, owner: Owners, i: nat, j: nat, r: uint32)
    requires Own(sb, d0, inodes, owner, {}) && i in inodes && j < NINDIRECT && |inodes[i].addrs| == NDIRECT + 1
    requires inodes[i].addrs[NDIRECT] != 0 && Slot(d0, inodes[i], NDIRECT + 1 + j) == 0
    requires 0 < r < sb.size && BitmapBlock(sb, r) < |d0| && !Used(sb, d0, r)
    ensures sb.size <= |d0| && inodes[i].addrs[NDIRECT] < |d0|
    ensures var d1, ind := Mark(sb, d0, r, true)[r := ZERO_BLOCK], inodes[i].addrs[NDIRECT];
            var d := d1[ind := PutWord(d1[ind], j, r)];
            && Own(sb, d, inodes, owner[r as nat := Owner(i, NDIRECT + 1 + j)], {})
            && Extended(sb, d0, inodes, d, inodes, i) && Slot(d, inodes[i], NDIRECT + 1 + j) == r
  {
    hide SlotsOwned, OwnersHaveSlots, BitmapExact, Word, PutWord, Mark, SlotKept, FileByte, Used;
    var d1, ind, p := Mark(sb, d0, r, true)[r := ZERO_BLOCK], inodes[i].addrs[NDIRECT], NDIRECT + 1 + j;
    SlotInRange(sb, d0, inodes, owner, {}, i, NDIRECT);
    AllocKeeps(sb, d0, inodes, owner, {}, r);
    AllocGrew(sb, d0, inodes, owner, {}, r);
    AllocSameBytes(sb, d0, inodes, owner, {}, r);
    AllocSlot(sb, d0, inodes, owner, r, i, p);
    var loose := {} + {r as nat};
    assert p - NDIRECT - 1 == j;
    AttachEntryGrew(sb, d1, inodes, owner, loose, i, p, r);
    AttachEntrySameBytes(sb, d1, inodes, owner, loose, i, p, r);
    AttachEntryKeeps(sb, d1, inodes, owner, loose, i, p, r);
    assert loose - {r as nat} == {};
    AllocLow(sb, d0, r);
    var d := d1[ind := PutWord(d1[ind], j, r)];
    GrewTrans(d0, inodes, d1, inodes, d, inodes);
    hide Grew;
    SameBytesTrans(d0, inodes, d1, inodes, d, inodes);
  }

  // ----- What bmap does -----

  /** What bmap may change. */
  datatype View = View(disk: Disk, inodes: Inodes, owner: Owners, logged: set<nat>)

  /** A block that was mapped is found, and nothing changes. */
  ghost predicate Found(was: nat, a: View, b: View, ok: bool, meta: set<nat>) {
    was != 0 ==> ok && b == a && meta == {}
  }

  lemma FoundTwice(d0: Disk, ip: Inode, j: nat, a: View, b: View, c: View, meta1: set<nat>, meta2: set<nat>, ok: bool)
    requires |ip.addrs| == NDIRECT + 1 && a.disk == d0 && Found(Slot(d0, ip, NDIRECT), a, b, true, meta1)
    requires b == a ==> Found(Slot(d0, ip, NDIRECT + 1 + j), b, c, ok, meta2)
    ensures Found(Slot(d0, ip, NDIRECT + 1 + j), a, c, ok, meta1 + meta2)
  {
  }

  lemma FoundNot(d0: Disk, ip: Inode, j: nat, a: View, b: View, meta: set<nat>)
    requires |ip.addrs| == NDIRECT + 1 && Found(Slot(d0, ip, NDIRECT), a, b, false, meta)
    ensures Found(Slot(d0, ip, NDIRECT + 1 + j), a, b, false, meta)
  {
  }

  /** How long one turn of the loops of readi and writei is: up to the end of the block, or of the request. */
  function ChunkLen(off: nat, left: nat): (m: nat)
    requires left > 0
    ensures 0 < m <= left && m <= BSIZE - off % BSIZE && (m < left ==> (off + m) % BSIZE == 0)
  {
    if left < BSIZE - off % BSIZE then left else BSIZE - off % BSIZE
  }

  // ----- Writing part of a data block -----

  function Splice(blk: Block, o: nat, bytes: seq<byte>): Block
    requires o + |bytes| <= BSIZE
  {
    blk[..o] + bytes + blk[o + |bytes|..]
  }

  // Overwriting the data block of inode i that holds bytes bn * BSIZE .. moves no block.
  lemma DataBlockKeeps(sb: Super, d: Disk, inodes: Inodes, owner: Owners, i: nat, bn: nat, blk: nat, data: Block)
    requires Own(sb, d, inodes, owner, {}) && i in inodes && bn < MAXFILE
    requires blk == Slot(d, inodes[i], DataPos(bn)) && blk != 0
    ensures sb.bmapstart < blk < |d| && Own(sb, d[blk := data], inodes, owner, {})
    ensures forall j, p: nat :: j in inodes ==> Slot(d[blk := data], inodes[j], p) == Slot(d, inodes[j], p)
  {
    hide Slot, BitmapExact, BitmapBlock, Geometry;
    SlotInRange(sb, d, inodes, owner, {}, i, DataPos(bn));
    var d' := d[blk := data];
    forall b: nat | b < sb.size ensures BitmapBlock(sb, b) < |d| && d'[BitmapBlock(sb, b)] == d[BitmapBlock(sb, b)] {
      BitmapInMeta(sb, d, b);
    }
    assert owner[blk] == Owner(i, DataPos(bn));
    DataWriteKeeps(sb, d, d', inodes, owner, {});
    forall j, p: nat | j in inodes ensures Slot(d', inodes[j], p) == Slot(d, inodes[j], p) {
      SlotSame(d, d', inodes, owner, j, p);
    }
  }

  // ... and changes only the bytes of that block of that file.
  lemma DataBlockWrite(sb: Super, d: Disk, inodes: Inodes, owner: Owners, i: nat, bn: nat, blk: nat, data: Block)
    requires Own(sb, d, inodes, owner, {}) && i in inodes && bn < MAXFILE
    requires blk == Slot(d, inodes[i], DataPos(bn)) && 0 < blk < |d|
    ensures forall j :: j in inodes ==> |inodes[j].addrs| == NDIRECT + 1
    ensures forall j, k: nat {:trigger FileByte(d[blk := data], inodes[j], k)} :: j in inodes ==>
              FileByte(d[blk := data], inodes[j], k) ==
              if j == i && k / BSIZE == bn then data[k % BSIZE] else FileByte(d, inodes[j], k)
  {
    hide Slot, BitmapExact, BitmapBlock, Geometry;
    DataBlockKeeps(sb, d, inodes, owner, i, bn, blk, data);
    forall j, k: nat | j in inodes
      ensures FileByte(d[blk := data], inodes[j], k) ==
              if j == i && k / BSIZE == bn then data[k % BSIZE] else FileByte(d, inodes[j], k)
    {
      if Slot(d, inodes[j], DataPos(k / BSIZE)) == blk {
        NoSharing(sb, d, inodes, owner, {}, i, DataPos(bn), j, DataPos(k / BSIZE));
      }
    }
  }

  /** Blocks once mapped stay mapped where they are. */
  ghost predicate SlotsKept(d: Disk, inodes: Inodes, d': Disk, inodes': Inodes) {
    && inodes'.Keys == inodes.Keys && |d'| == |d|
    && (forall i :: i in inodes ==> SameFields(inodes[i], inodes'[i]))
    && (forall i, p: nat :: i in inodes && Slot(d, inodes[i], p) != 0 ==>
        Slot(d', inodes'[i], p) == Slot(d, inodes[i], p))
  }

  lemma GrewKeepsSlots(d: Disk, inodes: Inodes, d': Disk, inodes': Inodes)
    requires Grew(d, inodes, d', inodes')
    ensures SlotsKept(d, inodes, d', inodes')
  {
    hide Slot;
    forall i, p: nat | i in inodes && Slot(d, inodes[i], p) != 0
      ensures Slot(d', inodes'[i], p) == Slot(d, inodes[i], p)
    {
      assert SlotKept(d, inodes[i], d', inodes'[i], p);
    }
  }

  /** Byte range [lo, hi) of file i may have changed; every other byte of every file reads the same. */
  ghost predicate OnlyBytes(d: Disk, inodes: Inodes, d': Disk, inodes': Inodes, i: nat, lo: nat, hi: nat) {
    && inodes'.Keys == inodes.Keys
    && (forall j :: j in inodes ==> |inodes[j].addrs| == |inodes'[j].addrs| == NDIRECT + 1)
    && (forall j, k: nat {:trigger FileByte(d', inodes'[j], k)} :: j in inodes && !(j == i && lo <= k < hi) ==>
        FileByte(d', inodes'[j], k) == FileByte(d, inodes[j], k))
  }

  // The bytes of a chunk inside one block, by file offset.
  lemma ChunkBytes(d: Disk, ip: Inode, off: nat, n: nat, blk: nat)
    requires |ip.addrs| == NDIRECT + 1 && 0 < n <= BSIZE - off % BSIZE
    requires blk == Slot(d, ip, DataPos(off / BSIZE)) && 0 < blk < |d|
    ensures forall k: nat :: off <= k < off + n ==> k / BSIZE == off / BSIZE && k % BSIZE == off % BSIZE + (k - off)
    ensures forall k: nat :: k / BSIZE == off / BSIZE && !(off <= k < off + n) ==>
              !(off % BSIZE <= k % BSIZE < off % BSIZE + n)
    ensures forall k: nat :: k / BSIZE == off / BSIZE ==> FileByte(d, ip, k) == d[blk][k % BSIZE]
  {
  }

  lemma SlotsKeptTrans(d: Disk, inodes: Inodes, d1: Disk, inodes1: Inodes, d2: Disk, inodes2: Inodes)
    requires SlotsKept(d, inodes, d1, inodes1) && SlotsKept(d1, inodes1, d2, inodes2)
    ensures SlotsKept(d, inodes, d2, inodes2)
  {
    hide Slot;
  }

  lemma OnlyBytesTrans(d: Disk, inodes: Inodes, d1: Disk, inodes1: Inodes, d2: Disk, inodes2: Inodes, i: nat, lo: nat,
                       mid: nat, hi: nat)
    requires lo <= mid <= hi
    requires OnlyBytes(d, inodes, d1, inodes1, i, lo, mid) && OnlyBytes(d1, inodes1, d2, inodes2, i, mid, hi)
    ensures OnlyBytes(d, inodes, d2, inodes2, i, lo, hi)
  {
    hide FileByte;
  }

  lemma MappedKept(d: Disk, inodes: Inodes, d': Disk, inodes': Inodes, i: nat, size: nat)
    requires SlotsKept(d, inodes, d', inodes') && i in inodes && MappedTo(d, inodes[i], size)
    ensures MappedTo(d', inodes'[i], size)
  {
    hide Slot;
  }

  lemma MappedExtend(d: Disk, ip: Inode, off: nat, m: nat)
    requires |ip.addrs| == NDIRECT + 1 && MappedTo(d, ip, off) && m <= BSIZE - off % BSIZE
    requires Slot(d, ip, DataPos(off / BSIZE)) != 0
    ensures MappedTo(d, ip, off + m)
  {
    hide Slot;
  }

  // ----- How many blocks a write logs -----

  /** Number of blocks the byte range [off, off + n) touches. */
  function Spans(off: nat, n: nat): nat {
    if n == 0 then 0 else (off + n - 1) / BSIZE - off / BSIZE + 1
  }

  lemma SlotFields(d: Disk, ip: Inode, ip': Inode)
    requires |ip.addrs| == NDIRECT + 1 && ip'.addrs == ip.addrs
    ensures forall p: nat :: Slot(d, ip', p) == Slot(d, ip, p)
  {
  }

  /** The block a write of n bytes that stopped after r of them left with bytes it could not copy. */
  function Torn(d: Disk, ip: Inode, off: nat, r: int, n: nat): set<nat>
    requires |ip.addrs| == NDIRECT + 1
  {
    if 0 <= r < n then {Slot(d, ip, DataPos((off + r) / BSIZE))} else {}
  }

  /** Every block that differs between d0 and d has been passed to log_write, but for those of `but`. */
  ghost predicate AllLogged(log0: set<nat>, d0: Disk, log: set<nat>, d: Disk, but: set<nat>) {
    log0 <= log && |d| == |d0| && forall b: nat :: b < |d| && d[b] != d0[b] ==> b in log || b in but
  }

  lemma LoggedSame(log: set<nat>, d: Disk)
    ensures AllLogged(log, d, log, d, {})
  {
  }

  lemma LoggedPut(log: set<nat>, d: Disk, b: nat, data: Block)
    requires b < |d|
    ensures AllLogged(log, d, log + {b}, d[b := data], {}) && AllLogged(log, d, log, d[b := data], {b})
  {
  }

  lemma LoggedAlloc(sb: Super, log: set<nat>, d: Disk, b: nat)
    requires b < |d| && BitmapBlock(sb, b) < |d|
    ensures AllLogged(log, d, log + {BitmapBlock(sb, b), b}, Mark(sb, d, b, true)[b := ZERO_BLOCK], {})
  {
    hide BitmapBlock;
  }

  lemma LoggedFree(sb: Super, log: set<nat>, d: Disk, b: nat)
    requires BitmapBlock(sb, b) < |d|
    ensures AllLogged(log, d, log + {BitmapBlock(sb, b)}, Mark(sb, d, b, false), {})
  {
    hide BitmapBlock;
  }

  lemma LoggedTwice(log0: set<nat>, d0: Disk, log1: set<nat>, d1: Disk, log2: set<nat>, d2: Disk, but: set<nat>)
    requires AllLogged(log0, d0, log1, d1, {}) && AllLogged(log1, d1, log2, d2, but)
    ensures AllLogged(log0, d0, log2, d2, but)
  {
  }

  lemma LoggedThen(log0: set<nat>, d0: Disk, log1: set<nat>, d1: Disk, log2: set<nat>, d2: Disk, but: set<nat>)
    requires AllLogged(log0, d0, log1, d1, but) && AllLogged(log1, d1, log2, d2, {})
    ensures AllLogged(log0, d0, log2, d2, but)
  {
  }

  /** From log0 to log only these bitmap blocks and these others were logged. */
  ghost predicate Logs(log0: set<nat>, log: set<nat>, meta: set<nat>, others: set<nat>) {
    log <= log0 + meta + others
  }

  // First the indirect block, then an entry in it.
  lemma LogsTwice(log0: set<nat>, log1: set<nat>, log2: set<nat>, meta1: set<nat>, meta2: set<nat>, ind: nat, addr: nat)
    requires Logs(log0, log1, meta1, {ind}) && Logs(log1, log2, meta2, {addr, ind})
    ensures Logs(log0, log2, meta1 + meta2, {addr, ind}) && |meta1 + meta2| <= |meta1| + |meta2|
    ensures meta1 == {} && meta2 == {} ==> meta1 + meta2 == {}
  {
    UnionBound(meta1, meta2);
  }

  lemma LogsMore(log0: set<nat>, log: set<nat>, meta: set<nat>, b: set<nat>, b': set<nat>)
    requires b <= b' && (log == log0 || Logs(log0, log, meta, b))
    ensures Logs(log0, log, meta, b')
  {
  }

  /** A data block of a file and, beyond the direct ones, the indirect block that lists it. */
  ghost function DataAndTable(addr: nat, bn: nat, ip: Inode): set<nat>
    requires |ip.addrs| == NDIRECT + 1
  {
    if bn < NDIRECT then {addr} else {addr, ip.addrs[NDIRECT] as nat}
  }

  /** `data` and `meta` are the data and bitmap blocks logged in `turns` turns of the loop, of which
      `settled` found their block already mapped. */
  ghost predicate Tally(log0: set<nat>, log: set<nat>, data: set<nat>, meta: set<nat>, turns: nat, settled: nat,
                        ind0: nat, ind: nat, viaInd: bool)
  {
    && log <= log0 + data + meta + (if viaInd then {ind} else {})
    && |data| <= turns
    && |meta| + settled <= turns + (if ind0 == ind then 0 else 1)
    && (viaInd ==> ind != 0) && (ind0 != 0 ==> ind == ind0)
  }

  lemma TallyTurn(log0: set<nat>, log: set<nat>, log': set<nat>, data: set<nat>, meta: set<nat>, turns: nat,
                  settled: nat, ind0: nat, ind: nat, ind': nat, viaInd: bool, addr: nat, more: set<nat>,
                  mapped: bool, indirect: bool)
    requires Tally(log0, log, data, meta, turns, settled, ind0, ind, viaInd)
    requires log' <= log + more + {addr} + (if indirect then {ind'} else {})
    requires |more| <= (if mapped then 0 else 1) + (if ind == ind' then 0 else 1)
    requires (ind != 0 ==> ind' == ind) && (indirect ==> ind' != 0)
    ensures Tally(log0, log', data + {addr}, meta + more, turns + 1, settled + (if mapped then 1 else 0), ind0, ind',
                  viaInd || indirect)
  {
    UnionBound(data, {addr});
    UnionBound(meta, more);
  }

  lemma UnionBound(a: set<nat>, b: set<nat>)
    ensures |a + b| <= |a| + |b|
  {
    assert a + b == a + (b - a);
    SubsetBound(b - a, b);
  }

  lemma {:induction false} SubsetBound(a: set<nat>, b: set<nat>)
    requires a <= b
    ensures |a| <= |b|
  {
    if a != {} {
      var x :| x in a;
      SubsetBound(a - {x}, b - {x});
    }
  }

  lemma OwnShape(sb: Super, d: Disk, inodes: Inodes, owner: Owners, loose: set<nat>)
    requires Own(sb, d, inodes, owner, loose)
    ensures forall i :: i in inodes ==> |inodes[i].addrs| == NDIRECT + 1
  {
  }

  lemma TallyTotal(log0: set<nat>, log: set<nat>, data: set<nat>, meta: set<nat>, turns: nat, settled: nat,
                   ind0: nat, ind: nat, viaInd: bool) returns (touched: set<nat>)
    requires Tally(log0, log, data, meta, turns, settled, ind0, ind, viaInd)
    ensures log <= log0 + touched && |touched| + settled <= 2 * turns + 2
  {
    touched := data + meta + (if viaInd then {ind} else {});
    UnionBound(data, meta);
    UnionBound(data + meta, if viaInd then {ind} else {});
  }

  lemma SpansTurn(off: nat, tot: nat, m: nat)
    requires 0 < m <= BSIZE - (off + tot) % BSIZE && (tot > 0 ==> (off + tot) % BSIZE == 0)
    ensures Spans(off, tot + m) == Spans(off, tot) + 1
  {
  }

  lemma SpansGrows(off: nat, m: nat, n: nat)
    requires m <= n
    ensures Spans(off, m) <= Spans(off, n)
  {
  }

  /** The state between two turns of writei's loop, all of which succeeded. */
  ghost predicate Wrote(d0: Disk, inodes0: Inodes, d: Disk, inodes: Inodes, i: nat, off: nat, src: seq<byte>,
                        tot: nat) {
    && i in inodes0 && tot <= |src| && SlotsKept(d0, inodes0, d, inodes)
    && OnlyBytes(d0, inodes0, d, inodes, i, off, off + tot)
    && MappedTo(d, inodes[i], off + tot)
    && forall k: nat :: off <= k < off + tot ==> FileByte(d, inodes[i], k) == src[k - off]
  }

  lemma WroteTurn(d0: Disk, inodes0: Inodes, d1: Disk, inodes1: Inodes, d2: Disk, inodes2: Inodes,
                  i: nat, off: nat, src: seq<byte>, tot: nat, m: nat)
    requires Wrote(d0, inodes0, d1, inodes1, i, off, src, tot) && SlotsKept(d1, inodes1, d2, inodes2)
    requires 0 < m <= BSIZE - (off + tot) % BSIZE && tot + m <= |src|
    requires OnlyBytes(d1, inodes1, d2, inodes2, i, off + tot, off + tot + m)
    requires forall k: nat :: off + tot <= k < off + tot + m ==>
               FileByte(d2, inodes2[i], k) == src[tot..tot + m][k - (off + tot)]
    requires Slot(d2, inodes2[i], DataPos((off + tot) / BSIZE)) != 0
    ensures Wrote(d0, inodes0, d2, inodes2, i, off, src, tot + m)
  {
    hide Slot, FileByte, MappedTo;
    SlotsKeptTrans(d0, inodes0, d1, inodes1, d2, inodes2);
    OnlyBytesTrans(d0, inodes0, d1, inodes1, d2, inodes2, i, off, off + tot, off + tot + m);
    MappedKept(d1, inodes1, d2, inodes2, i, off + tot);
    MappedExtend(d2, inodes2[i], off + tot, m);
  }

  lemma WroteStart(d: Disk, inodes: Inodes, i: nat, off: nat, src: seq<byte>)
    requires i in inodes && (forall j :: j in inodes ==> |inodes[j].addrs| == NDIRECT + 1)
    requires MappedTo(d, inodes[i], off)
    ensures Wrote(d, inodes, d, inodes, i, off, src, 0)
  {
  }

  lemma FirstTurnMapped(d: Disk, ip: Inode, off: nat)
    requires |ip.addrs| == NDIRECT + 1 && MappedTo(d, ip, off) && off % BSIZE != 0
    ensures Slot(d, ip, DataPos(off / BSIZE)) != 0
  {
    assert off / BSIZE * BSIZE < off;
  }

  lemma IndirectStays(d: Disk, inodes: Inodes, d': Disk, inodes': Inodes, i: nat, bn: nat)
    requires SlotsKept(d, inodes, d', inodes') && i in inodes
    ensures inodes[i].addrs[NDIRECT] != 0 ==> inodes'[i].addrs[NDIRECT] == inodes[i].addrs[NDIRECT]
    ensures bn >= NDIRECT && Slot(d', inodes'[i], DataPos(bn)) != 0 ==> inodes'[i].addrs[NDIRECT] != 0
  {
    assert Slot(d, inodes[i], NDIRECT) == inodes[i].addrs[NDIRECT];
  }

  /** The tally after the turns that covered the first `tot` bytes from offset `off`. */
  datatype Count = Count(data: set<nat>, meta: set<nat>, settled: nat, viaInd: bool)

  ghost predicate Counted(log0: set<nat>, log: set<nat>, c: Count, off: nat, tot: nat, ind0: nat, ind: nat) {
    && Tally(log0, log, c.data, c.meta, Spans(off, tot), c.settled, ind0, ind, c.viaInd)
    && (tot > 0 && off % BSIZE != 0 ==> c.settled >= 1)
  }

  lemma CountStart(log: set<nat>, off: nat, ind: nat)
    ensures Counted(log, log, Count({}, {}, 0, false), off, 0, ind, ind)
  {
  }

  lemma CountTurn(log0: set<nat>, log1: set<nat>, log2: set<nat>, c: Count, off: nat, tot: nat, m: nat, ind0: nat,
                  d1: Disk, inodes1: Inodes, d2: Disk, inodes2: Inodes, i: nat, addr: nat, more: set<nat>)
    returns (c': Count)
    requires SlotsKept(d1, inodes1, d2, inodes2) && i in inodes1 && MappedTo(d1, inodes1[i], off + tot)
    requires 0 < m <= BSIZE - (off + tot) % BSIZE && (tot > 0 ==> (off + tot) % BSIZE == 0)
    requires Counted(log0, log1, c, off, tot, ind0, inodes1[i].addrs[NDIRECT])
    requires (off + tot) / BSIZE < MAXFILE && Slot(d2, inodes2[i], DataPos((off + tot) / BSIZE)) != 0
    requires Logs(log1, log2, more, DataAndTable(addr, (off + tot) / BSIZE, inodes2[i]))
    requires |more| <= (if Slot(d1, inodes1[i], DataPos((off + tot) / BSIZE)) != 0 then 0 else 1)
                     + (if inodes1[i].addrs[NDIRECT] == inodes2[i].addrs[NDIRECT] then 0 else 1)
    ensures Counted(log0, log2, c', off, tot + m, ind0, inodes2[i].addrs[NDIRECT])
  {
    hide Slot, MappedTo, Tally, Spans;
    var o := off + tot;
    var mapped := Slot(d1, inodes1[i], DataPos(o / BSIZE)) != 0;
    if o % BSIZE != 0 { FirstTurnMapped(d1, inodes1[i], o); }
    IndirectStays(d1, inodes1, d2, inodes2, i, o / BSIZE);
    var ind1, ind2, via := inodes1[i].addrs[NDIRECT], inodes2[i].addrs[NDIRECT], o / BSIZE >= NDIRECT;
    TallyTurn(log0, log1, log2, c.data, c.meta, Spans(off, tot), c.settled, ind0, ind1, ind2, c.viaInd, addr, more,
              mapped, via);
    SpansTurn(off, tot, m);
    c' := Count(c.data + {addr}, c.meta + more, c.settled + (if mapped then 1 else 0), c.viaInd || via);
    hide SlotsKept, Logs;
    assert off % BSIZE != 0 ==> c'.settled >= 1;
  }

  lemma CountTotal(log0: set<nat>, log: set<nat>, c: Count, off: nat, tot: nat, n: nat, ind0: nat, ind: nat)
    returns (touched: set<nat>)
    requires Counted(log0, log, c, off, tot, ind0, ind) && tot <= n && (n > 0 ==> tot > 0)
    ensures log <= log0 + touched && |touched| + (if off % BSIZE != 0 && n > 0 then 1 else 0) <= 2 * Spans(off, n) + 2
  {
    hide Spans;
    touched := TallyTotal(log0, log, c.data, c.meta, Spans(off, tot), c.settled, ind0, ind, c.viaInd);
    SpansGrows(off, tot, n);
  }

  lemma SameBytesTrans(d: Disk, inodes: Inodes, d1: Disk, inodes1: Inodes, d2: Disk, inodes2: Inodes)
    requires SameBytes(d, inodes, d1, inodes1) && SameBytes(d1, inodes1, d2, inodes2)
    ensures SameBytes(d, inodes, d2, inodes2)
  {
    hide FileByte;
  }

  // A turn that faults: what was written before it stands, and only its own bytes are in doubt.
  lemma WroteFault(d0: Disk, inodes0: Inodes, d1: Disk, inodes1: Inodes, d2: Disk, inodes2: Inodes,
                   i: nat, off: nat, src: seq<byte>, tot: nat, m: nat)
    requires Wrote(d0, inodes0, d1, inodes1, i, off, src, tot) && SlotsKept(d1, inodes1, d2, inodes2)
    requires tot + m <= |src| && OnlyBytes(d1, inodes1, d2, inodes2, i, off + tot, off + tot + m)
    ensures SlotsKept(d0, inodes0, d2, inodes2) && MappedTo(d2, inodes2[i], off + tot)
    ensures OnlyBytes(d0, inodes0, d2, inodes2, i, off, off + |src|)
    ensures forall k: nat :: off <= k < off + tot ==> FileByte(d2, inodes2[i], k) == src[k - off]
  {
    hide Slot, FileByte, MappedTo;
    SlotsKeptTrans(d0, inodes0, d1, inodes1, d2, inodes2);
    OnlyBytesTrans(d0, inodes0, d1, inodes1, d2, inodes2, i, off, off + tot, off + tot + m);
    MappedKept(d1, inodes1, d2, inodes2, i, off + tot);
  }

  // ----- Inodes on disk -----

  function IBlock(sb: Super, i: nat): nat {
    i / IPB + sb.inodestart
  }

  /** Inode k of an inode block. */
  function Dinode(b: Block, k: nat): Inode
    requires k < IPB
  {
    Inode(Word(b, 16 * k), Word(b, 16 * k + 1), Word(b, 16 * k + 2),
          seq<uint32>(NDIRECT + 1, j requires 0 <= j < NDIRECT + 1 => Word(b, 16 * k + 3 + j)))
  }

  /** iupdate's stores into an inode block. */
  function PutDinode(b: Block, k: nat, ip: Inode): Block
    requires k < IPB && |ip.addrs| == NDIRECT + 1
  {
    PutWords(b, 16 * k, [ip.kind, ip.links, ip.size] + ip.addrs)
  }

  /** What iupdate stores, ilock reads back; the other inodes of the block are untouched. */
  lemma PutDinodeAt(b: Block, k: nat, ip: Inode, m: nat)
    requires k < IPB && |ip.addrs| == NDIRECT + 1 && m < IPB
    ensures Dinode(PutDinode(b, k, ip), m) == if m == k then ip else Dinode(b, m)
  {
    hide Word, PutWords;
    var ws := [ip.kind, ip.links, ip.size] + ip.addrs;
    var r := PutDinode(b, k, ip);
    if m == k {
      assert Word(r, 16 * k + 0) == ws[0] && Word(r, 16 * k + 1) == ws[1] && Word(r, 16 * k + 2) == ws[2];
      forall j | 0 <= j < NDIRECT + 1 ensures Dinode(r, m).addrs[j] == ip.addrs[j] {
        assert Word(r, 16 * k + (3 + j)) == ws[3 + j];
      }
      assert Dinode(r, m).addrs == ip.addrs;
    } else {
      assert Dinode(r, m).addrs == Dinode(b, m).addrs;
    }
  }

  ghost predicate SyncedAt(sb: Super, d: Disk, inodes: Inodes, i: nat)
    requires i in inodes
  {
    IBlock(sb, i) < sb.bmapstart && IBlock(sb, i) < |d| && Dinode(d[IBlock(sb, i)], i % IPB) == inodes[i]
  }

  /** The inode cache is write-through: except perhaps for `but`, disk and memory agree. */
  ghost predicate Synced(sb: Super, d: Disk, inodes: Inodes, but: set<nat>) {
    forall i :: i in inodes ==> IBlock(sb, i) < sb.bmapstart && (i !in but ==> SyncedAt(sb, d, inodes, i))
  }

  lemma SyncedKept(sb: Super, d: Disk, inodes: Inodes, d': Disk, inodes': Inodes, i: nat)
    requires Synced(sb, d, inodes, {}) && LowKept(sb, d, d') && i in inodes
    requires inodes'.Keys == inodes.Keys && forall j :: j in inodes && j != i ==> inodes'[j] == inodes[j]
    ensures Synced(sb, d', inodes', {i})
  {
    hide Dinode;
    forall j | j in inodes' && j != i ensures SyncedAt(sb, d', inodes', j) {
      assert SyncedAt(sb, d, inodes, j);
    }
  }

  lemma DifferentDinode(sb: Super, i: nat, j: nat)
    requires i != j
    ensures IBlock(sb, i) != IBlock(sb, j) || i % IPB != j % IPB
  {
    assert i == i / IPB * IPB + i % IPB && j == j / IPB * IPB + j % IPB;
  }

  lemma IupdateSyncs(sb: Super, d: Disk, inodes: Inodes, i: nat)
    requires Synced(sb, d, inodes, {i}) && i in inodes && |inodes[i].addrs| == NDIRECT + 1 && sb.bmapstart <= |d|
    ensures Synced(sb, d[IBlock(sb, i) := PutDinode(d[IBlock(sb, i)], i % IPB, inodes[i])], inodes, {})
  {
    hide Dinode, PutDinode, IBlock;
    var b := IBlock(sb, i);
    var d' := d[b := PutDinode(d[b], i % IPB, inodes[i])];
    forall j | j in inodes ensures SyncedAt(sb, d', inodes, j) {
      PutDinodeAt(d[b], i % IPB, inodes[i], j % IPB);
      assert j != i ==> SyncedAt(sb, d, inodes, j);
      if j != i {
        DifferentDinode(sb, i, j);
      }
    }
  }

  // Writing an inode block moves no block and changes no file.
  lemma InodeBlockWrite(sb: Super, d: Disk, inodes: Inodes, owner: Owners, b: nat, data: Block)
    requires Own(sb, d, inodes, owner, {}) && b < sb.bmapstart
    ensures b < |d| && Own(sb, d[b := data], inodes, owner, {})
    ensures SameBytes(d, inodes, d[b := data], inodes) && SlotsKept(d, inodes, d[b := data], inodes)
    ensures forall i, p: nat :: i in inodes ==>
              |inodes[i].addrs| == NDIRECT + 1 && Slot(d[b := data], inodes[i], p) == Slot(d, inodes[i], p)
  {
    hide Slot, BitmapExact;
    BitmapInMeta(sb, d, 0);
    var d' := d[b := data];
    forall x: nat | x < sb.size ensures BitmapBlock(sb, x) < |d| && d'[BitmapBlock(sb, x)] == d[BitmapBlock(sb, x)] {
      BitmapInMeta(sb, d, x);
    }
    DataWriteKeeps(sb, d, d', inodes, owner, {});
    forall i, p: nat | i in inodes ensures Slot(d', inodes[i], p) == Slot(d, inodes[i], p) {
      SlotSame(d, d', inodes, owner, i, p);
    }
    forall i, k: nat | i in inodes ensures FileByte(d', inodes[i], k) == FileByte(d, inodes[i], k) {
      SlotInRange(sb, d, inodes, owner, {}, i, DataPos(k / BSIZE));
    }
  }

  // ----- Overwriting part of a sequence -----

  /** c with `data` at offset off, longer if the data reach past the end. */
  ghost function Overwrite(c: seq<byte>, off: nat, data: seq<byte>): (r: seq<byte>)
    requires off <= |c|
  {
    c[..off] + data + (if off + |data| <= |c| then c[off + |data|..] else [])
  }

  lemma OverwriteTwice(c: seq<byte>, off: nat, a: seq<byte>, b: seq<byte>)
    requires off <= |c|
    ensures off + |a| <= |Overwrite(c, off, a)|
    ensures Overwrite(Overwrite(c, off, a), off + |a|, b) == Overwrite(c, off, a + b)
  {
  }

  // What writei's effect on bytes and size means for the file as a sequence.
  lemma ContentsOverwritten(d: Disk, ip: Inode, d': Disk, ip': Inode, off: nat, data: seq<byte>)
    requires |ip.addrs| == |ip'.addrs| == NDIRECT + 1 && off <= ip.size
    requires ip'.size == if off + |data| > ip.size then off + |data| else ip.size
    requires forall k: nat :: off <= k < off + |data| ==> FileByte(d', ip', k) == data[k - off]
    requires forall k: nat :: !(off <= k < off + |data|) ==> FileByte(d', ip', k) == FileByte(d, ip, k)
    ensures Contents(d', ip') == Overwrite(Contents(d, ip), off, data)
  {
    hide FileByte;
    var c, r := Contents(d', ip'), Overwrite(Contents(d, ip), off, data);
    assert |c| == |r|;
    forall k | 0 <= k < |c| ensures c[k] == r[k] {
    }
  }

  lemma ResizeBytes(d: Disk, ip: Inode, ip': Inode)
    requires |ip.addrs| == NDIRECT + 1 && ip'.addrs == ip.addrs
    ensures forall p: nat :: Slot(d, ip', p) == Slot(d, ip, p)
    ensures forall k: nat :: FileByte(d, ip', k) == FileByte(d, ip, k)
  {
  }

  lemma SameContents(d: Disk, ip: Inode, d': Disk, ip': Inode)
    requires |ip.addrs| == |ip'.addrs| == NDIRECT + 1 && ip'.size == ip.size
    requires forall k: nat :: FileByte(d', ip', k) == FileByte(d, ip, k)
    ensures Contents(d', ip') == Contents(d, ip)
  {
    hide FileByte;
  }

  lemma WriteSize(d: Disk, inodes: Inodes, d': Disk, inodes': Inodes, i: nat, end: nat)
    requires HoleFree(d, inodes) && i in inodes && SlotsKept(d, inodes, d', inodes') && MappedTo(d', inodes'[i], end)
    ensures inodes'[i].size == inodes[i].size <= MAXFILE * BSIZE
    ensures MappedTo(d', inodes'[i], if end > inodes[i].size then end else inodes[i].size)
  {
    hide Slot;
    MappedKept(d, inodes, d', inodes', i, inodes[i].size);
  }

  // writei after its loop: the size is brought up to date.
  lemma WriteHoleFree(d: Disk, inodes: Inodes, d': Disk, inodes': Inodes, i: nat, size: uint32)
    requires HoleFree(d, inodes) && i in inodes && SlotsKept(d, inodes, d', inodes') && size <= MAXFILE * BSIZE
    requires MappedTo(d', inodes'[i], size)
    ensures HoleFree(d', inodes'[i := inodes'[i].(size := size)])
  {
    hide Slot, FileByte;
    var ip' := inodes'[i].(size := size);
    ResizeBytes(d', inodes'[i], ip');
    forall j | j in inodes' && j != i ensures MappedTo(d', inodes'[j], inodes'[j].size) {
      MappedKept(d, inodes, d', inodes', j, inodes[j].size);
    }
  }

  lemma WriteContents(d: Disk, inodes: Inodes, d': Disk, inodes': Inodes, i: nat, off: nat, src: seq<byte>, tot: nat,
                      ip': Inode)
    requires i in inodes && OnlyBytes(d, inodes, d', inodes', i, off, off + |src|) && off <= inodes[i].size
    requires tot <= |src|
    requires forall k: nat :: off <= k < off + tot ==> FileByte(d', inodes'[i], k) == src[k - off]
    requires ip'.addrs == inodes'[i].addrs &&
             ip'.size == if off + tot > inodes[i].size then off + tot else inodes[i].size
    ensures tot == |src| ==> Contents(d', ip') == Overwrite(Contents(d, inodes[i]), off, src)
    ensures |Contents(d', ip')| >= off + tot
    ensures Contents(d', ip')[..off + tot] == Contents(d, inodes[i])[..off] + src[..tot]
  {
    hide Slot, FileByte;
    ResizeBytes(d', inodes'[i], ip');
    if tot == |src| {
      ContentsOverwritten(d, inodes[i], d', ip', off, src);
    }
    var c, c0 := Contents(d', ip')[..off + tot], Contents(d, inodes[i])[..off] + src[..tot];
    forall k | 0 <= k < off + tot ensures c[k] == c0[k] {
      if k < off {
        assert FileByte(d', inodes'[i], k) == FileByte(d, inodes[i], k);
      }
    }
  }

  lemma OthersUntouched(d: Disk, inodes: Inodes, d': Disk, inodes': Inodes, i: nat, lo: nat, hi: nat, j: nat)
    requires OnlyBytes(d, inodes, d', inodes', i, lo, hi) && j in inodes && j != i && inodes'[j] == inodes[j]
    ensures Contents(d', inodes'[j]) == Contents(d, inodes[j])
  {
    hide FileByte;
    forall k: nat ensures FileByte(d', inodes'[j], k) == FileByte(d, inodes[j], k) {
    }
    SameContents(d, inodes[j], d', inodes'[j]);
  }

  lemma SlotsAndBytesKeep(d: Disk, d': Disk, inodes: Inodes)
    requires SameBytes(d, inodes, d', inodes)
    requires forall i, p: nat :: i in inodes ==> Slot(d', inodes[i], p) == Slot(d, inodes[i], p)
    ensures HoleFree(d, inodes) ==> HoleFree(d', inodes)
    ensures forall i :: i in inodes ==> Contents(d', inodes[i]) == Contents(d, inodes[i])
  {
    hide Slot, FileByte;
    forall i | i in inodes ensures Contents(d', inodes[i]) == Contents(d, inodes[i]) {
      SameContents(d, inodes[i], d', inodes[i]);
    }
  }

  lemma AllOthersUntouched(d: Disk, inodes: Inodes, d': Disk, inodes': Inodes, i: nat, lo: nat, hi: nat)
    requires OnlyBytes(d, inodes, d', inodes', i, lo, hi) && i in inodes && inodes' == inodes[i := inodes'[i]]
    ensures forall j :: j in inodes && j != i ==>
              inodes'[j] == inodes[j] && Contents(d', inodes'[j]) == Contents(d, inodes[j])
  {
    hide FileByte, Contents;
    forall j | j in inodes && j != i
      ensures inodes'[j] == inodes[j] && Contents(d', inodes'[j]) == Contents(d, inodes[j])
    {
      OthersUntouched(d, inodes, d', inodes', i, lo, hi, j);
    }
  }

  lemma HoleFreeAt(d: Disk, inodes: Inodes, i: nat, off: nat)
    requires HoleFree(d, inodes) && i in inodes && off <= inodes[i].size
    ensures |inodes[i].addrs| == NDIRECT + 1 && inodes[i].size <= MAXFILE * BSIZE && MappedTo(d, inodes[i], off)
  {
  }

  // ----- Truncation -----

  /** Every data block keeps its contents; only metadata may differ. */
  ghost predicate DataKept(sb: Super, d: Disk, d': Disk) {
    |d'| == |d| && forall b :: sb.nmeta <= b < |d| ==> d'[b] == d[b]
  }

  /** The owners left when inode i has given up its positions from `lo` to `hi` - 1. */
  ghost function Disowned(owner: Owners, i: nat, lo: nat, hi: nat): Owners {
    map b | b in owner && !(owner[b].inum == i && lo <= owner[b].p < hi) :: owner[b]
  }

  // A direct block is freed and its address cleared.
  lemma FreeAddrKeeps(sb: Super, d: Disk, inodes: Inodes, owner: Owners, owner0: Owners, i: nat, p: nat)
    requires Own(sb, d, inodes, owner, {}) && i in inodes && p < NDIRECT && owner == Disowned(owner0, i, 0, p)
    ensures |inodes[i].addrs| == NDIRECT + 1
    ensures inodes[i].addrs[p] == 0 ==> owner == Disowned(owner0, i, 0, p + 1)
    ensures inodes[i].addrs[p] != 0 ==>
              var b := inodes[i].addrs[p];
              && b < sb.size && BitmapBlock(sb, b) < |d| && Used(sb, d, b)
              && Own(sb, Mark(sb, d, b, false), inodes[i := inodes[i].(addrs := inodes[i].addrs[p := 0])],
                     Disowned(owner0, i, 0, p + 1), {})
  {
    hide Bit, Word;
    var b := inodes[i].addrs[p];
    assert Slot(d, inodes[i], p) == b;
    if b != 0 {
      var inodes' := inodes[i := inodes[i].(addrs := inodes[i].addrs[p := 0])];
      DetachAddrKeeps(sb, d, inodes, owner, {}, i, p);
      FreeKeeps(sb, d, inodes', owner - {b as nat}, {} + {b as nat}, b);
      forall x | x in owner && owner[x] == Owner(i, p) ensures x == b {
        assert Slot(d, inodes[i], p) == x;
      }
      assert owner - {b as nat} == Disowned(owner0, i, 0, p + 1);
      assert {} + {b as nat} - {b as nat} == {};
    } else {
      forall x | x in owner ensures owner[x] != Owner(i, p) {
        assert Slot(d, inodes[owner[x].inum], owner[x].p) == x;
      }
      assert owner == Disowned(owner0, i, 0, p + 1);
    }
  }

  /** Blocks of inode i listed in its indirect block from entry j on, and the indirect block itself. */
  ghost function StillListed(owner: Owners, i: nat, j: nat): set<nat> {
    set b | b in owner && owner[b].inum == i && (owner[b].p == NDIRECT || owner[b].p > NDIRECT + j)
  }

  // One turn of itrunc's second loop, the indirect block being given up as a whole.
  lemma FreeEntryKeeps(sb: Super, d: Disk, d0: Disk, inodes0: Inodes, inodes: Inodes, owner0: Owners, owner: Owners,
                       i: nat, j: nat)
    requires Own(sb, d0, inodes0, owner0, {}) && i in inodes0 && 0 < inodes0[i].addrs[NDIRECT] < |d0| && j < NINDIRECT
    requires Own(sb, d, inodes, owner, StillListed(owner0, i, j))
    ensures var b := Word(d0[inodes0[i].addrs[NDIRECT]], j);
            if b == 0 then StillListed(owner0, i, j + 1) == StillListed(owner0, i, j)
            else
              && b < sb.size && BitmapBlock(sb, b) < |d| && Used(sb, d, b)
              && Own(sb, Mark(sb, d, b, false), inodes, owner, StillListed(owner0, i, j + 1))
  {
    hide Bit, Word;
    var b := Word(d0[inodes0[i].addrs[NDIRECT]], j);
    assert Slot(d0, inodes0[i], NDIRECT + 1 + j) == b;
    forall x | x in owner0 && owner0[x] == Owner(i, NDIRECT + 1 + j) ensures b != 0 && x == b {
      assert Slot(d0, inodes0[i], NDIRECT + 1 + j) == x;
    }
    if b != 0 {
      FreeKeeps(sb, d, inodes, owner, StillListed(owner0, i, j), b);
      assert StillListed(owner0, i, j) - {b as nat} == StillListed(owner0, i, j + 1);
    } else {
      assert StillListed(owner0, i, j) == StillListed(owner0, i, j + 1);
    }
  }

  // The indirect block is given up: before the loop everything it lists is loose.
  lemma GiveUpIndirect(sb: Super, d: Disk, inodes: Inodes, owner: Owners, i: nat)
    requires Own(sb, d, inodes, owner, {}) && i in inodes && inodes[i].addrs[NDIRECT] != 0
    ensures Own(sb, d, inodes[i := inodes[i].(addrs := inodes[i].addrs[NDIRECT := 0])],
                Disowned(owner, i, NDIRECT, MAXFILE + 1), StillListed(owner, i, 0))
    ensures 0 < inodes[i].addrs[NDIRECT] < sb.size
    ensures inodes[i].addrs[NDIRECT] as nat in StillListed(owner, i, NINDIRECT)
    ensures StillListed(owner, i, NINDIRECT) == {inodes[i].addrs[NDIRECT] as nat}
  {
    hide Word;
    DetachIndirectKeeps(sb, d, inodes, owner, {}, i);
    assert Slot(d, inodes[i], NDIRECT) == inodes[i].addrs[NDIRECT];
    forall x | x in owner && owner[x].inum == i
      ensures owner[x].p <= MAXFILE && (owner[x].p == NDIRECT ==> x == inodes[i].addrs[NDIRECT])
    {
      assert Slot(d, inodes[i], owner[x].p) == x;
    }
    assert {} + Indirect(owner, i) == StillListed(owner, i, 0);
    assert owner - Indirect(owner, i) == Disowned(owner, i, NDIRECT, MAXFILE + 1);
  }

  // Freeing touches bitmap blocks only.
  lemma MarkKeepsRest(sb: Super, d0: Disk, d: Disk, b: nat, on: bool)
    requires Geometry(sb, d) && b < sb.size && LowKept(sb, d0, d) && DataKept(sb, d0, d)
    ensures BitmapBlock(sb, b) < |d| && LowKept(sb, d0, Mark(sb, d, b, on)) && DataKept(sb, d0, Mark(sb, d, b, on))
  {
    BitmapInMeta(sb, d, b);
  }

  // After truncation the other files are as they were.
  lemma TruncOthers(sb: Super, d: Disk, inodes: Inodes, owner: Owners, d': Disk, inodes': Inodes, owner': Owners,
                    i: nat)
    requires Own(sb, d, inodes, owner, {}) && Own(sb, d', inodes', owner', {}) && DataKept(sb, d, d') && i in inodes
    requires i in inodes' && inodes' == inodes[i := inodes'[i]] && HoleFree(d, inodes) && inodes'[i].size == 0
    ensures HoleFree(d', inodes')
    ensures forall j :: j in inodes && j != i ==>
              |inodes[j].addrs| == NDIRECT + 1 && Contents(d', inodes'[j]) == Contents(d, inodes[j])
  {
    hide BitmapExact, Geometry;
    forall j, p: nat | j in inodes && j != i ensures Slot(d', inodes[j], p) == Slot(d, inodes[j], p) {
      SlotInRange(sb, d, inodes, owner, {}, j, NDIRECT);
    }
    hide Slot;
    forall j | j in inodes && j != i
      ensures |inodes[j].addrs| == NDIRECT + 1 && Contents(d', inodes'[j]) == Contents(d, inodes[j])
    {
      forall k: nat ensures FileByte(d', inodes[j], k) == FileByte(d, inodes[j], k) {
        SlotInRange(sb, d, inodes, owner, {}, j, DataPos(k / BSIZE));
      }
      SameContents(d, inodes[j], d', inodes[j]);
    }
  }

  lemma DisownedTwice(owner: Owners, i: nat, lo: nat, mid: nat, hi: nat)
    requires lo <= mid <= hi
    ensures Disowned(Disowned(owner, i, lo, mid), i, mid, hi) == Disowned(owner, i, lo, hi)
  {
  }

  lemma EmptyInodeOwnsNothing(sb: Super, d: Disk, inodes: Inodes, owner: Owners, i: nat)
    requires Own(sb, d, inodes, owner, {}) && i in inodes && inodes[i].addrs == seq(NDIRECT + 1, _ => 0)
    ensures Disowned(owner, i, NDIRECT, MAXFILE + 1) == owner
  {
    hide BitmapExact;
    forall b | b in owner ensures owner[b].inum != i {
      assert Slot(d, inodes[owner[b].inum], owner[b].p) == b;
    }
  }

  lemma BitmapIs(sb: Super, d: Disk, inodes: Inodes, owner: Owners)
    requires Own(sb, d, inodes, owner, {})
    ensures forall b: nat :: b < sb.size ==>
              BitmapBlock(sb, b) < |d| && (Used(sb, d, b) <==> b < sb.nmeta || b in owner)
  {
  }

  // One turn of readi's loop copies the next bytes of the file.
  lemma ReadTurn(d: Disk, ip: Inode, off: nat, m: nat, blk: nat)
    requires |ip.addrs| == NDIRECT + 1 && 0 < m <= BSIZE - off % BSIZE && off + m <= ip.size
    requires blk == Slot(d, ip, DataPos(off / BSIZE)) && 0 < blk < |d|
    ensures d[blk][off % BSIZE..off % BSIZE + m] == Contents(d, ip)[off..off + m]
  {
    ChunkBytes(d, ip, off, m, blk);
    var a, c := d[blk][off % BSIZE..off % BSIZE + m], Contents(d, ip)[off..off + m];
    forall x | 0 <= x < m ensures a[x] == c[x] {
      assert FileByte(d, ip, off + x) == d[blk][(off + x) % BSIZE];
    }
  }

  lemma MappedAt(d: Disk, ip: Inode, off: nat)
    requires |ip.addrs| == NDIRECT + 1 && MappedTo(d, ip, ip.size) && off < ip.size
    ensures Slot(d, ip, DataPos(off / BSIZE)) != 0
  {
    assert off / BSIZE * BSIZE < ip.size;
  }

  lemma RetypeKeeps(sb: Super, d: Disk, inodes: Inodes, i: nat, ip: Inode)
    requires HoleFree(d, inodes) && Synced(sb, d, inodes, {}) && i in inodes && ip == inodes[i].(kind := ip.kind)
    ensures HoleFree(d, inodes[i := ip]) && Synced(sb, d, inodes[i := ip], {i})
    ensures Contents(d, ip) == Contents(d, inodes[i])
  {
    hide Dinode, FileByte;
    ResizeBytes(d, inodes[i], ip);
    SameContents(d, inodes[i], d, ip);
    hide Slot;
    SyncedKept(sb, d, inodes, d, inodes[i := ip], i);
  }

  lemma InRange(off: nat)
    requires off < MAXFILE * BSIZE
    ensures off / BSIZE < MAXFILE
  {
  }
}
