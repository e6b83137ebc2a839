/** mkfs/mkfs.c: the image the kernel first boots from. Blocks are handed out by counting up; the
    bitmap is written once, at the end.

    Until then the file system's invariant is stated of the image with the bitmap it would get now. */
module MkFs {
  import opened Machine
  import opened FsLayout
  import opened FsOwnership
  import opened FsContents
  import L = LogFormat

  const FSSIZE: nat := 1000
  const NINODEBLOCKS: nat := 200 / IPB + 1

  /** The superblock mkfs writes: boot, super, log, inode and bitmap blocks, then data. */
  const SB: Super := Super(FSSIZE, 2 + LOGSIZE + NINODEBLOCKS + 1, 2 + LOGSIZE, 2 + LOGSIZE + NINODEBLOCKS)

  const LOG: L.Layout := L.Layout(2, LOGSIZE)

  /** struct superblock: magic, size, nblocks, ninodes, nlog, logstart, inodestart, bmapstart. */
  const SUPER_WORDS: seq<uint32> :=
    [0x1020_3040, FSSIZE, FSSIZE - SB.nmeta, 200, LOG.size, LOG.start, SB.inodestart, SB.bmapstart]

  const ROOTINO: nat := 1

  predicate Blank(b: Block) {
    b == ZERO_BLOCK
  }

  // ----- The bitmap block -----

  /** The bitmap block whose first n bits are set. */
  ghost function FirstBits(n: nat): Block
    requires n <= BPB
  {
    if n == 0 then ZERO_BLOCK else SetBit(FirstBits(n - 1), n - 1)
  }

  /** The block with bit i set. */
  function SetBit(b: Block, i: nat): Block
    requires i < BPB
  {
    b[i / 8 := PutBitByte(b[i / 8], i % 8, true)]
  }

  lemma {:induction false} FirstBitsAt(n: nat, i: nat)
    requires n <= BPB && i < BPB
    ensures Bit(FirstBits(n)[i / 8], i % 8) <==> i < n
  {
    if n == 0 {
      ZeroBits(i % 8);
    } else {
      FirstBitsAt(n - 1, i);
      if (n - 1) / 8 == i / 8 {
        PutBitAt(FirstBits(n - 1)[i / 8], (n - 1) % 8, true, i % 8);
      }
    }
  }

  lemma {:induction false} ZeroBits(k: nat)
    ensures !Bit(0, k)
  {
    if k > 0 {
      ZeroBits(k - 1);
    }
  }

  // ----- The image as it will be -----

  /** The image with the bitmap balloc(freeblock) would write. */
  ghost function Picture(disk: Disk, freeblock: nat): (d: Disk)
    requires |disk| == SB.size && freeblock <= SB.size
    ensures |d| == |disk|
  {
    disk[SB.bmapstart := FirstBits(freeblock)]
  }

  /** The sector the kernel reads the layout from. */
  function SuperBlock(): Block {
    PutWords(ZERO_BLOCK, 0, SUPER_WORDS)
  }

  /** Word by word, the superblock says where everything is. */
  lemma SuperSays()
    ensures Word(SuperBlock(), 0) == 0x1020_3040 && Word(SuperBlock(), 1) == SB.size == 1000
    ensures Word(SuperBlock(), 2) + SB.nmeta == SB.size && Word(SuperBlock(), 3) == 200
    ensures Word(SuperBlock(), 4) == LOG.size == LOGSIZE && Word(SuperBlock(), 5) == LOG.start == 2
    ensures Word(SuperBlock(), 6) == SB.inodestart == LOG.start + LOG.size
    ensures Word(SuperBlock(), 7) == SB.bmapstart == SB.inodestart + 200 / IPB + 1 && SB.nmeta == SB.bmapstart + 1
  {
    SuperWord(0);
    SuperWord(1);
    SuperWord(2);
    SuperWord(3);
    SuperWord(4);
    SuperWord(5);
    SuperWord(6);
    SuperWord(7);
    hide Word, SuperBlock;
    assert SB.nmeta == 46 && SB.inodestart == 32 && SB.bmapstart == 45;
  }

  lemma SuperWord(k: nat)
    requires k < 8
    ensures Word(SuperBlock(), k) == SUPER_WORDS[k]
  {
    hide Word, PutWord;
    assert Word(SuperBlock(), 0 + k) == SUPER_WORDS[k];
  }

  /** Boot block, super block and an empty log. */
  ghost predicate Front(disk: Disk)
    requires |disk| == SB.size
  {
    forall b: nat :: b < SB.inodestart ==> disk[b] == if b == 1 then SuperBlock() else ZERO_BLOCK
  }

  lemma FrontKept(disk: Disk, b: nat, data: Block)
    requires |disk| == SB.size && Front(disk) && SB.inodestart <= b < |disk|
    ensures Front(disk[b := data])
  {
  }

  ghost predicate Laid(disk: Disk, freeblock: nat, inodes: Inodes, owner: Owners) {
    && |disk| == SB.size && SB.nmeta <= freeblock <= SB.size && Front(disk)
    && disk[SB.bmapstart] == ZERO_BLOCK
    && (forall b: nat :: freeblock <= b < |disk| ==> Blank(disk[b]))
    && Own(SB, Picture(disk, freeblock), inodes, owner, {})
  }

  // Writing an inode block.
  lemma InodeLaid(disk: Disk, freeblock: nat, inodes: Inodes, owner: Owners, b: nat, data: Block)
    requires Laid(disk, freeblock, inodes, owner) && SB.inodestart <= b < SB.bmapstart
    requires Own(SB, Picture(disk, freeblock)[b := data], inodes, owner, {})
    ensures Laid(disk[b := data], freeblock, inodes, owner)
    ensures Picture(disk[b := data], freeblock) == Picture(disk, freeblock)[b := data]
  {
    hide Own, FirstBits;
    FrontKept(disk, b, data);
    assert Picture(disk[b := data], freeblock) == Picture(disk, freeblock)[b := data];
  }

  lemma LaidShape(disk: Disk, freeblock: nat, inodes: Inodes, owner: Owners)
    requires Laid(disk, freeblock, inodes, owner)
    ensures |disk| == SB.size && SB.nmeta <= freeblock <= SB.size
    ensures Own(SB, Picture(disk, freeblock), inodes, owner, {}) && forall i :: i in inodes ==>
              |inodes[i].addrs| == NDIRECT + 1
    ensures forall b: nat :: b < SB.bmapstart ==> Picture(disk, freeblock)[b] == disk[b]
  {
  }

  lemma LaidFront(disk: Disk, freeblock: nat, inodes: Inodes, owner: Owners)
    requires Laid(disk, freeblock, inodes, owner)
    ensures |disk| == SB.size && Front(disk)
  {
  }

  // The kernel finds nothing to recover.
  lemma FrontIsClean(disk: Disk)
    requires |disk| == SB.size && Front(disk)
    ensures disk[1] == SuperBlock() && L.Clean(LOG, disk)
  {
    hide SuperBlock;
    assert disk[LOG.start] == ZERO_BLOCK;
    assert Word(ZERO_BLOCK, 0) == 0;
    assert L.Targets(ZERO_BLOCK) == [];
  }

  lemma PictureUsed(disk: Disk, freeblock: nat, b: nat)
    requires |disk| == SB.size && freeblock <= SB.size && b < SB.size
    ensures BitmapBlock(SB, b) == SB.bmapstart < |disk|
    ensures Used(SB, Picture(disk, freeblock), b) <==> b < freeblock
  {
    hide Bit, FirstBits;
    FirstBitsAt(freeblock, b);
  }

  // Counting up is a block allocation on the picture.
  lemma PictureAlloc(disk: Disk, freeblock: nat)
    requires |disk| == SB.size && SB.nmeta <= freeblock < SB.size && disk[freeblock] == ZERO_BLOCK
    ensures BitmapBlock(SB, freeblock) == SB.bmapstart < |disk|
    ensures Mark(SB, Picture(disk, freeblock), freeblock, true)[freeblock := ZERO_BLOCK] == Picture(disk, freeblock + 1)
  {
    hide PutBitByte;
    assert FirstBits(freeblock + 1) == SetBit(FirstBits(freeblock), freeblock);
  }

  // ----- What a new block changes -----

  /** Apart from data block bn of inode i and, beyond the direct ones, the indirect block, every position holds
      what it held. */
  ghost predicate OnlyMaps(d: Disk, inodes: Inodes, d': Disk, inodes': Inodes, i: nat, bn: nat) {
    && inodes'.Keys == inodes.Keys &&
      (forall j :: j in inodes ==> |inodes[j].addrs| == |inodes'[j].addrs| == NDIRECT + 1)
    && (forall j, q: nat :: j in inodes && !(j == i && (q == DataPos(bn) || (q == NDIRECT && bn >= NDIRECT))) ==>
          Slot(d', inodes'[j], q) == Slot(d, inodes[j], q))
  }

  lemma AttachAddrSlots(d: Disk, inodes: Inodes, i: nat, p: nat, r: uint32, bn: nat)
    requires (forall j :: j in inodes ==> |inodes[j].addrs| == NDIRECT + 1) && i in inodes
    requires p <= NDIRECT && inodes[i].addrs[p] == 0 && r < |d| && d[r] == ZERO_BLOCK
    requires (p == DataPos(bn) || (p == NDIRECT && bn >= NDIRECT))
    ensures OnlyMaps(d, inodes, d, inodes[i := inodes[i].(addrs := inodes[i].addrs[p := r])], i, bn)
    ensures forall q: nat :: q != p ==>
              Slot(d, inodes[i].(addrs := inodes[i].addrs[p := r]), q) == Slot(d, inodes[i], q)
  {
    hide Word;
    var ip' := inodes[i].(addrs := inodes[i].addrs[p := r]);
    forall q: nat | q != p ensures Slot(d, ip', q) == Slot(d, inodes[i], q) {
      if p == NDIRECT && NDIRECT < q <= MAXFILE {
        ZeroWords(q - NDIRECT - 1);
      }
    }
  }

  lemma AttachEntrySlots(sb: Super, d: Disk, inodes: Inodes, owner: Owners, loose: set<nat>, i: nat, bn: nat, r: uint32)
    requires Own(sb, d, inodes, owner, loose) && i in inodes && NDIRECT <= bn < MAXFILE
    requires 0 < inodes[i].addrs[NDIRECT] < |d|
    ensures var ind := inodes[i].addrs[NDIRECT];
            OnlyMaps(d, inodes, d[ind := PutWord(d[ind], bn - NDIRECT, r)], inodes, i, bn)
  {
    hide Word, PutWord;
    var ind := inodes[i].addrs[NDIRECT];
    var d' := d[ind := PutWord(d[ind], bn - NDIRECT, r)];
    assert Slot(d, inodes[i], NDIRECT) == ind;
    forall j, q: nat | j in inodes && !(j == i && (q == DataPos(bn) || (q == NDIRECT && bn >= NDIRECT)))
      ensures Slot(d', inodes[j], q) == Slot(d, inodes[j], q)
    {
      assert Slot(d, inodes[j], NDIRECT) == inodes[j].addrs[NDIRECT];
    }
  }

  /** Data block bn is mapped exactly when the first `size` bytes reach it, and the indirect block exactly when
      they reach beyond the direct ones. */
  ghost predicate ExactTo(d: Disk, ip: Inode, size: nat)
    requires |ip.addrs| == NDIRECT + 1
  {
    && (forall bn: nat :: Slot(d, ip, DataPos(bn)) != 0 <==> bn * BSIZE < size)
    && (Slot(d, ip, NDIRECT) != 0 <==> NDIRECT * BSIZE < size)
  }

  ghost predicate AllExact(d: Disk, inodes: Inodes, but: set<nat>) {
    forall j :: j in inodes ==>
      |inodes[j].addrs| == NDIRECT + 1 && (j !in but ==> ExactTo(d, inodes[j], inodes[j].size))
  }

  // ----- How many blocks a file takes -----

  function DataBlocks(size: nat): nat {
    (size + BSIZE - 1) / BSIZE
  }

  /** The blocks of a file of `size` bytes, the indirect one included. */
  function BlocksFor(size: nat): nat {
    DataBlocks(size) + (if DataBlocks(size) > NDIRECT then 1 else 0)
  }

  /** n more bytes fit a file of `size` bytes, with freeblock where it is. */
  predicate Room(freeblock: nat, size: nat, n: nat) {
    size + n <= MAXFILE * BSIZE && freeblock + BlocksFor(size + n) - BlocksFor(size) <= SB.size
  }

  /** And where freeblock is then. */
  function Taken(freeblock: nat, size: nat, n: nat): int {
    freeblock + BlocksFor(size + n) - BlocksFor(size)
  }

  lemma BlocksGrow(a: nat, b: nat)
    requires a <= b
    ensures BlocksFor(a) <= BlocksFor(b)
  {
  }

  /** What iappend takes from freeblock for the chunk at offset `off`. */
  ghost function Needs(d: Disk, ip: Inode, bn: nat): nat
    requires |ip.addrs| == NDIRECT + 1
  {
    (if Slot(d, ip, DataPos(bn)) == 0 then 1 else 0) + (if bn >= NDIRECT && ip.addrs[NDIRECT] == 0 then 1 else 0)
  }

  lemma DirectSlot(d: Disk, ip: Inode, p: nat)
    requires |ip.addrs| == NDIRECT + 1
    ensures p < NDIRECT ==> Slot(d, ip, p) == ip.addrs[p] && DataPos(p) == p
  {
  }

  lemma NeedsTurn(d: Disk, ip: Inode, off: nat, m: nat)
    requires |ip.addrs| == NDIRECT + 1 && ExactTo(d, ip, off) && 0 < m <= BSIZE - off % BSIZE
    ensures BlocksFor(off + m) == BlocksFor(off) + Needs(d, ip, off / BSIZE)
  {
    var bn := off / BSIZE;
    assert Slot(d, ip, DataPos(bn)) != 0 <==> bn * BSIZE < off;
    assert Slot(d, ip, NDIRECT) == ip.addrs[NDIRECT];
    hide Slot, ExactTo;
    CountsTurn(off, m);
  }

  lemma CountsTurn(off: nat, m: nat)
    requires 0 < m <= BSIZE - off % BSIZE
    ensures DataBlocks(off + m) == off / BSIZE + 1
    ensures DataBlocks(off) == if off / BSIZE * BSIZE < off then off / BSIZE + 1 else off / BSIZE
  {
  }

  lemma ExactTurn(d: Disk, inodes: Inodes, d': Disk, inodes': Inodes, i: nat, off: nat, m: nat)
    requires OnlyMaps(d, inodes, d', inodes', i, off / BSIZE) && i in inodes
    requires (forall j :: j in inodes && j != i ==> inodes'[j] == inodes[j])
    requires ExactTo(d, inodes[i], off) && AllExact(d, inodes, {i})
    requires 0 < m <= BSIZE - off % BSIZE && Slot(d', inodes'[i], DataPos(off / BSIZE)) != 0
    ensures ExactTo(d', inodes'[i], off + m) && AllExact(d', inodes', {i})
  {
    hide Slot;
    forall bn: nat ensures Slot(d', inodes'[i], DataPos(bn)) != 0 <==> bn * BSIZE < off + m {
      assert Slot(d, inodes[i], DataPos(bn)) != 0 <==> bn * BSIZE < off;
    }
    EntryNeedsTable(d', inodes'[i], off / BSIZE);
    forall j | j in inodes' && j != i ensures ExactTo(d', inodes'[j], inodes'[j].size) {
      assert ExactTo(d, inodes[j], inodes[j].size);
    }
  }

  /** What finding or making the block for data block bn of inode i may change. */
  ghost predicate Mapping(d: Disk, inodes: Inodes, d': Disk, inodes': Inodes, i: nat, bn: nat) {
    && i in inodes && i in inodes' && inodes' == inodes[i := inodes'[i]]
    && OnlyMaps(d, inodes, d', inodes', i, bn) && SlotsKept(d, inodes, d', inodes')
    && SameBytes(d, inodes, d', inodes') && LowKept(SB, d, d')
  }

  lemma MappingTrans(d: Disk, inodes: Inodes, d1: Disk, inodes1: Inodes, d2: Disk, inodes2: Inodes, i: nat, bn: nat)
    requires Mapping(d, inodes, d1, inodes1, i, bn) && Mapping(d1, inodes1, d2, inodes2, i, bn)
    ensures Mapping(d, inodes, d2, inodes2, i, bn)
  {
    hide Slot, FileByte;
    SlotsKeptTrans(d, inodes, d1, inodes1, d2, inodes2);
    SameBytesTrans(d, inodes, d1, inodes1, d2, inodes2);
  }

  lemma MappingNone(sb: Super, d: Disk, inodes: Inodes, owner: Owners, i: nat, bn: nat)
    requires Own(sb, d, inodes, owner, {}) && i in inodes
    ensures Mapping(d, inodes, d, inodes, i, bn)
  {
    hide Slot, FileByte;
  }

  // Counting up by itself.
  lemma TakeBlock(disk: Disk, freeblock: nat, inodes: Inodes, owner: Owners, i: nat, bn: nat)
    requires Laid(disk, freeblock, inodes, owner) && freeblock < SB.size && i in inodes
    ensures Own(SB, Picture(disk, freeblock + 1), inodes, owner, {freeblock})
    ensures Mapping(Picture(disk, freeblock), inodes, Picture(disk, freeblock + 1), inodes, i, bn)
    ensures |inodes[i].addrs| == NDIRECT + 1
    ensures forall q: nat ::
              Slot(Picture(disk, freeblock + 1), inodes[i], q) == Slot(Picture(disk, freeblock), inodes[i], q)
  {
    hide FileByte, Slot, Bit, Own, FirstBits;
    var d := Picture(disk, freeblock);
    assert Blank(disk[freeblock]);
    PictureAlloc(disk, freeblock);
    PictureUsed(disk, freeblock, freeblock);
    AllocKeeps(SB, d, inodes, owner, {}, freeblock);
    assert {} + {freeblock} == {freeblock};
    AllocSameBytes(SB, d, inodes, owner, {}, freeblock);
    AllocGrew(SB, d, inodes, owner, {}, freeblock);
    GrewKeepsSlots(d, inodes, Picture(disk, freeblock + 1), inodes);
    OwnShape(SB, d, inodes, owner, {});
    forall j, q: nat | j in inodes ensures Slot(Picture(disk, freeblock + 1), inodes[j], q) == Slot(d, inodes[j], q) {
      AllocSlot(SB, d, inodes, owner, freeblock, j, q);
    }
  }

  // The next block becomes address p of the inode.
  lemma TakeAddr(disk: Disk, freeblock: nat, inodes: Inodes, owner: Owners, i: nat, p: nat, bn: nat)
    requires Laid(disk, freeblock, inodes, owner) && freeblock < SB.size && i in inodes
    requires p <= NDIRECT && (p == DataPos(bn) || (p == NDIRECT && bn >= NDIRECT)) && inodes[i].addrs[p] == 0
    ensures var inodes' := inodes[i := inodes[i].(addrs := inodes[i].addrs[p := freeblock])];
            && Laid(disk, freeblock + 1, inodes', owner[freeblock := Owner(i, p)])
            && Mapping(Picture(disk, freeblock), inodes, Picture(disk, freeblock + 1), inodes', i, bn)
            && |inodes[i].addrs| == NDIRECT + 1
            && forall q: nat :: q != p ==>
                 Slot(Picture(disk, freeblock + 1), inodes'[i], q) == Slot(Picture(disk, freeblock), inodes[i], q)
  {
    hide FileByte, Slot, Own, FirstBits;
    TakeBlock(disk, freeblock, inodes, owner, i, bn);
    var d1 := Picture(disk, freeblock + 1);
    var inodes' := inodes[i := inodes[i].(addrs := inodes[i].addrs[p := freeblock])];
    assert Blank(disk[freeblock]) && d1[freeblock] == disk[freeblock];
    OwnShape(SB, d1, inodes, owner, {freeblock});
    AttachAddrKeeps(SB, d1, inodes, owner, {freeblock}, i, p, freeblock);
    AttachAddrSameBytes(SB, d1, inodes, owner, {freeblock}, i, p, freeblock);
    AttachAddrGrew(SB, d1, inodes, owner, {freeblock}, i, p, freeblock);
    GrewKeepsSlots(d1, inodes, d1, inodes');
    AttachAddrSlots(d1, inodes, i, p, freeblock, bn);
    assert {freeblock} - {freeblock} == {};
    MappingTrans(Picture(disk, freeblock), inodes, d1, inodes, d1, inodes', i, bn);
  }

  // The next block is entered in the indirect block.
  lemma TakeEntry(disk: Disk, freeblock: nat, inodes: Inodes, owner: Owners, i: nat, bn: nat)
    requires Laid(disk, freeblock, inodes, owner) && freeblock < SB.size && i in inodes && NDIRECT <= bn < MAXFILE
    requires |inodes[i].addrs| == NDIRECT + 1 && 0 < inodes[i].addrs[NDIRECT] < SB.size
    requires Slot(disk, inodes[i], bn + 1) == 0
    ensures var ind := inodes[i].addrs[NDIRECT];
            var disk' := disk[ind := PutWord(disk[ind], bn - NDIRECT, freeblock)];
            && Laid(disk', freeblock + 1, inodes, owner[freeblock := Owner(i, bn + 1)])
            && Mapping(Picture(disk, freeblock), inodes, Picture(disk', freeblock + 1), inodes, i, bn)
  {
    hide FileByte, Own, FirstBits, PutWord, Word;
    TakeBlock(disk, freeblock, inodes, owner, i, bn);
    var d, d1 := Picture(disk, freeblock), Picture(disk, freeblock + 1);
    var ind := inodes[i].addrs[NDIRECT];
    SlotInRange(SB, d1, inodes, owner, {freeblock}, i, NDIRECT);
    TableAtMost(disk, freeblock, inodes, owner, i);
    assert d1[ind] == disk[ind];
    assert Slot(d1, inodes[i], bn + 1) == Slot(disk, inodes[i], bn + 1);
    assert Blank(disk[freeblock]) && d1[freeblock] == disk[freeblock];
    var d2 := d1[ind := PutWord(d1[ind], bn - NDIRECT, freeblock)];
    var disk' := disk[ind := PutWord(disk[ind], bn - NDIRECT, freeblock)];
    assert d2 == Picture(disk', freeblock + 1);
    hide Slot;
    AttachEntryKeeps(SB, d1, inodes, owner, {freeblock}, i, bn + 1, freeblock);
    AttachEntrySameBytes(SB, d1, inodes, owner, {freeblock}, i, bn + 1, freeblock);
    AttachEntryGrew(SB, d1, inodes, owner, {freeblock}, i, bn + 1, freeblock);
    GrewKeepsSlots(d1, inodes, d2, inodes);
    AttachEntrySlots(SB, d1, inodes, owner, {freeblock}, i, bn, freeblock);
    assert {freeblock} - {freeblock} == {};
    MappingTrans(d, inodes, d1, inodes, d2, inodes, i, bn);
  }

  // Every block an inode names has been handed out.
  lemma TableAtMost(disk: Disk, freeblock: nat, inodes: Inodes, owner: Owners, i: nat)
    requires Laid(disk, freeblock, inodes, owner) && i in inodes
    ensures |inodes[i].addrs| == NDIRECT + 1
    ensures forall p: nat :: Slot(Picture(disk, freeblock), inodes[i], p) != 0 ==>
              SB.nmeta <= Slot(Picture(disk, freeblock), inodes[i], p) < freeblock
  {
    hide Bit, FirstBits, Word;
    var d := Picture(disk, freeblock);
    forall p: nat | Slot(d, inodes[i], p) != 0 ensures SB.nmeta <= Slot(d, inodes[i], p) < freeblock {
      SlotInRange(SB, d, inodes, owner, {}, i, p);
      PictureUsed(disk, freeblock, Slot(d, inodes[i], p));
    }
  }

  // Copying bytes into the data block of inode i at offset off.
  lemma ChunkLaid(disk: Disk, freeblock: nat, inodes: Inodes, owner: Owners, i: nat, off: nat, chunk: seq<byte>, x: nat)
    requires Laid(disk, freeblock, inodes, owner) && i in inodes && |inodes[i].addrs| == NDIRECT + 1
    requires off / BSIZE < MAXFILE
    requires 0 < |chunk| <= BSIZE - off % BSIZE && x == Slot(Picture(disk, freeblock), inodes[i], DataPos(off / BSIZE))
    requires x != 0
    ensures SB.nmeta <= x < freeblock
    ensures var disk' := disk[x := Splice(disk[x], off % BSIZE, chunk)];
            var d, d' := Picture(disk, freeblock), Picture(disk', freeblock);
            && Laid(disk', freeblock, inodes, owner)
            && OnlyMaps(d, inodes, d', inodes, i, off / BSIZE) && SlotsKept(d, inodes, d', inodes) && LowKept(SB, d, d')
            && OnlyBytes(d, inodes, d', inodes, i, off, off + |chunk|)
            && (forall k: nat :: off <= k < off + |chunk| ==> FileByte(d', inodes[i], k) == chunk[k - off])
            && Slot(d', inodes[i], DataPos(off / BSIZE)) == x
  {
    hide FirstBits, Slot, Own, FileByte;
    TableAtMost(disk, freeblock, inodes, owner, i);
    var d := Picture(disk, freeblock);
    var buf := Splice(disk[x], off % BSIZE, chunk);
    DataBlockKeeps(SB, d, inodes, owner, i, off / BSIZE, x, buf);
    DataBlockWrite(SB, d, inodes, owner, i, off / BSIZE, x, buf);
    ChunkBytes(d, inodes[i], off, |chunk|, x);
    assert d[x := buf] == Picture(disk[x := buf], freeblock);
  }

  /** A turn of iappend's loop so far: `tot` bytes of `data` have gone to the end of file i. */
  ghost predicate Appending(d0: Disk, inodes0: Inodes, d: Disk, inodes: Inodes, i: nat, off: nat, data: seq<byte>,
                            tot: nat) {
    && Wrote(d0, inodes0, d, inodes, i, off, data, tot) && LowKept(SB, d0, d)
    && inodes == inodes0[i := inodes[i]] && AllExact(d, inodes, {i}) && ExactTo(d, inodes[i], off + tot)
  }

  lemma AppendStart(d: Disk, inodes: Inodes, i: nat, data: seq<byte>)
    requires AllExact(d, inodes, {}) && i in inodes
    ensures Appending(d, inodes, d, inodes, i, inodes[i].size, data, 0)
  {
    hide Slot, FileByte;
    assert ExactTo(d, inodes[i], inodes[i].size);
    WroteStart(d, inodes, i, inodes[i].size, data);
  }

  lemma OnlyMapsTrans(d: Disk, inodes: Inodes, d1: Disk, inodes1: Inodes, d2: Disk, inodes2: Inodes, i: nat, bn: nat)
    requires OnlyMaps(d, inodes, d1, inodes1, i, bn) && OnlyMaps(d1, inodes1, d2, inodes2, i, bn)
    ensures OnlyMaps(d, inodes, d2, inodes2, i, bn)
  {
    hide Slot;
  }

  lemma AppendTurn(d0: Disk, inodes0: Inodes, d: Disk, inodes: Inodes, d1: Disk, inodes1: Inodes, d2: Disk,
                   i: nat, off: nat, data: seq<byte>, tot: nat, m: nat)
    requires Appending(d0, inodes0, d, inodes, i, off, data, tot)
    requires 0 < m <= BSIZE - (off + tot) % BSIZE && tot + m <= |data|
    requires Mapping(d, inodes, d1, inodes1, i, (off + tot) / BSIZE)
    requires OnlyMaps(d1, inodes1, d2, inodes1, i, (off + tot) / BSIZE) && SlotsKept(d1, inodes1, d2, inodes1)
    requires LowKept(SB, d1, d2)
    requires OnlyBytes(d1, inodes1, d2, inodes1, i, off + tot, off + tot + m)
    requires forall k: nat :: off + tot <= k < off + tot + m ==>
               FileByte(d2, inodes1[i], k) == data[tot..tot + m][k - (off + tot)]
    requires Slot(d2, inodes1[i], DataPos((off + tot) / BSIZE)) != 0
    ensures Appending(d0, inodes0, d2, inodes1, i, off, data, tot + m)
  {
    hide Slot, FileByte, Wrote, ExactTo;
    OnlyMapsTrans(d, inodes, d1, inodes1, d2, inodes1, i, (off + tot) / BSIZE);
    ExactTurn(d, inodes, d2, inodes1, i, off + tot, m);
    SlotsKeptTrans(d, inodes, d1, inodes1, d2, inodes1);
    assert OnlyBytes(d, inodes, d1, inodes1, i, off + tot, off + tot);
    OnlyBytesTrans(d, inodes, d1, inodes1, d2, inodes1, i, off + tot, off + tot, off + tot + m);
    WroteTurn(d0, inodes0, d, inodes, d2, inodes1, i, off, data, tot, m);
  }

  lemma AppendNeeds(d0: Disk, inodes0: Inodes, d: Disk, inodes: Inodes, i: nat, off: nat, data: seq<byte>, tot: nat,
                    m: nat)
    requires Appending(d0, inodes0, d, inodes, i, off, data, tot) && 0 < m <= BSIZE - (off + tot) % BSIZE
    ensures BlocksFor(off + tot + m) == BlocksFor(off + tot) + Needs(d, inodes[i], (off + tot) / BSIZE)
    ensures (off + tot) / BSIZE >= MAXFILE ==> off + tot >= MAXFILE * BSIZE
  {
    hide Slot, BlocksFor, Needs;
    NeedsTurn(d, inodes[i], off + tot, m);
  }

  lemma GrownLaid(disk: Disk, freeblock: nat, inodes: Inodes, owner: Owners, i: nat, size: uint32)
    requires Laid(disk, freeblock, inodes, owner) && i in inodes
    ensures Laid(disk, freeblock, inodes[i := inodes[i].(size := size)], owner)
  {
    hide Own, FirstBits;
    FieldsKeep(SB, Picture(disk, freeblock), inodes, owner, {}, i, inodes[i].(size := size));
  }

  // Once the size is stored, the file has grown by exactly `data`.
  lemma AppendDone(d0: Disk, inodes0: Inodes, d: Disk, inodes: Inodes, i: nat, data: seq<byte>, size: uint32)
    requires AllExact(d0, inodes0, {}) && Synced(SB, d0, inodes0, {}) && i in inodes0
    requires size == inodes0[i].size + |data|
    requires Appending(d0, inodes0, d, inodes, i, inodes0[i].size, data, |data|)
    ensures var inodes' := inodes[i := inodes[i].(size := size)];
            && AllExact(d, inodes', {}) && Synced(SB, d, inodes', {i})
            && Contents(d, inodes'[i]) == Contents(d0, inodes0[i]) + data
            && (forall j :: j in inodes0 && j != i ==>
                inodes'[j] == inodes0[j] && Contents(d, inodes'[j]) == Contents(d0, inodes0[j]))
  {
    hide Slot, FileByte;
    var ip' := inodes[i].(size := size);
    ResizeBytes(d, inodes[i], ip');
    ContentsOverwritten(d0, inodes0[i], d, ip', inodes0[i].size, data);
    assert Overwrite(Contents(d0, inodes0[i]), inodes0[i].size, data) == Contents(d0, inodes0[i]) + data;
    AllOthersUntouched(d0, inodes0, d, inodes, i, inodes0[i].size, size);
    SyncedKept(SB, d0, inodes0, d, inodes[i := ip'], i);
  }

  lemma ExactKept(d: Disk, d': Disk, inodes: Inodes, but: set<nat>)
    requires AllExact(d, inodes, but)
    requires forall i, p: nat :: i in inodes ==> Slot(d', inodes[i], p) == Slot(d, inodes[i], p)
    ensures AllExact(d', inodes, but)
  {
    hide Slot;
    forall j | j in inodes && j !in but ensures ExactTo(d', inodes[j], inodes[j].size) {
      assert ExactTo(d, inodes[j], inodes[j].size);
    }
  }

  // An inode without blocks joins.
  lemma NewInode(disk: Disk, freeblock: nat, inodes: Inodes, owner: Owners, i: nat, din: Inode)
    requires Laid(disk, freeblock, inodes, owner) && Synced(SB, Picture(disk, freeblock), inodes, {})
    requires AllExact(Picture(disk, freeblock), inodes, {}) && i !in inodes && i < NINODEBLOCKS * IPB
    requires din.size == 0 && din.addrs == seq(NDIRECT + 1, _ => 0)
    ensures Laid(disk, freeblock, inodes[i := din], owner)
    ensures Synced(SB, Picture(disk, freeblock), inodes[i := din], {i})
    ensures AllExact(Picture(disk, freeblock), inodes[i := din], {})
  {
    var d := Picture(disk, freeblock);
    NoBlocks(d, din);
    hide Slot, Picture;
    NewOwned(d, inodes, owner, i, din);
    NewSynced(d, inodes, i, din);
    var inodes' := inodes[i := din];
    forall j | j in inodes' ensures ExactTo(d, inodes'[j], inodes'[j].size) {
      assert j != i ==> ExactTo(d, inodes[j], inodes[j].size);
    }
  }

  lemma NoBlocks(d: Disk, din: Inode)
    requires din.addrs == seq(NDIRECT + 1, _ => 0)
    ensures forall p: nat :: Slot(d, din, p) == 0
  {
  }

  lemma NewOwned(d: Disk, inodes: Inodes, owner: Owners, i: nat, din: Inode)
    requires Own(SB, d, inodes, owner, {}) && i !in inodes && |din.addrs| == NDIRECT + 1
    requires forall p: nat :: Slot(d, din, p) == 0
    ensures Own(SB, d, inodes[i := din], owner, {})
  {
    hide Slot, BitmapExact;
  }

  lemma NewSynced(d: Disk, inodes: Inodes, i: nat, din: Inode)
    requires Synced(SB, d, inodes, {}) && i !in inodes && i < NINODEBLOCKS * IPB
    ensures Synced(SB, d, inodes[i := din], {i})
  {
    hide Dinode, IBlock;
    IBlockHigh(i);
    forall j | j in inodes ensures SyncedAt(SB, d, inodes[i := din], j) {
      assert SyncedAt(SB, d, inodes, j);
    }
  }

  lemma IBlockHigh(i: nat)
    requires i < NINODEBLOCKS * IPB
    ensures IBlock(SB, i) < SB.bmapstart
  {
    assert NINODEBLOCKS == 13 && IPB == 16;
  }

  lemma EmptyFile(d: Disk, din: Inode)
    requires |din.addrs| == NDIRECT + 1 && din.size == 0
    ensures Contents(d, din) == []
  {
  }

  lemma IBlockInRange(d: Disk, inodes: Inodes, i: nat)
    requires Synced(SB, d, inodes, {i}) && i in inodes
    ensures SB.inodestart <= IBlock(SB, i) < SB.bmapstart
  {
    hide SyncedAt, IBlock;
    IBlockLow(SB, i);
  }

  lemma IBlockLow(sb: Super, i: nat)
    ensures sb.inodestart <= IBlock(sb, i)
  {
  }

  lemma SizeBound(d: Disk, inodes: Inodes, i: nat, size: nat)
    requires AllExact(d, inodes, {}) && i in inodes && size == inodes[i].size
    ensures size <= MAXFILE * BSIZE
  {
    assert ExactTo(d, inodes[i], size);
    assert Slot(d, inodes[i], DataPos(MAXFILE)) == 0;
  }

  lemma EndOfBlock(off: nat, m: nat)
    requires off / BSIZE < MAXFILE && m <= BSIZE - off % BSIZE
    ensures off + m <= MAXFILE * BSIZE
  {
  }

  // ----- The whole image -----

  const DIRSIZ: nat := 14

  /** struct dirent */
  function Dirent(inum: nat, name: seq<byte>): (r: seq<byte>)
    requires inum < 0x1_0000
    ensures |r| == 2 + |name|
  {
    [inum % 0x100, inum / 0x100] + name
  }

  datatype Source = Source(name: seq<byte>, contents: seq<byte>)

  ghost predicate Named(files: seq<Source>) {
    |files| < 0xff00 && forall f :: 0 <= f < |files| ==> |files[f].name| == DIRSIZ
  }

  const DOT: seq<byte> := [46, 0, 0, 0, 0, 0, 0, 0, 0, 0, 0, 0, 0, 0]
  const DOTDOT: seq<byte> := [46, 46, 0, 0, 0, 0, 0, 0, 0, 0, 0, 0, 0, 0]

  /** The root directory once the first n files are entered; file f becomes inode f + 2. */
  ghost function RootBytes(files: seq<Source>, n: nat): (r: seq<byte>)
    requires n <= |files| && Named(files)
    ensures |r| == 16 * (n + 2)
  {
    if n == 0 then Dirent(ROOTINO, DOT) + Dirent(ROOTINO, DOTDOT)
    else RootBytes(files, n - 1) + Dirent(n + 1, files[n - 1].name)
  }

  /** Read as the kernel reads a directory, the root names itself twice and then each file with its inode. */
  lemma {:induction false} RootEntry(files: seq<Source>, n: nat, e: nat)
    requires n <= |files| && Named(files) && e < n + 2
    ensures var d := RootBytes(files, n)[16 * e..16 * e + 16];
            && d[0] as nat + 0x100 * d[1] as nat == (if e < 2 then 1 else e)
            && d[2..] == if e == 0 then DOT else if e == 1 then DOTDOT else files[e - 2].name
    decreases n
  {
    if n == 0 {
      Slices(Dirent(ROOTINO, DOT), Dirent(ROOTINO, DOTDOT), 0);
      DirentIs(ROOTINO, DOT);
      DirentIs(ROOTINO, DOTDOT);
    } else {
      Slices(RootBytes(files, n - 1), Dirent(n + 1, files[n - 1].name), if e <= n then 16 * e else 0);
      if e < n + 1 {
        RootEntry(files, n - 1, e);
      } else {
        DirentIs(n + 1, files[n - 1].name);
      }
    }
  }

  lemma Slices(a: seq<byte>, b: seq<byte>, i: nat)
    requires i + 16 <= |a| && |b| == 16
    ensures (a + b)[i..i + 16] == a[i..i + 16] && (a + b)[|a|..|a| + 16] == b
    ensures |a| == 16 ==> a[0..16] == a
  {
  }

  lemma DirentIs(inum: nat, name: seq<byte>)
    requires inum < 0x1_0000 && |name| == DIRSIZ
    ensures var d := Dirent(inum, name); d[0] as nat + 0x100 * d[1] as nat == inum && d[2..] == name
  {
  }

  /** The blocks the first n files and the root directory naming them take. */
  ghost function FileBlocks(files: seq<Source>, n: nat): nat
    requires n <= |files|
  {
    if n == 0 then 0 else FileBlocks(files, n - 1) + BlocksFor(|files[n - 1].contents|)
  }

  ghost function Need(files: seq<Source>, n: nat): nat
    requires n <= |files|
  {
    BlocksFor(16 * (n + 2)) + FileBlocks(files, n)
  }

  /** The first n files fit: their blocks, their inodes besides 0 and the root, and each by itself. */
  ghost predicate Fits(files: seq<Source>, n: nat)
    requires n <= |files|
  {
    && SB.nmeta + Need(files, n) <= SB.size && n + 2 <= NINODEBLOCKS * IPB
    && forall f :: 0 <= f < n ==> |files[f].contents| <= MAXFILE * BSIZE
  }

  lemma {:induction false} FitsFewer(files: seq<Source>, n: nat, m: nat)
    requires n <= m <= |files| && Fits(files, m)
    ensures Fits(files, n)
    decreases m
  {
    if n < m {
      hide BlocksFor;
      BlocksGrow(16 * (m + 1), 16 * (m + 2));
      FitsFewer(files, n, m - 1);
    }
  }

  lemma RootIsSmall(n: nat)
    requires n + 2 <= NINODEBLOCKS * IPB
    ensures 16 * (n + 2) <= MAXFILE * BSIZE
  {
    assert NINODEBLOCKS == 13 && IPB == 16;
  }

  // What one more file needs: its inode, room for its entry, and then room for its contents.
  lemma FitsNext(files: seq<Source>, n: nat)
    requires n < |files| && Fits(files, n)
    ensures var free := SB.nmeta + Need(files, n);
            var len := |files[n].contents|;
            && (Fits(files, n + 1) <==>
                  && n + 2 < NINODEBLOCKS * IPB && Room(free, 16 * (n + 2), 16)
                  && Taken(free, 16 * (n + 2), 16) >= 0 && Room(Taken(free, 16 * (n + 2), 16), 0, len))
            && (Fits(files, n + 1) ==> Taken(Taken(free, 16 * (n + 2), 16), 0, len) == SB.nmeta + Need(files, n + 1))
  {
    assert BlocksFor(0) == 0;
    BlocksGrow(16 * (n + 2), 16 * (n + 3));
    if n + 3 <= NINODEBLOCKS * IPB {
      RootIsSmall(n + 1);
    }
    hide BlocksFor;
  }

  ghost predicate Stored(d: Disk, inodes: Inodes, files: seq<Source>, n: nat) {
    && n <= |files| && (forall i :: i in inodes ==> |inodes[i].addrs| == NDIRECT + 1)
    && (forall i :: i in inodes <==> ROOTINO <= i < n + 2)
    && (forall f: nat :: f < n ==> Contents(d, inodes[f + 2]) == files[f].contents)
  }

  // The last block of the rounded root directory is mapped unless the entries filled the one before it.
  lemma RoundedRoot(d: Disk, inodes: Inodes, size: uint32)
    requires AllExact(d, inodes, {}) && ROOTINO in inodes && size == (inodes[ROOTINO].size / BSIZE + 1) * BSIZE
    ensures AllExact(d, inodes[ROOTINO := inodes[ROOTINO].(size := size)], {ROOTINO})
    ensures HoleFree(d, inodes[ROOTINO := inodes[ROOTINO].(size := size)]) <==> inodes[ROOTINO].size % BSIZE != 0
  {
    hide Slot;
    var off := inodes[ROOTINO].size;
    var ip' := inodes[ROOTINO].(size := size);
    var inodes' := inodes[ROOTINO := ip'];
    ResizeBytes(d, inodes[ROOTINO], ip');
    assert ExactTo(d, inodes[ROOTINO], off);
    SizeBound(d, inodes, ROOTINO, off);
    if off % BSIZE == 0 {
      var bn := off / BSIZE;
      assert Slot(d, inodes[ROOTINO], DataPos(bn)) == 0;
      assert bn * BSIZE < size && Slot(d, ip', DataPos(bn)) == 0;
      assert !MappedTo(d, ip', size) && inodes'[ROOTINO] == ip';
    } else {
      forall i | i in inodes' ensures inodes'[i].size <= MAXFILE * BSIZE && MappedTo(d, inodes'[i], inodes'[i].size) {
        SizeBound(d, inodes, i, inodes[i].size);
        assert ExactTo(d, inodes[i], inodes[i].size);
      }
    }
  }

  lemma StoredNone(d: Disk, inodes: Inodes, files: seq<Source>)
    requires (forall i :: i in inodes ==> |inodes[i].addrs| == NDIRECT + 1)
    requires (forall i :: i in inodes <==> i == ROOTINO)
    ensures Stored(d, inodes, files, 0)
  {
  }

  lemma StoredOne(d0: Disk, inodes0: Inodes, d: Disk, inodes: Inodes, files: seq<Source>, n: nat)
    requires n < |files| && Stored(d0, inodes0, files, n) && inodes.Keys == inodes0.Keys + {n + 2}
    requires (forall i :: i in inodes ==> |inodes[i].addrs| == NDIRECT + 1)
    requires Contents(d, inodes[n + 2]) == files[n].contents
    requires forall j :: j in inodes0 && j != ROOTINO ==> Contents(d, inodes[j]) == Contents(d0, inodes0[j])
    ensures Stored(d, inodes, files, n + 1)
  {
    hide Contents;
    forall f: nat | f <= n ensures Contents(d, inodes[f + 2]) == files[f].contents {
      if f < n {
        assert Contents(d0, inodes0[f + 2]) == files[f].contents;
      }
    }
  }

  // Only the size of inode i changes: its old contents are a prefix, and its inode block is out of date.
  lemma Resized(d: Disk, inodes: Inodes, i: nat, size: uint32)
    requires i in inodes && Synced(SB, d, inodes, {}) && |inodes[i].addrs| == NDIRECT + 1 && size >= inodes[i].size
    ensures Synced(SB, d, inodes[i := inodes[i].(size := size)], {i})
    ensures Contents(d, inodes[i].(size := size))[..inodes[i].size] == Contents(d, inodes[i])
  {
    hide Slot, Dinode;
    SyncedKept(SB, d, inodes, d, inodes[i := inodes[i].(size := size)], i);
    ResizeBytes(d, inodes[i], inodes[i].(size := size));
  }

  // Writing the bitmap makes the image what it was pictured to be.
  lemma PictureIs(disk: Disk, freeblock: nat)
    requires |disk| == SB.size && SB.nmeta <= freeblock <= SB.size
    ensures forall b: nat :: b < SB.size ==>
              BitmapBlock(SB, b) < |disk| && (Used(SB, Picture(disk, freeblock), b) <==> b < freeblock)
  {
    hide FirstBits, Used, BitmapBlock;
    forall b: nat | b < SB.size
      ensures BitmapBlock(SB, b) < |disk| && (Used(SB, Picture(disk, freeblock), b) <==> b < freeblock)
    {
      PictureUsed(disk, freeblock, b);
    }
  }

  lemma EmptyLaid(disk: Disk)
    requires |disk| == SB.size && forall b: nat :: b < |disk| ==> disk[b] == if b == 1 then SuperBlock() else ZERO_BLOCK
    ensures Laid(disk, SB.nmeta, map[], map[])
  {
    hide FirstBits, Bit;
    forall b: nat | b < SB.size
      ensures BitmapBlock(SB, b) < |disk| && (Used(SB, Picture(disk, SB.nmeta), b) <==> b < SB.nmeta)
    {
      PictureUsed(disk, SB.nmeta, b);
    }
  }

  class MkFs {
    var disk: Disk
    var freeinode: nat
    var freeblock: nat
    ghost var inodes: Inodes
    ghost var owner: Owners

    ghost function Image(): Disk
      reads this
      requires |disk| == SB.size && freeblock <= SB.size
    {
      Picture(disk, freeblock)
    }

    /** Between two calls: with the bitmap still to be written, everything but the rounding of the root
        directory is as the kernel expects it. */
    ghost predicate Valid()
      reads this
    {
      && Laid(disk, freeblock, inodes, owner)
      && Synced(SB, Image(), inodes, {}) && AllExact(Image(), inodes, {})
      && ROOTINO <= freeinode && (forall i :: i in inodes <==> ROOTINO <= i < freeinode)
    }

    /** The block number at position p of `din`, taken from freeblock if there is none yet. */
    method MapAddr(i: nat, din: Inode, p: nat, ghost bn: nat) returns (ok: bool, r: Inode)
      requires Laid(disk, freeblock, inodes, owner) && i in inodes && inodes[i] == din
      requires p <= NDIRECT && (p == DataPos(bn) || (p == NDIRECT && bn >= NDIRECT))
      modifies this`freeblock, this`inodes, this`owner
      ensures |din.addrs| == NDIRECT + 1 && (ok <==> din.addrs[p] != 0 || old(freeblock) < SB.size)
      ensures freeblock == old(freeblock) + (if ok && din.addrs[p] == 0 then 1 else 0)
      ensures ok ==> Laid(disk, freeblock, inodes, owner)
      ensures ok ==> Mapping(Picture(disk, old(freeblock)), old(inodes), Image(), inodes, i, bn)
      ensures ok ==> inodes == old(inodes)[i := r] && |r.addrs| == NDIRECT + 1 && r.addrs[p] != 0
      ensures ok ==> forall q: nat :: q != p ==> Slot(Image(), r, q) == Slot(Picture(disk, old(freeblock)), din, q)
    {
      hide Laid, Picture, Slot, Own, FileByte, Mapping;
      LaidShape(disk, freeblock, inodes, owner);
      MappingNone(SB, Image(), inodes, owner, i, bn);
      r := din;
      if r.addrs[p] == 0 {
        if freeblock >= SB.size { return false, r; }
        TakeAddr(disk, freeblock, inodes, owner, i, p, bn);
        r := r.(addrs := r.addrs[p := freeblock]);
        inodes, owner := inodes[i := r], owner[freeblock := Owner(i, p)];
        freeblock := freeblock + 1;
      }
      ok := true;
    }

    /** The entry of the indirect block for file block bn, taken from freeblock if there is none yet. */
    method MapEntry(i: nat, din: Inode, bn: nat) returns (ok: bool, x: nat)
      requires Laid(disk, freeblock, inodes, owner) && i in inodes && inodes[i] == din && NDIRECT <= bn < MAXFILE
      requires |din.addrs| == NDIRECT + 1 && din.addrs[NDIRECT] != 0
      modifies this`disk, this`freeblock, this`owner
      ensures ok <==> Slot(old(Image()), din, DataPos(bn)) != 0 || old(freeblock) < SB.size
      ensures freeblock == old(freeblock) + (if ok && Slot(old(Image()), din, DataPos(bn)) == 0 then 1 else 0)
      ensures ok ==> Laid(disk, freeblock, inodes, owner) && Mapping(old(Image()), inodes, Image(), inodes, i, bn)
      ensures ok ==> x == Slot(Image(), din, DataPos(bn)) && x != 0
    {
      hide Laid, Own, FileByte, Mapping, Word, PutWord, FirstBits;
      LaidShape(disk, freeblock, inodes, owner);
      TableAtMost(disk, freeblock, inodes, owner, i);
      var ind := din.addrs[NDIRECT];
      assert Slot(Image(), din, NDIRECT) == ind;
      var indirect := disk[ind];
      assert Image()[ind] == disk[ind];
      MappingNone(SB, Image(), inodes, owner, i, bn);
      if Word(indirect, bn - NDIRECT) == 0 {
        if freeblock >= SB.size { return false, 0; }
        TakeEntry(disk, freeblock, inodes, owner, i, bn);
        indirect := PutWord(indirect, bn - NDIRECT, freeblock);
        disk := disk[ind := indirect];
        owner := owner[freeblock := Owner(i, bn + 1)];
        freeblock := freeblock + 1;
        assert Image()[ind] == disk[ind];
      }
      x := Word(indirect, bn - NDIRECT);
      ok := true;
    }

    /** The middle of iappend's loop: x is the block for file block bn. */
    method MapBlock(i: nat, din: Inode, bn: nat) returns (ok: bool, r: Inode, x: nat)
      requires Laid(disk, freeblock, inodes, owner) && i in inodes && inodes[i] == din
      modifies this`disk, this`freeblock, this`inodes, this`owner
      ensures |din.addrs| == NDIRECT + 1
      ensures ok <==> bn < MAXFILE && old(freeblock) + Needs(old(Image()), din, bn) <= SB.size
      ensures ok ==> freeblock == old(freeblock) + Needs(old(Image()), din, bn) && Laid(disk, freeblock, inodes, owner)
      ensures ok ==> Mapping(old(Image()), old(inodes), Image(), inodes, i, bn)
      ensures ok ==>
                inodes == old(inodes)[i := r] && |r.addrs| == NDIRECT + 1 && x == Slot(Image(), r, DataPos(bn)) &&
                  x != 0
    {
      hide Laid, Picture, Own, Mapping, Slot;
      LaidShape(disk, freeblock, inodes, owner);
      EntryNeedsTable(Image(), din, bn);
      DirectSlot(Image(), din, bn);
      r, x := din, 0;
      if bn >= MAXFILE { return false, r, x; }
      if bn < NDIRECT {
        ok, r := MapAddr(i, din, bn, bn);
        if ok {
          DirectSlot(Image(), r, bn);
          x := r.addrs[bn];
        }
        return;
      }
      ok, r := MapAddr(i, din, NDIRECT, bn);
      if !ok { return; }
      ghost var d1, inodes1 := Image(), inodes;
      ok, x := MapEntry(i, r, bn);
      if ok {
        LaidShape(disk, freeblock, inodes, owner);
        MappingTrans(old(Image()), old(inodes), d1, inodes1, Image(), inodes, i, bn);
      }
    }

    /** rinode */
    method Rinode(i: nat) returns (din: Inode)
      requires Valid() && i in inodes
      ensures din == inodes[i]
    {
      hide FirstBits, Own, Dinode;
      assert SyncedAt(SB, Image(), inodes, i);
      var b := IBlock(SB, i);
      assert Image()[b] == disk[b];
      din := Dinode(disk[b], i % IPB);
    }

    /** winode */
    method Winode(i: nat, din: Inode, ghost but: set<nat>)
      requires Laid(disk, freeblock, inodes, owner) && i in inodes && din == inodes[i]
      requires Synced(SB, Image(), inodes, {i}) && AllExact(Image(), inodes, but)
      modifies this`disk
      ensures Laid(disk, freeblock, inodes, owner) && Synced(SB, Image(), inodes, {}) && AllExact(Image(), inodes, but)
      ensures forall j :: j in inodes ==>
                |inodes[j].addrs| == NDIRECT + 1 && Contents(Image(), inodes[j]) == old(Contents(Image(), inodes[j]))
      ensures HoleFree(Image(), inodes) <==> old(HoleFree(Image(), inodes))
    {
      hide HoleFree, Laid, Picture, Own, Slot, FileByte, Contents, Dinode, PutDinode, Synced, AllExact;
      LaidShape(disk, freeblock, inodes, owner);
      ghost var d := Image();
      var b := IBlock(SB, i);
      IBlockInRange(d, inodes, i);
      ghost var data := PutDinode(disk[b], i % IPB, din);
      InodeBlockWrite(SB, d, inodes, owner, b, data);
      IupdateSyncs(SB, d, inodes, i);
      SlotsAndBytesKeep(d, d[b := data], inodes);
      SlotsAndBytesKeep(d[b := data], d, inodes);
      ExactKept(d, d[b := data], inodes, but);
      InodeLaid(disk, freeblock, inodes, owner, b, data);
      disk := disk[b := PutDinode(disk[b], i % IPB, din)];
    }

    /** ialloc; failing means the inode blocks are full. */
    method Ialloc(kind: uint32) returns (ok: bool, i: nat)
      requires Valid()
      modifies this`disk, this`freeinode, this`inodes
      ensures ok ==>
                Valid() && i == old(freeinode) && freeinode == i + 1 && i !in old(inodes) &&
                  inodes.Keys == old(inodes).Keys + {i}
      ensures ok ==> inodes[i].kind == kind && Contents(Image(), inodes[i]) == []
      ensures ok ==> forall j :: j in old(inodes) ==>
                inodes[j] == old(inodes)[j] && Contents(Image(), inodes[j]) == old(Contents(Image(), inodes[j]))
      ensures (ok <==> old(freeinode) < NINODEBLOCKS * IPB) && (ok ==> inodes[i].size == 0)
    {
      hide Laid, Picture, Own, FileByte, Contents, Dinode, Synced, AllExact;
      LaidShape(disk, freeblock, inodes, owner);
      i := freeinode;
      if i >= NINODEBLOCKS * IPB { return false, i; }
      freeinode := freeinode + 1;
      var din := Inode(kind, 0x1_0000, 0, seq(NDIRECT + 1, _ => 0));
      NewInode(disk, freeblock, inodes, owner, i, din);
      inodes := inodes[i := din];
      Winode(i, din, {});
      LaidShape(disk, freeblock, inodes, owner);
      EmptyFile(Image(), inodes[i]);
      ok := true;
    }

    /** iappend's loop; failing means the image or the file is full. */
    method AppendLoop(i: nat, din: Inode, data: seq<byte>) returns (ok: bool, r: Inode)
      requires Laid(disk, freeblock, inodes, owner) && i in inodes && din == inodes[i] && AllExact(Image(), inodes, {})
      modifies this`disk, this`freeblock, this`inodes, this`owner
      ensures ok <==> Room(old(freeblock), din.size, |data|)
      ensures ok ==>
                Laid(disk, freeblock, inodes, owner) && i in inodes && r == inodes[i] && inodes.Keys == old(inodes).Keys
      ensures ok ==> freeblock == Taken(old(freeblock), din.size, |data|)
      ensures ok ==> Appending(old(Image()), old(inodes), Image(), inodes, i, din.size, data, |data|)
    {
      hide Laid, Picture, Own, Slot, Appending, Mapping, AllExact, OnlyMaps, SlotsKept, OnlyBytes, LowKept, Splice,
           BlocksFor, Needs, ChunkLen, FileByte;
      LaidShape(disk, freeblock, inodes, owner);
      ghost var d0, inodes0 := Image(), inodes;
      var off, tot: nat := din.size, 0;
      AppendStart(d0, inodes0, i, data);
      SizeBound(d0, inodes0, i, din.size);
      r := din;
      while tot < |data|
        invariant Laid(disk, freeblock, inodes, owner) && tot <= |data| && off == din.size + tot <= MAXFILE * BSIZE
        invariant freeblock <= SB.size == |disk| && freeblock == old(freeblock) + BlocksFor(off) - BlocksFor(din.size)
        invariant i in inodes && r == inodes[i] && |r.addrs| == NDIRECT + 1 && inodes.Keys == inodes0.Keys
        invariant Appending(d0, inodes0, Image(), inodes, i, din.size, data, tot)
      {
        ghost var d, ino := Image(), inodes;
        var x;
        var m := ChunkLen(off, |data| - tot);
        AppendNeeds(d0, inodes0, d, ino, i, din.size, data, tot, m);
        ok, r, x := MapBlock(i, r, off / BSIZE);
        if !ok {
          BlocksGrow(off + m, din.size + |data|);
          return;
        }
        LaidShape(disk, freeblock, inodes, owner);
        ChunkLaid(disk, freeblock, inodes, owner, i, off, data[tot..tot + m], x);
        ghost var d1 := Image();
        disk := disk[x := Splice(disk[x], off % BSIZE, data[tot..tot + m])];
        AppendTurn(d0, inodes0, d, ino, d1, inodes, Image(), i, din.size, data, tot, m);
        EndOfBlock(off, m);
        off, tot := off + m, tot + m;
      }
      ok := true;
    }

    /** iappend */
    method Append(i: nat, data: seq<byte>) returns (ok: bool)
      requires Valid() && i in inodes
      modifies this`disk, this`freeblock, this`inodes, this`owner
      ensures ok <==> Room(old(freeblock), old(inodes)[i].size, |data|)
      ensures ok ==> Valid() && inodes.Keys == old(inodes).Keys
      ensures ok ==> freeblock == Taken(old(freeblock), old(inodes)[i].size, |data|)
      ensures ok ==> inodes[i].size == old(inodes)[i].size + |data|
      ensures ok ==> Contents(Image(), inodes[i]) == old(Contents(Image(), inodes[i])) + data
      ensures ok ==> forall j :: j in inodes && j != i ==>
                inodes[j] == old(inodes)[j] && Contents(Image(), inodes[j]) == old(Contents(Image(), inodes[j]))
    {
      hide Laid, Picture, Own, Slot, Appending, AllExact, Synced, Contents, BlocksFor;
      LaidShape(disk, freeblock, inodes, owner);
      ghost var d0, inodes0 := Image(), inodes;
      var din := Rinode(i);
      var r;
      ok, r := AppendLoop(i, din, data);
      if !ok { return; }
      LaidShape(disk, freeblock, inodes, owner);
      var size := din.size + |data|;
      AppendDone(d0, inodes0, Image(), inodes, i, data, size);
      GrownLaid(disk, freeblock, inodes, owner, i, size);
      inodes := inodes[i := r.(size := size)];
      Winode(i, r.(size := size), {});
      LaidShape(disk, freeblock, inodes, owner);
    }

    /** balloc: the bitmap block. */
    method BitmapOf(used: nat) returns (buf: Block)
      requires used <= BPB
      ensures buf == FirstBits(used)
    {
      buf := ZERO_BLOCK;
      for i := 0 to used
        invariant buf == FirstBits(i)
      {
        buf := SetBit(buf, i);
      }
    }

    constructor ()
      ensures Valid() && freeinode == 1 && inodes == map[] && freeblock == SB.nmeta
      ensures disk[1] == SuperBlock() && L.Clean(LOG, disk)
    {
      disk := seq(FSSIZE, _ => ZERO_BLOCK)[1 := SuperBlock()];
      freeinode, freeblock := 1, SB.nmeta;
      inodes, owner := map[], map[];
      new;
      EmptyLaid(disk);
      FrontIsClean(disk);
    }

    /** The file is read and appended in pieces of any length. */
    method Copy(i: nat, data: seq<byte>) returns (ok: bool)
      requires Valid() && i in inodes && inodes[i].size == 0 && Contents(Image(), inodes[i]) == []
      modifies this`disk, this`freeblock, this`inodes, this`owner
      ensures ok <==> Room(old(freeblock), 0, |data|)
      ensures ok ==> Valid() && inodes.Keys == old(inodes).Keys && Contents(Image(), inodes[i]) == data
      ensures ok ==> freeblock == Taken(old(freeblock), 0, |data|)
      ensures ok ==> forall j :: j in inodes && j != i ==>
                inodes[j] == old(inodes)[j] && Contents(Image(), inodes[j]) == old(Contents(Image(), inodes[j]))
    {
      hide Laid, Picture, AllExact, Synced, Contents, BlocksFor;
      LaidShape(disk, freeblock, inodes, owner);
      var pos := 0;
      ok := true;
      while pos < |data|
        invariant pos <= |data| && Valid() && i in inodes && inodes.Keys == old(inodes).Keys && inodes[i].size == pos
        invariant |disk| == SB.size && freeblock <= SB.size
        invariant (forall j :: j in inodes ==> |inodes[j].addrs| == NDIRECT + 1)
        invariant Contents(Image(), inodes[i]) == data[..pos]
        invariant freeblock == old(freeblock) + BlocksFor(pos) - BlocksFor(0) && pos <= MAXFILE * BSIZE
        invariant forall j :: j in inodes && j != i ==>
                    inodes[j] == old(inodes)[j] && Contents(Image(), inodes[j]) == old(Contents(Image(), inodes[j]))
        invariant ok
      {
        var cc :| 0 < cc <= BSIZE && pos + cc <= |data|;
        ok := Append(i, data[pos..pos + cc]);
        if !ok {
          BlocksGrow(pos + cc, |data|);
          return;
        }
        LaidShape(disk, freeblock, inodes, owner);
        assert data[..pos] + data[pos..pos + cc] == data[..pos + cc];
        pos := pos + cc;
      }
    }

    ghost predicate Entered(files: seq<Source>, n: nat)
      reads this
      requires Named(files)
    {
      && Valid() && freeinode == n + 2 && Stored(Image(), inodes, files, n)
      && Contents(Image(), inodes[ROOTINO]) == RootBytes(files, n)
      && inodes[ROOTINO].size == 16 * (n + 2) && freeblock == SB.nmeta + Need(files, n) && Fits(files, n)
    }

    /** The root directory with its first two entries. */
    method MakeRoot(files: seq<Source>)
      requires Valid() && freeinode == 1 && freeblock == SB.nmeta && Named(files)
      modifies this`disk, this`freeinode, this`freeblock, this`inodes, this`owner
      ensures Entered(files, 0)
    {
      hide Laid, Picture, AllExact, Synced, Contents, Dirent;
      LaidShape(disk, freeblock, inodes, owner);
      assert NINODEBLOCKS == 13 && IPB == 16;
      var ok, root := Ialloc(1);
      ok := Append(root, Dirent(root, DOT));
      ok := Append(root, Dirent(root, DOTDOT));
      LaidShape(disk, freeblock, inodes, owner);
      StoredNone(Image(), inodes, files);
    }

    /** One file of the command line. */
    method AddFile(files: seq<Source>, n: nat) returns (ok: bool)
      requires Named(files) && n < |files| && Entered(files, n)
      modifies this`disk, this`freeinode, this`freeblock, this`inodes, this`owner
      ensures ok <==> Fits(files, n + 1)
      ensures ok ==> Entered(files, n + 1)
    {
      hide Laid, Picture, AllExact, Synced, Contents, Dirent, BlocksFor, Room, Taken, Fits, Need;
      LaidShape(disk, freeblock, inodes, owner);
      FitsNext(files, n);
      ghost var d0, inodes0 := Image(), inodes;
      var i;
      ok, i := Ialloc(2);
      if !ok { return; }
      ok := Append(ROOTINO, Dirent(i, files[n].name));
      if !ok { return; }
      ok := Copy(i, files[n].contents);
      if !ok { return; }
      LaidShape(disk, freeblock, inodes, owner);
      StoredOne(d0, inodes0, Image(), inodes, files, n);
    }

    /** main. It succeeds exactly when everything fits. Then the kernel's ownership invariant holds of the image,
        every file holds its contents, the log is empty, and the image is hole-free exactly when the root
        directory's entries do not fill a whole number of blocks. */
    method Build(files: seq<Source>) returns (ok: bool)
      requires Valid() && freeinode == 1 && freeblock == SB.nmeta && Named(files)
      modifies this
      ensures ok <==> Fits(files, |files|)
      ensures ok ==>
                Own(SB, disk, inodes, owner, {}) && Synced(SB, disk, inodes, {}) && Stored(disk, inodes, files, |files|)
      ensures ok ==> disk[1] == SuperBlock() && L.Clean(LOG, disk)
      ensures ok ==> freeblock == SB.nmeta + Need(files, |files|)
      ensures ok ==> forall b: nat :: b < SB.size ==>
                BitmapBlock(SB, b) < |disk| && (Used(SB, disk, b) <==> b < freeblock)
      ensures ok ==> inodes[ROOTINO].size == ((16 * (|files| + 2)) / BSIZE + 1) * BSIZE
      ensures ok ==> Contents(disk, inodes[ROOTINO])[..16 * (|files| + 2)] == RootBytes(files, |files|)
      ensures ok ==> (HoleFree(disk, inodes) <==> (16 * (|files| + 2)) % BSIZE != 0)
    {
      hide FirstBits, Own, Synced, Contents, Dirent, HoleFree, Used, BitmapBlock, Fits, Need, Laid, AllExact;
      MakeRoot(files);
      for n := 0 to |files|
        invariant Entered(files, n)
      {
        ok := AddFile(files, n);
        if !ok {
          if Fits(files, |files|) { FitsFewer(files, n + 1, |files|); }
          return;
        }
      }
      RoundRoot(files);
      LaidShape(disk, freeblock, inodes, owner);
      LaidFront(disk, freeblock, inodes, owner);
      var bits := BitmapOf(freeblock);
      PictureIs(disk, freeblock);
      FrontKept(disk, SB.bmapstart, bits);
      disk := disk[SB.bmapstart := bits];
      FrontIsClean(disk);
      ok := true;
    }

    /** The root directory's size goes up to the next multiple of the block size. */
    method RoundRoot(files: seq<Source>)
      requires Named(files) && Entered(files, |files|)
      modifies this`disk, this`inodes
      ensures Laid(disk, freeblock, inodes, owner) && Synced(SB, Image(), inodes, {})
      ensures Stored(Image(), inodes, files, |files|)
      ensures inodes[ROOTINO].size == ((16 * (|files| + 2)) / BSIZE + 1) * BSIZE
      ensures Contents(Image(), inodes[ROOTINO])[..16 * (|files| + 2)] == RootBytes(files, |files|)
      ensures HoleFree(Image(), inodes) <==> (16 * (|files| + 2)) % BSIZE != 0
    {
      hide FirstBits, Own, ExactTo, Synced, HoleFree, Dirent;
      var din := Rinode(ROOTINO);
      SizeBound(Image(), inodes, ROOTINO, din.size);
      var off := (din.size / BSIZE + 1) * BSIZE;
      RoundedRoot(Image(), inodes, off);
      Resized(Image(), inodes, ROOTINO, off);
      FieldsKeep(SB, Image(), inodes, owner, {}, ROOTINO, din.(size := off));
      din := din.(size := off);
      inodes := inodes[ROOTINO := din];
      hide Contents;
      Winode(ROOTINO, din, {ROOTINO});
    }
  }

  // ----- An image with a hole -----

  /** Empty files enough to fill a block of the root directory. */
  function Empties(n: nat): seq<Source> {
    seq(n, _ => Source(DOT, []))
  }

  lemma {:induction false} EmptiesTakeNothing(n: nat, k: nat)
    requires k <= n
    ensures FileBlocks(Empties(n), k) == 0
  {
    if k > 0 {
      EmptiesTakeNothing(n, k - 1);
      assert BlocksFor(0) == 0;
    }
  }

  lemma EmptiesFit()
    ensures |Empties(62)| == 62 && Named(Empties(62)) && Fits(Empties(62), 62) && (16 * (62 + 2)) % BSIZE == 0
  {
    EmptiesTakeNothing(62, 62);
    assert NINODEBLOCKS == 13 && IPB == 16;
    assert BlocksFor(16 * 64) == 1;
  }

  /** 62 empty files fit, and the root directory of that image has a hole. */
  method HoleyImage() returns (m: MkFs, ok: bool)
    ensures ok && Own(SB, m.disk, m.inodes, m.owner, {}) && Stored(m.disk, m.inodes, Empties(62), 62)
    ensures !HoleFree(m.disk, m.inodes)
  {
    hide Own, HoleFree, Stored, Used, Synced, Contents, Fits, Named, Laid, AllExact, Need, RootBytes, Empties;
    m := new MkFs();
    EmptiesFit();
    ok := m.Build(Empties(62));
  }
}
