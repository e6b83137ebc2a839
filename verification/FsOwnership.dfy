/** Who owns which block: every data or indirect block in use belongs to exactly one inode at exactly
    one position, and the bitmap records precisely these blocks and the metadata. */
module FsOwnership {
  import opened Machine
  import opened FsLayout

  /** struct dinode, as 32-bit words: `kind` is type and major, `links` is minor and nlink. */
  datatype Inode = Inode(kind: uint32, links: uint32, size: uint32, addrs: seq<uint32>)

  type Inodes = map<nat, Inode>

  /** A position of an inode: p < NDIRECT and p > NDIRECT are data, p == NDIRECT is the indirect block. */
  datatype Owner = Owner(inum: nat, p: nat)

  type Owners = map<nat, Owner>

  /** The block number stored at position p, 0 for none. */
  function Slot(d: Disk, ip: Inode, p: nat): nat
    requires |ip.addrs| == NDIRECT + 1
  {
    if p <= NDIRECT then ip.addrs[p]
    else if p <= MAXFILE && 0 < ip.addrs[NDIRECT] < |d| then Word(d[ip.addrs[NDIRECT]], p - NDIRECT - 1)
    else 0
  }

  /** Position of data block bn of a file. */
  function DataPos(bn: nat): nat {
    if bn < NDIRECT then bn else bn + 1
  }

  ghost predicate SlotsOwned(d: Disk, inodes: Inodes, owner: Owners) {
    && (forall i :: i in inodes ==> |inodes[i].addrs| == NDIRECT + 1)
    && (forall i, p: nat :: i in inodes && Slot(d, inodes[i], p) != 0 ==>
          Slot(d, inodes[i], p) in owner && owner[Slot(d, inodes[i], p)] == Owner(i, p))
  }

  ghost predicate OwnersHaveSlots(sb: Super, d: Disk, inodes: Inodes, owner: Owners)
    requires forall i :: i in inodes ==> |inodes[i].addrs| == NDIRECT + 1
  {
    forall b :: b in owner ==>
      sb.nmeta <= b < sb.size && owner[b].inum in inodes && Slot(d, inodes[owner[b].inum], owner[b].p) == b
  }

  /** The bitmap is exact. `loose` blocks are allocated but not yet (or no longer) attached to an inode. */
  ghost predicate BitmapExact(sb: Super, d: Disk, owner: Owners, loose: set<nat>)
    requires Geometry(sb, d)
  {
    forall b: nat :: b < sb.size ==>
      BitmapBlock(sb, b) < |d| && (Used(sb, d, b) <==> b < sb.nmeta || b in owner || b in loose)
  }

  ghost predicate Own(sb: Super, d: Disk, inodes: Inodes, owner: Owners, loose: set<nat>) {
    && Geometry(sb, d)
    && SlotsOwned(d, inodes, owner)
    && OwnersHaveSlots(sb, d, inodes, owner)
    && BitmapExact(sb, d, owner, loose)
    && (forall b :: b in loose ==> b !in owner && sb.nmeta <= b < sb.size)
  }

  lemma BitmapInMeta(sb: Super, d: Disk, b: nat)
    requires Geometry(sb, d) && b < sb.size
    ensures BitmapBlock(sb, b) < sb.nmeta <= |d|
  {
  }

  // Bit bi of bitmap block k stands for block k * BPB + bi.
  lemma UsedBit(sb: Super, d: Disk, k: nat, bi: nat)
    requires Geometry(sb, d) && bi < BPB && k * BPB + bi < sb.size
    ensures BitmapBlock(sb, k * BPB + bi) == sb.bmapstart + k < |d|
    ensures Used(sb, d, k * BPB + bi) == Bit(d[sb.bmapstart + k][bi / 8], bi % 8)
  {
    hide Bit;
    BitmapInMeta(sb, d, k * BPB + bi);
    SplitBpb(k, bi);
  }

  /** No block belongs to two inodes or to two positions. */
  lemma NoSharing(sb: Super, d: Disk, inodes: Inodes, owner: Owners, loose: set<nat>, i: nat, p: nat, j: nat, q: nat)
    requires Own(sb, d, inodes, owner, loose) && i in inodes && j in inodes
    requires Slot(d, inodes[i], p) == Slot(d, inodes[j], q) != 0
    ensures i == j && p == q
  {
    var b := Slot(d, inodes[i], p);
    assert owner[b] == Owner(i, p) == Owner(j, q);
  }

  // ----- Counting free blocks -----

  /** No block is free: balloc would panic. */
  ghost predicate Full(sb: Super, d: Disk) {
    forall b: nat :: b < sb.size ==> BitmapBlock(sb, b) < |d| && Used(sb, d, b)
  }

  /** The blocks whose bit is clear. */
  ghost function Unused(sb: Super, d: Disk): set<nat> {
    set b: nat | b < sb.size && BitmapBlock(sb, b) < |d| && !Used(sb, d, b)
  }

  ghost function Span(lo: nat, hi: nat): (r: set<nat>)
    requires lo <= hi
    ensures forall b: nat :: b in r <==> lo <= b < hi
  {
    if lo == hi then {} else Span(lo, hi - 1) + {hi - 1}
  }

  lemma {:induction false} SpanSize(lo: nat, hi: nat)
    requires lo <= hi
    ensures |Span(lo, hi)| == hi - lo
    decreases hi - lo
  {
    if lo < hi {
      SpanSize(lo, hi - 1);
    }
  }

  /** What is neither metadata nor owned is free. */
  lemma UnusedCount(sb: Super, d: Disk, inodes: Inodes, owner: Owners)
    requires Own(sb, d, inodes, owner, {})
    ensures |Unused(sb, d)| + |owner| == sb.size - sb.nmeta
    ensures Full(sb, d) <==> Unused(sb, d) == {}
  {
    hide Slot, Used, BitmapBlock, SlotsOwned;
    SpanSize(sb.nmeta, sb.size);
    assert owner.Keys <= Span(sb.nmeta, sb.size);
    assert Unused(sb, d) == Span(sb.nmeta, sb.size) - owner.Keys;
    assert |Span(sb.nmeta, sb.size) - owner.Keys| == |Span(sb.nmeta, sb.size)| - |owner.Keys|;
    assert |owner.Keys| == |owner|;
    if Unused(sb, d) == {} {
      forall b: nat | b < sb.size ensures BitmapBlock(sb, b) < |d| && Used(sb, d, b) {
        assert b !in Unused(sb, d);
      }
    }
  }

  // ----- What one change keeps -----

  /** The same blocks hold the same indirect tables. */
  ghost predicate SameTables(d: Disk, d': Disk, owner: Owners) {
    |d'| == |d| && forall b: nat :: b in owner && owner[b].p == NDIRECT && b < |d| ==> d'[b] == d[b]
  }

  lemma SlotSame(d: Disk, d': Disk, inodes: Inodes, owner: Owners, i: nat, p: nat)
    requires SlotsOwned(d, inodes, owner) && SameTables(d, d', owner) && i in inodes
    ensures Slot(d', inodes[i], p) == Slot(d, inodes[i], p)
  {
    assert Slot(d, inodes[i], NDIRECT) == inodes[i].addrs[NDIRECT];
  }

  lemma TablesKeepSlots(sb: Super, d: Disk, d': Disk, inodes: Inodes, owner: Owners)
    requires SlotsOwned(d, inodes, owner) && OwnersHaveSlots(sb, d, inodes, owner) && SameTables(d, d', owner)
    ensures SlotsOwned(d', inodes, owner) && OwnersHaveSlots(sb, d', inodes, owner)
  {
    hide Slot;
    forall i, p: nat | i in inodes ensures Slot(d', inodes[i], p) == Slot(d, inodes[i], p) {
      SlotSame(d, d', inodes, owner, i, p);
    }
  }

  // Rewriting blocks that are neither bitmap nor indirect tables.
  lemma DataWriteKeeps(sb: Super, d: Disk, d': Disk, inodes: Inodes, owner: Owners, loose: set<nat>)
    requires Own(sb, d, inodes, owner, loose) && SameTables(d, d', owner)
    requires forall b: nat :: b < sb.size ==>
               BitmapBlock(sb, b) < |d| && d'[BitmapBlock(sb, b)] == d[BitmapBlock(sb, b)]
    ensures Own(sb, d', inodes, owner, loose)
  {
    TablesKeepSlots(sb, d, d', inodes, owner);
  }

  // balloc: the lowest free block, zeroed, is nobody's yet.
  lemma AllocKeeps(sb: Super, d: Disk, inodes: Inodes, owner: Owners, loose: set<nat>, r: nat)
    requires Own(sb, d, inodes, owner, loose) && r < sb.size && BitmapBlock(sb, r) < |d| && !Used(sb, d, r)
    ensures sb.nmeta <= r && r !in owner && r !in loose
    ensures Own(sb, Mark(sb, d, r, true)[r := ZERO_BLOCK], inodes, owner, loose + {r})
  {
    var d' := Mark(sb, d, r, true)[r := ZERO_BLOCK];
    BitmapInMeta(sb, d, r);
    TablesKeepSlots(sb, d, d', inodes, owner);
    forall b: nat | b < sb.size ensures BitmapBlock(sb, b) < |d'| && Used(sb, d', b) == (b == r || Used(sb, d, b)) {
      BitmapInMeta(sb, d, b);
      MarkUsed(sb, d, r, true, b);
    }
  }

  // bfree of a loose block; it is in use, so the "freeing free block" panic cannot happen.
  lemma FreeKeeps(sb: Super, d: Disk, inodes: Inodes, owner: Owners, loose: set<nat>, r: nat)
    requires Own(sb, d, inodes, owner, loose) && r in loose
    ensures BitmapBlock(sb, r) < |d| && Used(sb, d, r)
    ensures Own(sb, Mark(sb, d, r, false), inodes, owner, loose - {r})
  {
    var d' := Mark(sb, d, r, false);
    BitmapInMeta(sb, d, r);
    TablesKeepSlots(sb, d, d', inodes, owner);
    forall b: nat | b < sb.size ensures BitmapBlock(sb, b) < |d'| && Used(sb, d', b) == (b != r && Used(sb, d, b)) {
      BitmapInMeta(sb, d, b);
      MarkUsed(sb, d, r, false, b);
    }
  }

  lemma ZeroWords(j: nat)
    requires j < BSIZE / 4
    ensures Word(ZERO_BLOCK, j) == 0
  {
  }

  // Block r becomes a direct block, or the fresh (zeroed) indirect block, of the inode.
  lemma AttachAddrKeeps(sb: Super, d: Disk, inodes: Inodes, owner: Owners, loose: set<nat>, i: nat, p: nat, r: uint32)
    requires Own(sb, d, inodes, owner, loose) && i in inodes && p <= NDIRECT && inodes[i].addrs[p] == 0 && r in loose
    requires p == NDIRECT ==> d[r] == ZERO_BLOCK
    ensures Own(sb, d, inodes[i := inodes[i].(addrs := inodes[i].addrs[p := r])], owner[r as nat := Owner(i, p)],
                loose - {r})
  {
    hide Word;
    var ip' := inodes[i].(addrs := inodes[i].addrs[p := r]);
    var inodes' := inodes[i := ip'];
    forall j, q: nat | j in inodes' && Owner(j, q) != Owner(i, p)
      ensures Slot(d, inodes'[j], q) == Slot(d, inodes[j], q)
    {
      if j == i && p == NDIRECT && NDIRECT < q <= MAXFILE {
        ZeroWords(q - NDIRECT - 1);
      }
    }
    assert Slot(d, ip', p) == r;
    assert Slot(d, inodes[i], p) == 0;
  }

  // Block r is entered in the indirect block of inode i.
  lemma AttachEntryKeeps(sb: Super, d: Disk, inodes: Inodes, owner: Owners, loose: set<nat>, i: nat, p: nat, r: uint32)
    requires Own(sb, d, inodes, owner, loose) && i in inodes && NDIRECT < p <= MAXFILE && r in loose
    requires inodes[i].addrs[NDIRECT] != 0 && Slot(d, inodes[i], p) == 0
    ensures var ind := inodes[i].addrs[NDIRECT];
            ind < |d| &&
              Own(sb, d[ind := PutWord(d[ind], p - NDIRECT - 1, r)], inodes, owner[r as nat := Owner(i, p)],
                  loose - {r})
  {
    hide Word, PutWord;
    assert Slot(d, inodes[i], NDIRECT) == inodes[i].addrs[NDIRECT];
    var ind := inodes[i].addrs[NDIRECT];
    var d' := d[ind := PutWord(d[ind], p - NDIRECT - 1, r)];
    forall j, q: nat | j in inodes && Owner(j, q) != Owner(i, p)
      ensures Slot(d', inodes[j], q) == Slot(d, inodes[j], q)
    {
      if j != i {
        assert Slot(d, inodes[j], NDIRECT) == inodes[j].addrs[NDIRECT];
      }
    }
    assert Slot(d', inodes[i], p) == r;
    forall b: nat | b < sb.size ensures BitmapBlock(sb, b) < |d'| && d'[BitmapBlock(sb, b)] == d[BitmapBlock(sb, b)] {
      BitmapInMeta(sb, d, b);
    }
  }

  // The inode drops a direct block.
  lemma DetachAddrKeeps(sb: Super, d: Disk, inodes: Inodes, owner: Owners, loose: set<nat>, i: nat, p: nat)
    requires Own(sb, d, inodes, owner, loose) && i in inodes && p < NDIRECT && inodes[i].addrs[p] != 0
    ensures var b := inodes[i].addrs[p];
            Own(sb, d, inodes[i := inodes[i].(addrs := inodes[i].addrs[p := 0])], owner - {b as nat},
                loose + {b as nat})
  {
    hide Word;
    var b := inodes[i].addrs[p];
    assert Slot(d, inodes[i], p) == b;
    var ip' := inodes[i].(addrs := inodes[i].addrs[p := 0]);
    var inodes' := inodes[i := ip'];
    forall j, q: nat | j in inodes' && Owner(j, q) != Owner(i, p)
      ensures Slot(d, inodes'[j], q) == Slot(d, inodes[j], q)
    {
    }
    assert Slot(d, ip', p) == 0;
  }

  /** The blocks an inode reaches through its indirect block, which included. */
  ghost function Indirect(owner: Owners, i: nat): set<nat> {
    set b | b in owner && owner[b].inum == i && owner[b].p >= NDIRECT
  }

  // The inode drops its indirect block: that block and everything it lists lose their owner.
  lemma DetachIndirectKeeps(sb: Super, d: Disk, inodes: Inodes, owner: Owners, loose: set<nat>, i: nat)
    requires Own(sb, d, inodes, owner, loose) && i in inodes && inodes[i].addrs[NDIRECT] != 0
    ensures Own(sb, d, inodes[i := inodes[i].(addrs := inodes[i].addrs[NDIRECT := 0])],
                owner - Indirect(owner, i), loose + Indirect(owner, i))
  {
    hide Word;
    var ip' := inodes[i].(addrs := inodes[i].addrs[NDIRECT := 0]);
    var inodes' := inodes[i := ip'];
    forall j, q: nat | j in inodes'
      ensures Slot(d, inodes'[j], q) == if j == i && q >= NDIRECT then 0 else Slot(d, inodes[j], q)
    {
    }
  }

  // Fields other than the block list do not matter to ownership.
  lemma FieldsKeep(sb: Super, d: Disk, inodes: Inodes, owner: Owners, loose: set<nat>, i: nat, ip: Inode)
    requires Own(sb, d, inodes, owner, loose) && i in inodes && ip.addrs == inodes[i].addrs
    ensures Own(sb, d, inodes[i := ip], owner, loose)
  {
    var inodes' := inodes[i := ip];
    forall j, q: nat | j in inodes' ensures Slot(d, inodes'[j], q) == Slot(d, inodes[j], q) {
    }
  }
}
