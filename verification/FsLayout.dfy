/** The free-block bitmap of kernel/fs.c, bit by bit, and where inodes keep their block numbers. */
module FsLayout {
  import opened Machine

  const NDIRECT: nat := 12
  const NINDIRECT: nat := BSIZE / 4
  const MAXFILE: nat := NDIRECT + NINDIRECT
  const BPB: nat := BSIZE * 8
  const IPB: nat := BSIZE / 64

  /** struct superblock; `nmeta` is where mkfs starts the data blocks (size - nblocks). */
  datatype Super = Super(size: nat, nmeta: nat, inodestart: nat, bmapstart: nat)

  type Disk = seq<Block>

  ghost predicate Geometry(sb: Super, d: Disk) {
    && 0 < sb.nmeta <= sb.size <= |d| && |d| <= 0x1_0000_0000
    && sb.inodestart < sb.bmapstart
    && sb.bmapstart + (sb.size - 1) / BPB < sb.nmeta
  }

  // ----- Bits of a byte -----

  /** Bit k of a byte is set. */
  predicate Bit(x: nat, k: nat) {
    if k == 0 then x % 2 == 1 else Bit(x / 2, k - 1)
  }

  /** The byte with bit k set or cleared. */
  function PutBit(x: nat, k: nat, on: bool): (r: nat) {
    if k == 0 then x - x % 2 + (if on then 1 else 0) else x % 2 + 2 * PutBit(x / 2, k - 1, on)
  }

  lemma {:induction false} PutBitAt(x: nat, k: nat, on: bool, j: nat)
    ensures Bit(PutBit(x, k, on), j) == if j == k then on else Bit(x, j)
  {
    if k > 0 && j > 0 {
      PutBitAt(x / 2, k - 1, on, j - 1);
    }
  }

  function Pow2(k: nat): nat {
    if k == 0 then 1 else 2 * Pow2(k - 1)
  }

  lemma {:induction false} PutBitFits(x: nat, k: nat, on: bool, width: nat)
    requires k < width && x < Pow2(width)
    ensures PutBit(x, k, on) < Pow2(width)
  {
    var half := Pow2(width - 1);
    assert Pow2(width) == 2 * half && x / 2 < half;
    if k > 0 {
      PutBitFits(x / 2, k - 1, on, width - 1);
    }
  }

  function PutBitByte(x: byte, k: nat, on: bool): byte
    requires k < 8
  {
    assert Pow2(8) == 0x100 by {
      assert Pow2(4) == 16;
    }
    PutBitFits(x, k, on, 8);
    PutBit(x, k, on)
  }

  // ----- The bitmap -----

  function BitmapBlock(sb: Super, b: nat): nat {
    sb.bmapstart + b / BPB
  }

  /** The bitmap says block b is in use. */
  predicate Used(sb: Super, d: Disk, b: nat)
    requires BitmapBlock(sb, b) < |d|
  {
    Bit(d[BitmapBlock(sb, b)][b % BPB / 8], b % BPB % 8)
  }

  lemma SplitBpb(k: nat, bi: nat)
    requires bi < BPB
    ensures (k * BPB + bi) / BPB == k && (k * BPB + bi) % BPB == bi
  {
  }

  function Mark(sb: Super, d: Disk, b: nat, on: bool): (r: Disk)
    requires BitmapBlock(sb, b) < |d|
    ensures |r| == |d|
  {
    var blk := d[BitmapBlock(sb, b)];
    var i := b % BPB / 8;
    d[BitmapBlock(sb, b) := blk[i := PutBitByte(blk[i], b % BPB % 8, on)]]
  }

  // Marking one block says nothing new about any other, and touches one bitmap block only.
  lemma MarkUsed(sb: Super, d: Disk, b: nat, on: bool, c: nat)
    requires BitmapBlock(sb, b) < |d| && BitmapBlock(sb, c) < |d|
    ensures Used(sb, Mark(sb, d, b, on), c) == if c == b then on else Used(sb, d, c)
  {
    if BitmapBlock(sb, b) == BitmapBlock(sb, c) && b % BPB / 8 == c % BPB / 8 {
      var x := d[BitmapBlock(sb, b)][b % BPB / 8];
      PutBitAt(x, b % BPB % 8, on, c % BPB % 8);
      assert b == c <==> b % BPB % 8 == c % BPB % 8 by {
        assert b == b / BPB * BPB + b % BPB && c == c / BPB * BPB + c % BPB;
      }
    }
  }
}
