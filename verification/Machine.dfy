/** Bytes, 32-bit words and disk blocks, laid out as the kernel lays them out (little endian). */
module Machine {
  type byte = x: int | 0 <= x < 0x100
  type uint32 = x: int | 0 <= x < 0x1_0000_0000

  datatype Option<T> = None | Some(value: T)

  ghost predicate Distinct<T>(s: seq<T>) {
    forall i, j :: 0 <= i < j < |s| ==> s[i] != s[j]
  }

  const BSIZE: nat := 1024
  const MAXOPBLOCKS: nat := 10              // blocks one file system operation may log
  const LOGSIZE: nat := MAXOPBLOCKS * 3     // blocks the log header can name

  type Block = b: seq<byte> | |b| == BSIZE witness seq(BSIZE, _ => 0)

  function Zeroes(): Block {
    seq(BSIZE, _ => 0)
  }

  const ZERO_BLOCK: Block := Zeroes()

  /** The i-th 32-bit word of a block, as the kernel reads it through a uint pointer. */
  function Word(b: Block, i: nat): uint32
    requires i < BSIZE / 4
  {
    b[4 * i] as int + 0x100 * b[4 * i + 1] as int
    + 0x1_0000 * b[4 * i + 2] as int + 0x100_0000 * b[4 * i + 3] as int
  }

  /** The block with its i-th 32-bit word set to v. */
  function PutWord(b: Block, i: nat, v: uint32): (r: Block)
    requires i < BSIZE / 4
    ensures Word(r, i) == v
    ensures forall j :: 0 <= j < BSIZE / 4 && j != i ==> Word(r, j) == Word(b, j)
  {
    WordDigits(v);
    b[4 * i := v % 0x100][4 * i + 1 := v / 0x100 % 0x100]
     [4 * i + 2 := v / 0x1_0000 % 0x100][4 * i + 3 := v / 0x100_0000]
  }

  /** The block after consecutive words from `at` on have been stored, in order. */
  function PutWords(b: Block, at: nat, ws: seq<uint32>): (r: Block)
    requires at + |ws| <= BSIZE / 4
    ensures forall i :: 0 <= i < |ws| ==> Word(r, at + i) == ws[i]
    ensures forall j :: 0 <= j < BSIZE / 4 && !(at <= j < at + |ws|) ==> Word(r, j) == Word(b, j)
  {
    if ws == [] then b else
      PutWord(PutWords(b, at, ws[..|ws| - 1]), at + |ws| - 1, ws[|ws| - 1])
  }

  lemma WordDigits(v: uint32)
    ensures 0 <= v / 0x100_0000 < 0x100
    ensures v == v % 0x100 + 0x100 * (v / 0x100 % 0x100) + 0x1_0000 * (v / 0x1_0000 % 0x100) +
              0x100_0000 * (v / 0x100_0000)
  {
    var a, b, c := v / 0x100, v / 0x1_0000, v / 0x100_0000;
    assert b == a / 0x100;
    assert c == b / 0x100;
  }
}
