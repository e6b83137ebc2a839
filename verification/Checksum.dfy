/** in_cksum of kernel/net.c against the one's-complement sum of RFC 1071. */
module Checksum {
  import opened Machine

  // ----- Words of a buffer -----

  /** The number of 16-bit words, an odd last byte counting as one. */
  function NumWords(b: seq<byte>): nat {
    (|b| + 1) / 2
  }

  /** Word k, little-endian; the missing byte of an odd last one is zero. */
  function Word16(b: seq<byte>, k: nat): nat
    requires k < NumWords(b)
  {
    b[2 * k] as nat + (if 2 * k + 1 < |b| then 0x100 * b[2 * k + 1] as nat else 0)
  }

  function WordSum(b: seq<byte>, n: nat): nat
    requires n <= NumWords(b)
  {
    if n == 0 then 0 else WordSum(b, n - 1) + Word16(b, n - 1)
  }

  // ----- One's-complement addition -----

  /** Addition with end-around carry. */
  function OnesAdd(x: nat, y: nat): nat {
    if x + y < 0x1_0000 then x + y else x + y - 0xffff
  }

  function OnesSum(b: seq<byte>, n: nat): (r: nat)
    requires n <= NumWords(b)
  {
    if n == 0 then 0 else OnesAdd(OnesSum(b, n - 1), Word16(b, n - 1))
  }

  /** The residue of a sum modulo 65535, zero only for zero. */
  function Residue(s: nat): nat {
    if s == 0 then 0 else (s - 1) % 0xffff + 1
  }

  lemma ResidueAdd(s: nat, w: nat)
    requires w < 0x1_0000
    ensures OnesAdd(Residue(s), w) == Residue(s + w)
  {
    if s > 0 && w > 0 {
      var q, r := (s - 1) / 0xffff, (s - 1) % 0xffff;
      assert s + w - 1 == q * 0xffff + (r + w);
      if r + w < 0xffff {
        DivUnique(s + w - 1, q, r + w);
      } else {
        DivUnique(s + w - 1, q + 1, r + w - 0xffff);
      }
    }
  }

  lemma DivUnique(x: nat, q: nat, r: nat)
    requires x == q * 0xffff + r && r < 0xffff
    ensures x % 0xffff == r
  {
  }

  lemma Word16Fits(b: seq<byte>, k: nat)
    requires k < NumWords(b)
    ensures Word16(b, k) < 0x1_0000
  {
  }

  lemma {:induction false} OnesSumIs(b: seq<byte>, n: nat)
    requires n <= NumWords(b)
    ensures OnesSum(b, n) == Residue(WordSum(b, n))
  {
    hide Residue, Word16, OnesAdd;
    if n == 0 {
      assert Residue(0) == 0 by { ResidueZero(); }
    } else {
      OnesSumIs(b, n - 1);
      Word16Fits(b, n - 1);
      ResidueAdd(WordSum(b, n - 1), Word16(b, n - 1));
    }
  }

  lemma ResidueZero()
    ensures Residue(0) == 0
  {
  }

  lemma {:induction false} WordSumBound(b: seq<byte>, n: nat)
    requires n <= NumWords(b)
    ensures WordSum(b, n) <= n * 0xffff
  {
    if n > 0 {
      WordSumBound(b, n - 1);
      Word16Fits(b, n - 1);
    }
  }

  // ----- The two folds -----

  /** The carries folded into the low 16 bits, twice. */
  function Folded(sum: uint32): nat {
    var once := sum % 0x1_0000 + sum / 0x1_0000;
    (once + once / 0x1_0000) % 0x1_0000
  }

  lemma FoldedIs(sum: uint32)
    ensures Folded(sum) == Residue(sum)
  {
    var hi, lo := sum / 0x1_0000, sum % 0x1_0000;
    var once := lo + hi;
    assert sum == hi * 0x1_0000 + lo;
    if sum > 0 {
      assert sum - 1 == hi * 0xffff + (once - 1);
      if once < 0x1_0000 {
        DivUnique(sum - 1, hi, once - 1);
      } else {
        DivUnique(sum - 1, hi + 1, once - 0x1_0000);
      }
    }
  }

  function Low32(x: nat): uint32 {
    x % 0x1_0000_0000
  }

  lemma Low32Add(s: nat, w: nat)
    ensures Low32(Low32(s) + w) == Low32(s + w)
  {
  }

  /** What in_cksum computes: a 32-bit sum, folded and complemented. */
  function Cksum(b: seq<byte>): (r: nat)
    ensures r < 0x1_0000
  {
    0xffff - Folded(Low32(WordSum(b, NumWords(b))))
  }

  method SumWords(b: seq<byte>) returns (sum: uint32)
    ensures sum == Low32(WordSum(b, NumWords(b)))
  {
    hide Low32;
    var nleft, w: nat := |b|, 0;
    sum := 0;
    assert Low32(0) == 0 by { Low32Zero(); }
    while nleft > 1
      invariant 0 <= nleft <= |b| && nleft == |b| - 2 * w && w <= NumWords(b) && sum == Low32(WordSum(b, w))
    {
      var word := b[2 * w] as nat + 0x100 * b[2 * w + 1] as nat;
      Low32Add(WordSum(b, w), word);
      sum := Low32(sum + word);
      w := w + 1;
      nleft := nleft - 2;
    }
    if nleft == 1 {
      Low32Add(WordSum(b, w), b[2 * w]);
      sum := Low32(sum + b[2 * w] as nat);
      w := w + 1;
    }
  }

  lemma Low32Zero()
    ensures Low32(0) == 0
  {
  }

  method InCksum(b: seq<byte>) returns (answer: nat)
    ensures answer == Cksum(b)
  {
    hide Low32, WordSum;
    var sum := SumWords(b);
    sum := sum % 0x1_0000 + sum / 0x1_0000;
    sum := sum + sum / 0x1_0000;
    answer := 0xffff - sum % 0x1_0000;
  }

  /** For at most 65537 words the result is the complement of the exact one's-complement sum. */
  lemma CksumExact(b: seq<byte>)
    requires NumWords(b) <= 65537
    ensures Cksum(b) == 0xffff - OnesSum(b, NumWords(b))
  {
    hide Word16, WordSum, OnesSum, Folded, Residue;
    var s := WordSum(b, NumWords(b));
    WordSumBound(b, NumWords(b));
    OnesSumIs(b, NumWords(b));
    FoldedIs(s);
  }

  /** 65538 words of all ones among n words, the others zero. */
  function Ones(n: nat): (b: seq<byte>)
    ensures |b| == 2 * n
  {
    seq(2 * n, i => if i < 2 * 65538 then 0xff else 0)
  }

  lemma {:induction false} OnesTotal(n: nat, k: nat)
    requires k <= n
    ensures NumWords(Ones(n)) == n && WordSum(Ones(n), k) == (if k < 65538 then k else 65538) * 0xffff
  {
    if k > 0 {
      OnesTotal(n, k - 1);
    }
  }

  // One word more and the accumulator can wrap.
  lemma TooManyWords(n: nat)
    requires n >= 65538
    ensures NumWords(Ones(n)) == n && Cksum(Ones(n)) != 0xffff - OnesSum(Ones(n), n)
  {
    hide Ones, WordSum, OnesSum, Folded, NumWords;
    var b := Ones(n);
    OnesTotal(n, n);
    OnesSumIs(b, n);
    var total := WordSum(b, n);
    assert total == 0x1_0000_0000 + 0xfffe;
    DivUnique(total - 1, 65537, 0xfffe);
    FoldedIs(0xfffe);
  }

  /** The result is exact for every buffer of n words if and only if n is at most 65537. */
  lemma ExactIff(n: nat)
    ensures (forall b: seq<byte> :: NumWords(b) == n ==> Cksum(b) == 0xffff - OnesSum(b, n)) <==> n <= 65537
  {
    hide NumWords, Cksum, OnesSum, Ones;
    if n <= 65537 {
      forall b: seq<byte> | NumWords(b) == n ensures Cksum(b) == 0xffff - OnesSum(b, n) {
        CksumExact(b);
      }
    } else {
      TooManyWords(n);
    }
  }

  // ----- Re-verification -----

  /** b with the 16-bit value x stored little-endian as word k. */
  function Stored(b: seq<byte>, k: nat, x: nat): (r: seq<byte>)
    requires 2 * k + 1 < |b| && x < 0x1_0000
    ensures |r| == |b|
  {
    b[2 * k := x % 0x100][2 * k + 1 := x / 0x100]
  }

  lemma StoredWord(b: seq<byte>, k: nat, x: nat, j: nat)
    requires 2 * k + 1 < |b| && x < 0x1_0000 && j < NumWords(b)
    ensures Word16(Stored(b, k, x), j) == if j == k then x else Word16(b, j)
  {
  }

  lemma {:induction false} StoredSum(b: seq<byte>, k: nat, x: nat, n: nat)
    requires 2 * k + 1 < |b| && x < 0x1_0000 && n <= NumWords(b) && Word16(b, k) == 0
    ensures WordSum(Stored(b, k, x), n) == WordSum(b, n) + (if k < n then x else 0)
  {
    hide Word16, Stored;
    if n > 0 {
      StoredSum(b, k, x, n - 1);
      StoredWord(b, k, x, n - 1);
    }
  }

  /** Storing the checksum in its zero field makes the checksum of the whole zero. */
  lemma VerifiesToZero(b: seq<byte>, k: nat)
    requires NumWords(b) <= 65537 && 2 * k + 1 < |b| && Word16(b, k) == 0
    ensures Cksum(Stored(b, k, Cksum(b))) == 0
  {
    hide Word16, Stored, Folded, WordSum;
    var n, s, x := NumWords(b), WordSum(b, NumWords(b)), Cksum(b);
    StoredSum(b, k, x, n);
    ZeroFieldBound(b, k, n);
    FoldedIs(s);
    FoldedIs(s + x);
    ComplementResidue(s);
  }

  lemma ComplementResidue(s: nat)
    ensures Residue(s + (0xffff - Residue(s))) == 0xffff
  {
    if s > 0 {
      var q, r := (s - 1) / 0xffff, (s - 1) % 0xffff;
      assert s + (0xffff - (r + 1)) - 1 == q * 0xffff + 0xfffe;
      DivUnique(q * 0xffff + 0xfffe, q, 0xfffe);
    }
  }

  // With a zero field there is room for the checksum in the 32-bit sum.
  lemma {:induction false} ZeroFieldBound(b: seq<byte>, k: nat, n: nat)
    requires n <= NumWords(b) && k < NumWords(b) && Word16(b, k) == 0
    ensures WordSum(b, n) <= (if k < n then n - 1 else n) * 0xffff
  {
    if n > 0 {
      ZeroFieldBound(b, k, n - 1);
      Word16Fits(b, n - 1);
    }
  }
}
