/** kernel/pipe.c: a bounded ring between processes, with the sleep and wakeup of kernel/proc.c. */
module Pipe {
  import opened Machine

  const PIPESIZE: nat := 512

  // ----- The ring -----

  datatype Ring = Ring(data: seq<byte>, nread: uint32, nwrite: uint32)

  function Len(r: Ring): nat {
    (r.nwrite - r.nread) % 0x1_0000_0000
  }

  ghost predicate Fine(r: Ring) {
    |r.data| == PIPESIZE && Len(r) <= PIPESIZE
  }

  /** The writer is PIPESIZE ahead of the reader, in 32 bits. */
  predicate Full(r: Ring) {
    r.nwrite == (r.nread + PIPESIZE) % 0x1_0000_0000
  }

  predicate Empty(r: Ring) {
    r.nread == r.nwrite
  }

  /** ch goes in at the writer's place, which moves on. */
  function Store(r: Ring, ch: byte): Ring
    requires |r.data| == PIPESIZE
  {
    r.(data := r.data[r.nwrite % PIPESIZE := ch], nwrite := (r.nwrite + 1) % 0x1_0000_0000)
  }

  /** The byte at the reader's place. */
  function Front(r: Ring): byte
    requires |r.data| == PIPESIZE
  {
    r.data[r.nread % PIPESIZE]
  }

  /** The reader's place moves on. */
  function Remove(r: Ring): Ring {
    r.(nread := (r.nread + 1) % 0x1_0000_0000)
  }

  /** The bytes in the pipe, oldest first. */
  ghost function Queue(r: Ring): (q: seq<byte>)
    requires Fine(r)
    ensures |q| == Len(r)
  {
    seq(Len(r), k requires 0 <= k < Len(r) => r.data[(r.nread + k) % PIPESIZE])
  }

  lemma LenCases(r: Ring)
    requires Fine(r)
    ensures r.nwrite == r.nread + Len(r) || r.nwrite + 0x1_0000_0000 == r.nread + Len(r)
    ensures Full(r) <==> Len(r) == PIPESIZE
    ensures Empty(r) <==> Len(r) == 0
  {
  }

  // Counters wrap at a multiple of PIPESIZE, so wrapping does not disturb the slots.
  lemma SlotWraps(a: nat, b: nat)
    requires a == b || a + 0x1_0000_0000 == b
    ensures a % PIPESIZE == b % PIPESIZE
  {
  }

  lemma SlotsApart(x: nat, k: nat, m: nat)
    requires k < m < PIPESIZE
    ensures (x + k) % PIPESIZE != (x + m) % PIPESIZE
  {
  }

  lemma LenAfter(r: Ring, ch: byte)
    requires Fine(r)
    ensures !Full(r) ==> Len(Store(r, ch)) == Len(r) + 1
    ensures !Empty(r) ==> Len(Remove(r)) == Len(r) - 1
  {
    LenCases(r);
  }

  /** Storing appends. */
  lemma StoreAppends(r: Ring, ch: byte)
    requires Fine(r) && !Full(r)
    ensures Fine(Store(r, ch)) && Queue(Store(r, ch)) == Queue(r) + [ch]
  {
    hide Len, Full;
    var n, r' := Len(r), Store(r, ch);
    LenCases(r);
    LenAfter(r, ch);
    SlotWraps(r.nwrite, r.nread + n);
    var q, q' := Queue(r) + [ch], Queue(r');
    forall k | 0 <= k < n + 1 ensures q'[k] == q[k] {
      if k < n {
        SlotsApart(r.nread, k, n);
      }
    }
  }

  /** Removing takes the oldest byte. */
  lemma RemoveTakesFirst(r: Ring)
    requires Fine(r) && !Empty(r)
    ensures Fine(Remove(r)) && Queue(r) == [Front(r)] + Queue(Remove(r))
  {
    hide Len;
    var n, r' := Len(r), Remove(r);
    LenCases(r);
    LenAfter(r, 0);
    var q, q' := Queue(r), [Front(r)] + Queue(r');
    forall k | 0 <= k < n ensures q[k] == q'[k] {
      if k > 0 {
        assert q'[k] == r.data[(r'.nread + (k - 1)) % PIPESIZE];
        NextWraps(r.nread);
        SlotWraps(r'.nread + (k - 1), r.nread + k);
      }
    }
  }

  lemma NextWraps(x: uint32)
    ensures (x + 1) % 0x1_0000_0000 == x + 1 || (x + 1) % 0x1_0000_0000 + 0x1_0000_0000 == x + 1
  {
  }

  /** How pipewrite's loop leaves off: it returns -1, must sleep, or falls out of the loop. */
  datatype Outcome = Refused | MustSleep | Fell

  class Pipe {
    const data: array<byte>
    var nread: uint32
    var nwrite: uint32
    var readopen: bool
    var writeopen: bool

    ghost function State(): Ring
      reads this, data
    {
      Ring(data[..], nread, nwrite)
    }

    ghost predicate Valid()
      reads this, data
    {
      Fine(State())
    }

    ghost function Bytes(): seq<byte>
      reads this, data
      requires Valid()
    {
      Queue(State())
    }

    constructor ()
      ensures Valid() && fresh(data) && Bytes() == [] && readopen && writeopen
    {
      data := new byte[PIPESIZE](_ => 0);
      nread, nwrite := 0, 0;
      readopen, writeopen := true, true;
    }

    /** pipewrite's loop while it holds the lock. The killed flag may be raised by another CPU at any time:
        it reads as set from turn `killedAt` on; source bytes from `readable` on cannot be copied in. */
    method WriteTurn(src: seq<byte>, start: nat, killedAt: nat, readable: nat) returns (i: nat, out: Outcome)
      requires Valid() && start <= |src|
      modifies this`nwrite, data
      ensures Valid() && start <= i <= |src| && Bytes() == old(Bytes()) + src[start..i]
      ensures match out
              case Refused => i < |src| && (!readopen || i >= killedAt)
              case MustSleep => i < |src| && Full(State()) && readopen && i < killedAt
              case Fell => i == |src| || (i >= readable && readopen && i < killedAt && !Full(State()))
      // no byte is stored once the read end is closed or the flag is up
      ensures i > start ==> readopen && i - 1 < killedAt && i - 1 < readable
    {
      hide Queue, Len;
      i := start;
      while i < |src|
        invariant start <= i <= |src| && Valid() && Bytes() == old(Bytes()) + src[start..i]
        invariant i > start ==> readopen && i - 1 < killedAt && i - 1 < readable
      {
        if !readopen || i >= killedAt {
          return i, Refused;
        }
        if nwrite == (nread + PIPESIZE) % 0x1_0000_0000 {
          return i, MustSleep;
        }
        if i >= readable {
          return i, Fell;
        }
        StoreAppends(State(), src[i]);
        ghost var next := Store(State(), src[i]);
        data[nwrite % PIPESIZE] := src[i];
        nwrite := (nwrite + 1) % 0x1_0000_0000;
        assert State() == next;
        i := i + 1;
      }
      out := Fell;
    }

    /** piperead's copying loop: `got` is what reaches the reader. Destination bytes from `writable` on
        cannot be stored; a byte taken out for one of those is gone. */
    method ReadTurn(n: nat, writable: nat) returns (got: seq<byte>)
      requires Valid()
      modifies this`nread
      ensures Valid() && got <= old(Bytes())
      ensures |got| == Least(n, |old(Bytes())|, writable)
      ensures Bytes() == old(Bytes())[|got| + (if |got| < n && |got| < |old(Bytes())| then 1 else 0)..]
    {
      hide Queue, Len;
      got := [];
      var i := 0;
      while i < n
        invariant Valid() && i == |got| <= n && got + Bytes() == old(Bytes()) && |got| <= writable
      {
        LenCases(State());
        if nread == nwrite {
          return;
        }
        RemoveTakesFirst(State());
        ghost var next := Remove(State());
        var ch := data[nread % PIPESIZE];
        nread := (nread + 1) % 0x1_0000_0000;
        assert State() == next;
        if i >= writable {
          return;
        }
        got := got + [ch];
        i := i + 1;
      }
    }
  }

  function Least(a: nat, b: nat, c: nat): nat {
    if a <= b && a <= c then a else if b <= c then b else c
  }
}
