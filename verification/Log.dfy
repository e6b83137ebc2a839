/** kernel/log.c as the kernel runs it: loops over the in-memory header that read buffers and issue
    block writes. Every method says exactly which writes reach the disk, in order. */
module Log {
  import opened Machine
  import opened LogFormat

  class Log {
    const l: Layout
    var disk: Disk
    var dirty: map<nat, Block>     // contents of the buffers log_write pinned
    var block: array<uint32>       // log.lh.block
    var n: nat                     // log.lh.n
    var outstanding: nat
    var committing: bool
    ghost var trace: seq<Write>    // every disk write so far

    ghost predicate Valid()
      reads this, block
    {
      && block.Length == LOGSIZE && n <= LOGSIZE
      && 0 < l.size && l.start + l.size <= |disk| <= 0x1_0000_0000
      && GoodTargets(l, disk, block[..n])
    }

    /** No transaction is half-way: the disk log is empty and every logged block is pinned. */
    ghost predicate Quiet()
      reads this, block
    {
      && Valid() && Clean(l, disk)
      && (forall i :: 0 <= i < n ==> block[i] in dirty)
      && (forall b :: b in dirty ==> b in block[..n])
    }

    /** initlog at power on: memory is empty, the disk is what the last run left, and it is recovered. */
    constructor (l: Layout, d: Disk)
      requires ValidLog(l, d)
      ensures Quiet() && fresh(block)
      ensures this.l == l && dirty == map[] && n == 0 && outstanding == 0 && !committing
      ensures disk == Recover(l, d) && trace == RecoveryWrites(l, d)
    {
      this.l := l;
      disk, dirty, n, outstanding, committing, trace := d, map[], 0, 0, false, [];
      block := new uint32[LOGSIZE];
      new;
      RecoverFromLog();
    }

    /** The contents bread returns: the pinned buffer's, else the disk's. */
    function Bread(b: nat): Block
      reads this
      requires b < |disk|
    {
      if b in dirty then dirty[b] else disk[b]
    }

    method Bwrite(b: nat, data: Block)
      requires b < |disk|
      modifies this`disk, this`trace
      ensures disk == old(disk)[b := data] && trace == old(trace) + [Write(b, data)]
    {
      disk, trace := disk[b := data], trace + [Write(b, data)];
    }

    method ReadHead()
      requires Valid() && ValidLog(l, disk) && dirty == map[]
      modifies this`n, block
      ensures Valid() && block[..n] == Targets(disk[l.start])
    {
      hide Word;
      var h := Bread(l.start);
      n := Count(h);
      for i := 0 to n
        invariant n == Count(h)
        invariant forall j :: 0 <= j < i ==> block[j] == Targets(h)[j]
      {
        block[i] := Word(h, 1 + i);
      }
      assert block[..n] == Targets(h);
    }

    method WriteHead()
      requires Valid() && l.start !in dirty
      modifies this`disk, this`trace
      ensures Valid()
      ensures disk == old(disk)[l.start := HeaderBlock(old(disk[l.start]), block[..n])]
      ensures trace == old(trace) + [Write(l.start, HeaderBlock(old(disk[l.start]), block[..n]))]
    {
      hide Word, PutWord;
      var h := PutWord(Bread(l.start), 0, n);
      ghost var h0 := h;
      for i := 0 to n
        invariant h == PutWords(h0, 1, block[..i])
      {
        assert block[..i + 1][..i] == block[..i];
        h := PutWord(h, 1 + i, block[i]);
      }
      Bwrite(l.start, h);
    }

    method WriteLog()
      requires Quiet()
      modifies this`disk, this`trace
      ensures var ws := SlotWrites(l, Contents(block[..n], dirty));
              disk == Apply(old(disk), ws) && trace == old(trace) + ws
    {
      hide Word, Targets, Apply, Distinct, ValidLog;
      ghost var d0 := disk;
      ghost var ws := SlotWrites(l, Contents(block[..n], dirty));
      ApplyNone(d0, ws);
      for tail := 0 to n
        invariant |disk| == |d0|
        invariant disk == Apply(d0, ws[..tail])
        invariant trace == old(trace) + ws[..tail]
      {
        ApplyOneMore(d0, ws, tail);
        var from := Bread(block[tail]);
        var to := from;
        Bwrite(l.start + tail + 1, to);
      }
      assert ws[..n] == ws;
    }

    method InstallTrans(recovering: bool)
      requires Valid()
      requires forall b :: b in dirty ==> b in block[..n]
      modifies this`disk, this`trace, this`dirty
      ensures var ws := HomeWrites(block[..n], old(disk)[l.start + 1..l.start + 1 + n]);
              disk == Apply(old(disk), ws) && trace == old(trace) + ws
      ensures dirty == if recovering then old(dirty) else map[]
    {
      hide Word, Targets, Apply, Distinct;
      ghost var d0 := disk;
      ghost var ws := HomeWrites(block[..n], d0[l.start + 1..l.start + 1 + n]);
      ApplyNone(d0, ws);
      for tail := 0 to n
        invariant |disk| == |d0|
        invariant disk == Apply(d0, ws[..tail])
        invariant trace == old(trace) + ws[..tail]
        invariant recovering ==> dirty == old(dirty)
        invariant !recovering ==> forall b :: b in dirty ==> b in block[tail..n]
      {
        ApplyOneMore(d0, ws, tail);
        assert !Home(l, disk, l.start + tail + 1);
        ApplyUntouched(d0, ws[..tail], l.start + tail + 1);
        var lbuf := Bread(l.start + tail + 1);
        var dbuf := lbuf;
        Bwrite(block[tail], dbuf);
        if !recovering {
          dirty := dirty - {block[tail] as nat};
        }
      }
      assert ws[..n] == ws;
    }

    /** kernel/log.c commit(): the disk sees exactly CommitWrites, so LogFormat.CrashAnywhere covers
        a power loss at every point of this method. */
    method Commit()
      requires Quiet()
      modifies this`disk, this`trace, this`dirty, this`n
      ensures Quiet() && n == 0 && dirty == map[]
      ensures old(n) == 0 ==> disk == old(disk) && trace == old(trace)
      ensures old(n) > 0 ==>
                var ts, data := old(block[..n]), Contents(old(block[..n]), old(dirty));
                && trace == old(trace) + CommitWrites(l, old(disk), ts, data)
                && SameHome(l, Updated(l, old(disk), ts, data), disk)
    {
      hide Word, PutWord, Targets, CommitWrites, Apply, SlotWrites, HomeWrites;
      ghost var d0, ts, data := disk, block[..n], Contents(block[..n], dirty);
      if n > 0 {
        PassesApplied(l, d0, ts, data);
        CommitPasses(l, d0, ts, data);
        CommitComplete(l, d0, ts, data);
        WriteLog();
        WriteHead();
        InstallTrans(false);
        n := 0;
        WriteHead();
      }
    }

    /** kernel/log.c recover_from_log(), the first thing a boot does. */
    method RecoverFromLog()
      requires Valid() && ValidLog(l, disk) && dirty == map[]
      modifies this`disk, this`trace, this`dirty, this`n, block
      ensures Quiet() && n == 0 && dirty == map[]
      ensures disk == Recover(l, old(disk)) && trace == old(trace) + RecoveryWrites(l, old(disk))
    {
      hide Word, PutWord, Targets, Apply, RecoveryWrites, Recover;
      RecoverAt(l, disk);
      RecoveryPasses(l, disk);
      ReadHead();
      InstallTrans(true);
      n := 0;
      WriteHead();
    }

    /** kernel/log.c log_write(); the panics are results that change nothing. */
    method LogWrite(b: uint32, data: Block) returns (panics: bool)
      requires Quiet() && Home(l, disk, b)
      modifies this`n, this`dirty, block
      ensures panics == (old(n) >= LOGSIZE || old(n) >= l.size - 1 || outstanding < 1)
      ensures Quiet()
      ensures panics ==> n == old(n) && dirty == old(dirty) && block[..] == old(block[..])
      ensures !panics ==> dirty == old(dirty)[b as nat := data]
      ensures !panics ==> block[..n] == if b in old(block[..n]) then old(block[..n]) else old(block[..n]) + [b]
    {
      hide Word, Targets, Distinct, Clean, Home;
      if n >= LOGSIZE || n >= l.size - 1 || outstanding < 1 {
        return true;
      }
      ghost var ts := block[..n];
      var i := 0;
      while i < n && block[i] != b
        invariant i <= n && b !in ts[..i]
      {
        i := i + 1;
      }
      assert i < n ==> ts[i] == b;
      block[i] := b;
      dirty := dirty[b as nat := data];
      if i == n {
        assert ts[..n] == ts;
        ListedAppend(l, disk, ts, b);
        n := n + 1;
        assert block[..n] == ts + [b];
      } else {
        assert block[..n] == ts;
      }
      return false;
    }

    /** One turn of begin_op's loop; waiting leaves everything as it is. An admitted operation has room for
        MAXOPBLOCKS blocks beside what is logged and what the other open operations may still log. */
    method BeginOp() returns (waits: bool)
      modifies this`outstanding
      ensures waits <==> committing || n + (old(outstanding) + 1) * MAXOPBLOCKS > LOGSIZE
      ensures outstanding == if waits then old(outstanding) else old(outstanding) + 1
      ensures !waits ==> !committing && n + outstanding * MAXOPBLOCKS <= LOGSIZE
    {
      if committing {
        return true;
      }
      if n + (outstanding + 1) * MAXOPBLOCKS > LOGSIZE {
        return true;
      }
      outstanding := outstanding + 1;
      return false;
    }

    /** end_op. The last operation out commits; otherwise nothing reaches the disk. */
    method EndOp() returns (panics: bool)
      requires Quiet() && outstanding > 0
      modifies this`outstanding, this`committing, this`disk, this`trace, this`dirty, this`n
      ensures panics <==> old(committing)
      ensures outstanding == old(outstanding) - 1
      ensures !panics ==> Quiet() && !committing
      ensures !panics && (outstanding > 0 || old(n) == 0) ==>
                disk == old(disk) && trace == old(trace) && dirty == old(dirty) && n == old(n)
      ensures !panics && outstanding == 0 && old(n) > 0 ==>
                var ts, data := old(block[..n]), Contents(old(block[..n]), old(dirty));
                && n == 0 && dirty == map[] && trace == old(trace) + CommitWrites(l, old(disk), ts, data)
                && SameHome(l, Updated(l, old(disk), ts, data), disk)
    {
      hide Clean, GoodTargets, Contents, CommitWrites, Updated, SameHome;
      outstanding := outstanding - 1;
      if committing {
        return true;
      }
      if outstanding == 0 {
        committing := true;
        Commit();
        committing := false;
      }
      return false;
    }
  }
}
