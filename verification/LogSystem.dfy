module LogSystem {
  // The buffer cache (kernel/bio.c) and the log (kernel/log.c) running together, with any number of
  // threads interleaved at every lock boundary and every disk write.
  //
  // `logical` records what callers last passed to log_write; `committed` what was last committed. Both
  // are history: no step tests them. The buffer contents, reference counts, sleep locks, log header and
  // disk are the kernel's.

  import opened Machine
  import opened LogFormat
  import A = LogAdmission

  type Tid = nat

  /** `holders` are the threads between bget and the end of brelse; `unlogged` marks a buffer changed
      since its last log_write. */
  datatype Buf = Buf(block: Option<nat>, valid: bool, refcnt: nat, lock: Option<Tid>, data: Block,
                     holders: set<Tid>, unlogged: bool)

  /** `ts` is log.lh.block[..log.lh.n]; `passed` maps a thread that has made log_write's test and waits for
      log.lock to its buffer; `wrote` counts the disk writes of the commit in progress, which started from
      disk `base`. */
  datatype State = State(
    disk: Disk, bufs: seq<Buf>,
    ts: seq<nat>, ops: map<Tid, nat>, passed: map<Tid, nat>, committing: bool, committer: Tid, wrote: nat,
    base: Disk, logical: Disk, committed: Disk)

  datatype Step =
    | Hit(t: Tid, b: nat, i: nat)             // bget finds the block
    | Recycle(t: Tid, b: nat, i: nat)         // bget reuses an unreferenced buffer
    | Lock(t: Tid, i: nat)                    // acquiresleep
    | Fill(t: Tid, i: nat)                    // bread reads the disk
    | Modify(t: Tid, i: nat, data: Block)
    | Check(t: Tid, i: nat)                   // log_write: the tests, no lock held
    | Append(t: Tid, i: nat)                  // log_write: under log.lock
    | Unlock(t: Tid, i: nat)                  // brelse, releasesleep
    | Drop(t: Tid, i: nat)                    // brelse, refcnt--
    | Begin(t: Tid)
    | End(t: Tid)
    | SlotWrite(i: nat, j: nat)               // write_log: buffer j into log slot buffer i
    | HeadWrite(i: nat)                       // write_head: the commit point
    | Install(i: nat, j: nat)                 // install_trans: slot buffer i into home buffer j, bunpin
    | Clear(i: nat)                           // commit: the empty header is written
    | Finish                                  // end_op: the commit is over

  function Adm(s: State): A.Admission {
    A.Admission(|s.ts|, s.ops, s.committing, s.passed.Keys)
  }

  predicate LockedBy(s: State, t: Tid, i: nat) {
    i < |s.bufs| && s.bufs[i].lock == Some(t) && s.bufs[i].block.Some?
  }

  /** The committing thread has bread block b into buffer i and not released it. */
  predicate CommitterHas(s: State, i: nat, b: nat) {
    LockedBy(s, s.committer, i) && s.bufs[i].valid && s.bufs[i].block == Some(b)
  }

  predicate LoggableBy(l: Layout, s: State, t: Tid, i: nat) {
    LockedBy(s, t, i) && s.bufs[i].valid && t in s.ops && Home(l, s.disk, s.bufs[i].block.value)
  }

  predicate Enabled(l: Layout, s: State, st: Step) {
    match st
    case Hit(t, b, i) => t !in s.passed && i < |s.bufs| && s.bufs[i].block == Some(b) && t !in s.bufs[i].holders
    case Recycle(t, b, i) =>
      && t !in s.passed && i < |s.bufs| && b < |s.disk| && s.bufs[i].refcnt == 0
      && (forall j :: 0 <= j < |s.bufs| ==> s.bufs[j].block != Some(b))
    case Lock(t, i) => t !in s.passed && i < |s.bufs| && t in s.bufs[i].holders && s.bufs[i].lock == None
    case Fill(t, i) =>
      t !in s.passed && LockedBy(s, t, i) && !s.bufs[i].valid && s.bufs[i].block.value < |s.disk|
    case Modify(t, i, data) => t !in s.passed && LoggableBy(l, s, t, i)
    case Check(t, i) => t !in s.passed && LoggableBy(l, s, t, i) && !A.TooBig(l.size, |s.ts|)
    case Append(t, i) =>
      && t in s.passed && s.passed[t] == i && LoggableBy(l, s, t, i) && |s.logical| == |s.disk|
      && (s.bufs[i].block.value in s.ts || s.ops[t] < MAXOPBLOCKS)
    case Unlock(t, i) => t !in s.passed && LockedBy(s, t, i) && s.bufs[i].valid && !s.bufs[i].unlogged
    case Drop(t, i) =>
      && t !in s.passed && i < |s.bufs| && t in s.bufs[i].holders && s.bufs[i].lock != Some(t)
      && s.bufs[i].refcnt > 0
    case Begin(t) => t !in s.ops && t !in s.passed && A.CanBegin(Adm(s))
    case End(t) =>
      && t in s.ops && t !in s.passed
      && forall i :: 0 <= i < |s.bufs| && s.bufs[i].unlogged ==> s.bufs[i].lock != Some(t)
    case SlotWrite(i, j) =>
      && s.committing && s.wrote < |s.ts| && l.start + 1 + s.wrote < |s.disk|
      && CommitterHas(s, i, l.start + 1 + s.wrote) && CommitterHas(s, j, s.ts[s.wrote])
    case HeadWrite(i) =>
      && s.committing && s.ts != [] && s.wrote == |s.ts| <= LOGSIZE && l.start < |s.disk|
      && (forall k :: 0 <= k < |s.ts| ==> s.ts[k] < 0x1_0000_0000)
      && CommitterHas(s, i, l.start)
    case Install(i, j) =>
      && s.committing && |s.ts| < s.wrote <= 2 * |s.ts|
      && s.ts[s.wrote - |s.ts| - 1] < |s.disk|
      && CommitterHas(s, i, l.start + 1 + (s.wrote - |s.ts| - 1)) && CommitterHas(s, j, s.ts[s.wrote - |s.ts| - 1])
      && s.bufs[j].refcnt > 0
    case Clear(i) =>
      s.committing && s.ts != [] && s.wrote == 2 * |s.ts| + 1 && l.start < |s.disk| && CommitterHas(s, i, l.start)
    case Finish => s.committing && s.ts == []
  }

  function PutBuf(s: State, i: nat, b: Buf): State
    requires i < |s.bufs|
  {
    s.(bufs := s.bufs[i := b])
  }

  function Do(l: Layout, s: State, st: Step): State
    requires Enabled(l, s, st)
  {
    match st
    case Hit(t, b, i) => PutBuf(s, i, s.bufs[i].(refcnt := s.bufs[i].refcnt + 1, holders := s.bufs[i].holders + {t}))
    case Recycle(t, b, i) =>
      PutBuf(s, i,
             s.bufs[i].(block := Some(b), valid := false, refcnt := 1, holders := {t}, lock := None, unlogged := false))
    case Lock(t, i) => PutBuf(s, i, s.bufs[i].(lock := Some(t)))
    case Fill(t, i) => PutBuf(s, i, s.bufs[i].(valid := true, data := s.disk[s.bufs[i].block.value]))
    case Modify(t, i, data) => PutBuf(s, i, s.bufs[i].(data := data, unlogged := true))
    case Check(t, i) => s.(passed := s.passed[t := i])
    case Append(t, i) =>
      var b := s.bufs[i].block.value;
      var s1 := s.(logical := s.logical[b := s.bufs[i].data], passed := s.passed - {t});
      if b in s.ts then PutBuf(s1, i, s.bufs[i].(unlogged := false))
      else PutBuf(s1, i, s.bufs[i].(unlogged := false, refcnt := s.bufs[i].refcnt + 1))
           .(ts := s.ts + [b], ops := s.ops[t := s.ops[t] + 1])
    case Unlock(t, i) => PutBuf(s, i, s.bufs[i].(lock := None))
    case Drop(t, i) => PutBuf(s, i, s.bufs[i].(refcnt := s.bufs[i].refcnt - 1, holders := s.bufs[i].holders - {t}))
    case Begin(t) => s.(ops := s.ops[t := 0])
    case End(t) => s.(ops := s.ops - {t}, committing := s.ops.Keys == {t}, committer := t)
    case SlotWrite(i, j) =>
      var data := s.bufs[j].data;
      PutBuf(s, i, s.bufs[i].(data := data)).(disk := s.disk[l.start + 1 + s.wrote := data], wrote := s.wrote + 1)
    case HeadWrite(i) =>
      var h := HeaderBlock(s.bufs[i].data, s.ts);
      PutBuf(s, i, s.bufs[i].(data := h)).(disk := s.disk[l.start := h], wrote := s.wrote + 1, committed := s.logical)
    case Install(i, j) =>
      var data := s.bufs[i].data;
      PutBuf(s, j, s.bufs[j].(data := data, refcnt := s.bufs[j].refcnt - 1))
      .(disk := s.disk[s.ts[s.wrote - |s.ts| - 1] := data], wrote := s.wrote + 1)
    case Clear(i) =>
      var h := PutWord(s.bufs[i].data, 0, 0);
      PutBuf(s, i, s.bufs[i].(data := h)).(disk := s.disk[l.start := h], base := s.disk[l.start := h], ts := [],
                                           wrote := 0)
    case Finish => s.(committing := false)
  }

  // ----- Invariants -----

  function Installed(s: State): nat {
    if s.wrote <= |s.ts| then 0 else s.wrote - |s.ts| - 1
  }

  /** The block is logged and install_trans has not written it home yet. */
  predicate Pinned(s: State, b: nat) {
    exists k :: Installed(s) <= k < |s.ts| && s.ts[k] == b
  }

  ghost function Pending(s: State): (r: seq<Block>)
    requires forall k :: 0 <= k < |s.ts| ==> s.ts[k] < |s.logical|
    ensures |r| == |s.ts|
  {
    seq(|s.ts|, k requires 0 <= k < |s.ts| => s.logical[s.ts[k]])
  }

  /** What the last log_write (or, in the log region, the last disk write) stored in block b. */
  ghost function Current(l: Layout, s: State, b: nat): Block
    requires b < |s.disk| == |s.logical|
  {
    if InLog(l, b) then s.disk[b] else s.logical[b]
  }

  /** A transaction may have more blocks than the log region has slots, but only until its first disk write. */
  ghost predicate Sized(l: Layout, s: State) {
    && |s.disk| == |s.base| == |s.logical| == |s.committed|
    && Clean(l, s.base) && Listed(l, s.base, s.ts)
    && s.wrote <= 2 * |s.ts| + 1
    && (s.wrote > 0 ==> |s.ts| < l.size) && (l.size < 2 ==> s.ts == [])
  }

  ghost predicate DiskInv(l: Layout, s: State)
    requires Sized(l, s)
  {
    && s.disk == (if s.wrote == 0 then s.base else Crashed(l, s.base, s.ts, Pending(s), s.wrote))
    && (forall b: nat :: Home(l, s.base, b) && b !in s.ts ==> s.logical[b] == s.base[b])
    && SameHome(l, s.committed, if s.wrote <= |s.ts| then s.base else s.logical)
  }

  ghost predicate Protocol(s: State) {
    A.Inv(Adm(s)) && (s.wrote > 0 ==> s.committing && s.ts != [])
  }

  ghost predicate BufOk(l: Layout, s: State, b: Buf)
    requires Sized(l, s)
  {
    && (b.block.None? ==> b.refcnt == 0 && b.holders == {} && b.lock.None? && !b.unlogged)
    && (b.block.Some? ==>
          && b.block.value < |s.disk|
          && b.refcnt == |b.holders| + (if Pinned(s, b.block.value) then 1 else 0)
          && (b.lock.Some? ==> b.lock.value in b.holders)
          && (b.valid && !b.unlogged ==> b.data == Current(l, s, b.block.value))
          && (b.unlogged ==> b.valid && b.lock.Some? && b.lock.value in s.ops && Home(l, s.disk, b.block.value)))
  }

  ghost predicate Unique(bufs: seq<Buf>) {
    forall i, j :: 0 <= i < j < |bufs| && bufs[i].block.Some? ==> bufs[i].block != bufs[j].block
  }

  /** Some buffer holds block b with contents. */
  ghost predicate Cached(bufs: seq<Buf>, b: nat) {
    exists i :: 0 <= i < |bufs| && bufs[i].block == Some(b) && bufs[i].valid
  }

  ghost predicate CacheInv(l: Layout, s: State)
    requires Sized(l, s)
  {
    && (forall i :: 0 <= i < |s.bufs| ==> BufOk(l, s, s.bufs[i]))
    && Unique(s.bufs)
    && (forall b: nat :: Pinned(s, b) ==> Cached(s.bufs, b))
  }

  /** A thread inside log_write still holds the buffer it logs. */
  ghost predicate PassedInv(l: Layout, s: State) {
    forall t :: t in s.passed ==> LoggableBy(l, s, t, s.passed[t]) && l.size >= 2
  }

  ghost predicate Core(l: Layout, s: State) {
    Sized(l, s) && DiskInv(l, s) && Protocol(s) && CacheInv(l, s)
  }

  ghost predicate Inv(l: Layout, s: State) {
    Core(l, s) && PassedInv(l, s)
  }

  // ----- Every step keeps the invariant -----

  // Replacing one buffer by another that is also in order.
  lemma PutBufKeeps(l: Layout, s: State, i: nat, b: Buf)
    requires Core(l, s) && i < |s.bufs| && BufOk(l, s, b)
    requires || (b.block == s.bufs[i].block && (s.bufs[i].valid ==> b.valid))
             || (s.bufs[i].refcnt == 0 && forall j :: 0 <= j < |s.bufs| ==> s.bufs[j].block != b.block)
    ensures Core(l, PutBuf(s, i, b))
  {
    hide Clean, Distinct, Crashed, A.Inv;
    var s' := PutBuf(s, i, b);
    assert Pending(s') == Pending(s);
    assert BufOk(l, s', b);
    forall k | 0 <= k < |s'.bufs| ensures BufOk(l, s', s'.bufs[k]) {
      assert BufOk(l, s, s.bufs[k]);
    }
    forall x: nat | Pinned(s', x) ensures Cached(s'.bufs, x) {
      assert Pinned(s, x);
      var k :| 0 <= k < |s.bufs| && s.bufs[k].block == Some(x) && s.bufs[k].valid;
      assert BufOk(l, s, s.bufs[k]);
      assert s'.bufs[k].block == Some(x) && s'.bufs[k].valid;
    }
  }

  // bget's two outcomes.
  lemma GetKeeps(l: Layout, s: State, st: Step)
    requires Core(l, s) && (st.Hit? || st.Recycle?) && Enabled(l, s, st)
    ensures Core(l, Do(l, s, st))
  {
    hide Clean, Distinct, Crashed, A.Inv, DiskInv;
    var i := st.i;
    assert BufOk(l, s, s.bufs[i]);
    assert st.Recycle? ==> !Pinned(s, st.b);
    PutBufKeeps(l, s, i, Do(l, s, st).bufs[i]);
  }

  // A block read from the disk is current: a logged block that is not home yet is in the cache.
  lemma DiskCurrent(l: Layout, s: State, b: nat)
    requires Sized(l, s) && DiskInv(l, s) && b < |s.disk| && !Pinned(s, b)
    ensures s.disk[b] == Current(l, s, b)
  {
    hide Clean, Distinct;
    if !InLog(l, b) {
      if s.wrote <= |s.ts| {
        assert b !in s.ts;
        if s.wrote > 0 { CrashBeforeHeader(l, s.base, s.ts, Pending(s), s.wrote); }
      } else {
        CommitPrefixAt(l, s.base, s.ts, Pending(s), s.wrote);
        if b in s.ts {
          var k :| 0 <= k < |s.ts| && s.ts[k] == b;
          assert k < Installed(s);
        } else {
          assert b !in s.ts[..s.wrote - |s.ts| - 1];
        }
      }
    }
  }

  lemma FillKeeps(l: Layout, s: State, t: Tid, i: nat)
    requires Core(l, s) && Enabled(l, s, Fill(t, i))
    ensures Core(l, Do(l, s, Fill(t, i)))
  {
    hide Clean, Distinct, Crashed, A.Inv, DiskInv, SameHome;
    var b := s.bufs[i];
    assert BufOk(l, s, b);
    assert !Pinned(s, b.block.value);
    DiskCurrent(l, s, b.block.value);
    PutBufKeeps(l, s, i, Do(l, s, Fill(t, i)).bufs[i]);
  }

  lemma HoldKeeps(l: Layout, s: State, st: Step)
    requires Core(l, s) && (st.Lock? || st.Modify? || st.Unlock? || st.Drop?) && Enabled(l, s, st)
    ensures Core(l, Do(l, s, st))
  {
    hide Clean, Distinct, Crashed, A.Inv, DiskInv;
    assert BufOk(l, s, s.bufs[st.i]);
    PutBufKeeps(l, s, st.i, Do(l, s, st).bufs[st.i]);
  }

  lemma BeginEndKeeps(l: Layout, s: State, st: Step)
    requires Core(l, s) && (st.Begin? || st.End? || st.Finish?) && Enabled(l, s, st)
    ensures Core(l, Do(l, s, st))
  {
    hide Clean, Distinct, Crashed, A.Unspent;
    var s' := Do(l, s, st);
    A.InvStep(l.size, Adm(s), match st case Begin(t) => A.Begin(t) case End(t) => A.End(t) case _ => A.Finish);
    assert Pending(s') == Pending(s);
    forall k | 0 <= k < |s'.bufs| ensures BufOk(l, s', s'.bufs[k]) {
      assert BufOk(l, s, s.bufs[k]);
    }
    forall x: nat | Pinned(s', x) ensures Cached(s'.bufs, x) {
      assert Pinned(s, x);
    }
  }

  lemma PinnedIsLogged(s: State, b: nat)
    requires s.wrote <= |s.ts|
    ensures Pinned(s, b) <==> b in s.ts
  {
    if b in s.ts {
      var k :| 0 <= k < |s.ts| && s.ts[k] == b;
    }
  }

  lemma NothingWritten(l: Layout, s: State, t: Tid)
    requires Core(l, s) && t in s.ops
    ensures s.wrote == 0
  {
    hide Clean, Distinct, Crashed, CacheInv, DiskInv, A.Unspent;
  }

  // The reservation of the operation covers the block it adds.
  lemma AppendReserved(l: Layout, s: State, t: Tid, i: nat)
    requires A.Inv(Adm(s)) && Enabled(l, s, Append(t, i))
    ensures A.Inv(Adm(Do(l, s, Append(t, i))))
    ensures s.bufs[i].block.value !in s.ts ==> |s.ts| < LOGSIZE
  {
    hide A.Unspent;
    var s' := Do(l, s, Append(t, i));
    assert Adm(s').passed == Adm(s).passed - {t};
    if s.bufs[i].block.value in s.ts {
      A.InvStep(l.size, Adm(s), A.Relog(t));
    } else {
      A.UnspentSplit(s.ops, t);
      A.InvStep(l.size, Adm(s), A.Add(t));
    }
  }

  // log_write happens only outside a commit, so the disk is still the one the log was emptied on. That the
  // header has room rests on the reservations, not on the test made before.
  lemma AppendKeepsDisk(l: Layout, s: State, t: Tid, i: nat)
    requires Core(l, s) && l.size >= 2 && Enabled(l, s, Append(t, i))
    ensures var s' := Do(l, s, Append(t, i));
            Sized(l, s') && DiskInv(l, s') && Protocol(s')
  {
    hide Clean, A.Unspent, Distinct, Crashed, CacheInv, SameHome, A.Inv;
    var s' := Do(l, s, Append(t, i));
    var b := s.bufs[i].block.value;
    NothingWritten(l, s, t);
    AppendReserved(l, s, t, i);
    if b !in s.ts {
      ListedAppend(l, s.base, s.ts, b);
      assert s'.ts == s.ts + [b];
    }
  }

  lemma AppendKeepsCache(l: Layout, s: State, t: Tid, i: nat)
    requires Core(l, s) && Enabled(l, s, Append(t, i)) && Sized(l, Do(l, s, Append(t, i)))
    ensures CacheInv(l, Do(l, s, Append(t, i)))
  {
    hide Clean, A.Unspent, GoodTargets, DiskInv, Pinned;
    var s' := Do(l, s, Append(t, i));
    var b := s.bufs[i].block.value;
    assert s.wrote == 0;
    forall x: nat ensures Pinned(s', x) <==> Pinned(s, x) || x == b {
      PinnedIsLogged(s, x);
      PinnedIsLogged(s', x);
    }
    PinnedIsLogged(s, b);
    forall k | 0 <= k < |s'.bufs| ensures BufOk(l, s', s'.bufs[k]) {
      assert BufOk(l, s, s.bufs[k]);
    }
    forall x: nat | Pinned(s', x) ensures Cached(s'.bufs, x) {
      assert Cached(s.bufs, x) || x == b;
      CachedKept(s.bufs, s'.bufs, i, x);
    }
  }

  lemma CachedKept(bufs: seq<Buf>, bufs': seq<Buf>, i: nat, x: nat)
    requires i < |bufs| && |bufs'| == |bufs| && bufs' == bufs[i := bufs'[i]]
    requires bufs'[i].block == bufs[i].block && bufs'[i].valid && (Cached(bufs, x) || bufs'[i].block == Some(x))
    ensures Cached(bufs', x)
  {
    if bufs'[i].block != Some(x) {
      var k :| 0 <= k < |bufs| && bufs[k].block == Some(x) && bufs[k].valid;
      assert bufs'[k].block == Some(x);
    }
  }

  // While a commit runs no operation is open, so every buffer with contents is current.
  lemma CommitterSeesCurrent(l: Layout, s: State, i: nat, b: nat)
    requires Core(l, s) && s.committing && CommitterHas(s, i, b)
    ensures b < |s.disk| && s.bufs[i].data == Current(l, s, b)
  {
    hide Clean, Distinct, DiskInv;
    assert BufOk(l, s, s.bufs[i]);
  }

  // A disk write of the commit thread together with the buffer it holds for that block.
  lemma WriteKeepsCache(l: Layout, s: State, s': State, i: nat, b: nat, data: Block)
    requires Core(l, s) && s.committing && CommitterHas(s, i, b) && Sized(l, s') && |s'.bufs| == |s.bufs|
    requires s' == PutBuf(s, i, s.bufs[i].(data := data, refcnt := s'.bufs[i].refcnt))
                   .(disk := s'.disk, base := s'.base, ts := s'.ts, wrote := s'.wrote, committed := s'.committed)
    requires |s'.disk| == |s.disk| && data == Current(l, s', b)
    requires forall x: nat :: x < |s.disk| && x != b ==> Current(l, s', x) == Current(l, s, x)
    requires forall x: nat :: x != b ==> (Pinned(s', x) <==> Pinned(s, x))
    requires Pinned(s', b) ==> Pinned(s, b)
    requires s'.bufs[i].refcnt == s.bufs[i].refcnt - (if Pinned(s, b) && !Pinned(s', b) then 1 else 0)
    ensures CacheInv(l, s')
  {
    hide Clean, GoodTargets, DiskInv, Pinned, Current, A.Inv;
    forall k | 0 <= k < |s'.bufs| ensures BufOk(l, s', s'.bufs[k]) {
      assert BufOk(l, s, s.bufs[k]);
    }
    forall x: nat | Pinned(s', x) ensures Cached(s'.bufs, x) {
      CachedKept(s.bufs, s'.bufs, i, x);
    }
  }

  lemma SlotWriteKeeps(l: Layout, s: State, i: nat, j: nat)
    requires Core(l, s) && |s.ts| < l.size && Enabled(l, s, SlotWrite(i, j))
    ensures Core(l, Do(l, s, SlotWrite(i, j)))
  {
    hide Clean, Distinct, Crashed, CacheInv, A.Inv, SameHome, Pinned;
    var s' := Do(l, s, SlotWrite(i, j));
    CrashedNone(l, s.base, s.ts, Pending(s));
    CommitterSeesCurrent(l, s, j, s.ts[s.wrote]);
    CrashedNext(l, s.base, s.ts, Pending(s), s.wrote);
    assert Pending(s') == Pending(s);
    forall x: nat ensures Pinned(s', x) <==> Pinned(s, x) {
      PinnedIsLogged(s, x);
      PinnedIsLogged(s', x);
    }
    WriteKeepsCache(l, s, s', i, l.start + 1 + s.wrote, s.bufs[j].data);
  }

  lemma HeadWriteKeeps(l: Layout, s: State, i: nat)
    requires Core(l, s) && Enabled(l, s, HeadWrite(i))
    ensures Core(l, Do(l, s, HeadWrite(i)))
  {
    hide Clean, Distinct, Crashed, CacheInv, A.Unspent, HeaderBlock;
    var s' := Do(l, s, HeadWrite(i));
    CommitterSeesCurrent(l, s, i, l.start);
    CrashBeforeHeader(l, s.base, s.ts, Pending(s), s.wrote);
    CrashedNext(l, s.base, s.ts, Pending(s), s.wrote);
    assert Pending(s') == Pending(s);
    assert forall x: nat :: Pinned(s', x) <==> Pinned(s, x);
    WriteKeepsCache(l, s, s', i, l.start, s'.disk[l.start]);
  }

  lemma InstallKeeps(l: Layout, s: State, i: nat, j: nat)
    requires Core(l, s) && Enabled(l, s, Install(i, j))
    ensures Core(l, Do(l, s, Install(i, j)))
  {
    hide Clean, Distinct, Crashed, CacheInv, A.Inv, SameHome, Pinned;
    var s' := Do(l, s, Install(i, j));
    var k := s.wrote - |s.ts| - 1;
    InstallData(l, s, i);
    CrashedNext(l, s.base, s.ts, Pending(s), s.wrote);
    assert Pending(s') == Pending(s);
    InstallUnpins(l, s, s');
    WriteKeepsCache(l, s, s', j, s.ts[k], s.bufs[i].data);
  }

  // The slot buffer holds what the transaction logged for the block about to be installed.
  lemma InstallData(l: Layout, s: State, i: nat)
    requires Core(l, s) && s.committing && |s.ts| < s.wrote <= 2 * |s.ts|
    requires CommitterHas(s, i, l.start + 1 + (s.wrote - |s.ts| - 1))
    ensures s.bufs[i].data == s.logical[s.ts[s.wrote - |s.ts| - 1]]
  {
    hide Clean, Distinct, Crashed, CacheInv, A.Inv, SameHome;
    var k := s.wrote - |s.ts| - 1;
    CommitterSeesCurrent(l, s, i, l.start + 1 + k);
    SlotHolds(l, s.base, s.ts, Pending(s), s.wrote, k);
    assert Pending(s)[k] == s.logical[s.ts[k]];
  }

  lemma InstallUnpins(l: Layout, s: State, s': State)
    requires GoodTargets(l, s.base, s.ts) && s'.ts == s.ts && |s.ts| < s.wrote <= 2 * |s.ts| && s'.wrote == s.wrote + 1
    ensures Pinned(s, s.ts[s.wrote - |s.ts| - 1]) && !Pinned(s', s.ts[s.wrote - |s.ts| - 1])
    ensures forall x: nat :: x != s.ts[s.wrote - |s.ts| - 1] ==> (Pinned(s', x) <==> Pinned(s, x))
  {
  }

  lemma ClearWrites(l: Layout, s: State, i: nat)
    requires Core(l, s) && Enabled(l, s, Clear(i))
    ensures Do(l, s, Clear(i)).disk == Crashed(l, s.base, s.ts, Pending(s), 2 * |s.ts| + 2)
  {
    hide Clean, Crashed, CacheInv, A.Inv, HeaderBlock, PutWord, Distinct, SameHome, LoggableBy;
    CommitterSeesCurrent(l, s, i, l.start);
    LastWrite(l, s.base, s.ts, Pending(s));
  }

  // A finished commit has carried every logged block home.
  lemma CompleteIsLogical(l: Layout, s: State)
    requires Sized(l, s) && DiskInv(l, s) && s.wrote > |s.ts|
    ensures var c := Crashed(l, s.base, s.ts, Pending(s), 2 * |s.ts| + 2);
            Clean(l, c) && SameHome(l, c, s.logical) && SameHome(l, c, s.committed)
  {
    hide Clean, Crashed, Updated, Distinct;
    CommitComplete(l, s.base, s.ts, Pending(s));
    UpdatedAt(l, s.base, s.ts, Pending(s));
  }

  lemma ClearKeepsDisk(l: Layout, s: State, i: nat)
    requires Core(l, s) && Enabled(l, s, Clear(i))
    ensures var s' := Do(l, s, Clear(i));
            Sized(l, s') && DiskInv(l, s') && Protocol(s')
  {
    hide Clean, Crashed, CacheInv, A.Unspent, PutWord, DiskInv;
    var s' := Do(l, s, Clear(i));
    ClearWrites(l, s, i);
    CompleteIsLogical(l, s);
    A.InvStep(l.size, Adm(s), A.Commit);
    EmptyLogInv(l, s');
  }

  lemma EmptyLogInv(l: Layout, s: State)
    requires s.ts == [] && s.wrote == 0 && s.base == s.disk && Clean(l, s.disk)
    requires SameHome(l, s.disk, s.logical) && SameHome(l, s.disk, s.committed)
    ensures Sized(l, s) && DiskInv(l, s)
  {
  }

  lemma ClearKeeps(l: Layout, s: State, i: nat)
    requires Core(l, s) && Enabled(l, s, Clear(i))
    ensures Core(l, Do(l, s, Clear(i)))
  {
    hide Clean, Crashed, CacheInv, A.Inv, PutWord, DiskInv;
    var s' := Do(l, s, Clear(i));
    ClearKeepsDisk(l, s, i);
    assert Sized(l, s);
    WriteKeepsCache(l, s, s', i, l.start, s'.disk[l.start]);
  }

  lemma CheckKeeps(l: Layout, s: State, t: Tid, i: nat)
    requires Core(l, s) && Enabled(l, s, Check(t, i))
    ensures Core(l, Do(l, s, Check(t, i)))
  {
    hide Clean, Distinct, Crashed, A.Unspent;
    var s' := Do(l, s, Check(t, i));
    A.InvStep(l.size, Adm(s), A.Check(t));
    assert Adm(s').passed == Adm(s).passed + {t};
    assert Pending(s') == Pending(s);
    forall k | 0 <= k < |s'.bufs| ensures BufOk(l, s', s'.bufs[k]) {
      assert BufOk(l, s, s.bufs[k]);
    }
    forall x: nat | Pinned(s', x) ensures Cached(s'.bufs, x) {
      assert Pinned(s, x);
    }
  }

  // No step of another thread takes a locked buffer away from a thread inside log_write.
  lemma StillHolds(l: Layout, s: State, st: Step, u: Tid)
    requires Enabled(l, s, st) && u in s.passed && LoggableBy(l, s, u, s.passed[u])
    requires s.bufs[s.passed[u]].refcnt > 0 && (s.committing ==> s.ops == map[])
    requires u in Do(l, s, st).passed
    ensures LoggableBy(l, Do(l, s, st), u, Do(l, s, st).passed[u])
  {
    hide HeaderBlock, PutWord, A.CanBegin, A.TooBig;
  }

  lemma PassedKept(l: Layout, s: State, st: Step)
    requires Inv(l, s) && Enabled(l, s, st)
    ensures PassedInv(l, Do(l, s, st))
  {
    forall u | u in Do(l, s, st).passed
      ensures LoggableBy(l, Do(l, s, st), u, Do(l, s, st).passed[u]) && l.size >= 2
    {
      if u in s.passed {
        HolderCounts(l, s, s.passed[u]);
        hide Core, Do, Enabled;
        StillHolds(l, s, st, u);
      } else {
        hide Core;
      }
    }
  }

  lemma HolderCounts(l: Layout, s: State, i: nat)
    requires Core(l, s)
    ensures i < |s.bufs| && s.bufs[i].lock.Some? ==> s.bufs[i].refcnt > 0
    ensures s.committing ==> s.ops == map[]
  {
    hide DiskInv, Clean, GoodTargets, Pinned, Current, A.Unspent;
    if i < |s.bufs| {
      assert BufOk(l, s, s.bufs[i]);
    }
  }

  // ----- Buffers for the commit -----

  /** The log region is large enough for every transaction, or the cache is small enough that a transaction that
      is too large for the region leaves write_log no buffer for its first slot; or nothing can be logged. */
  predicate Roomy(l: Layout, nbuf: nat) {
    l.size > LOGSIZE || nbuf <= l.size || l.size < 2
  }

  ghost function Indices(bufs: seq<Buf>, b: seq<nat>): (r: set<nat>)
    ensures forall i :: i in r <==> 0 <= i < |bufs| && bufs[i].block.Some? && bufs[i].block.value in b
  {
    set i | 0 <= i < |bufs| && bufs[i].block.Some? && bufs[i].block.value in b
  }

  lemma OneMoreIndex(bufs: seq<Buf>, rest: seq<nat>, last: nat, i: nat)
    requires Unique(bufs) && last !in rest && i < |bufs| && bufs[i].block == Some(last)
    ensures i !in Indices(bufs, rest) && Indices(bufs, rest + [last]) == Indices(bufs, rest) + {i}
  {
    hide Indices;
    forall k ensures k in Indices(bufs, rest + [last]) <==> k in Indices(bufs, rest) + {i} {
      assert forall x: nat :: x in rest + [last] <==> x in rest || x == last;
    }
  }

  // One buffer for each of the blocks.
  lemma {:induction false} IndicesCount(bufs: seq<Buf>, ts: seq<nat>)
    requires Unique(bufs) && Distinct(ts) && forall k :: 0 <= k < |ts| ==> Cached(bufs, ts[k])
    ensures |Indices(bufs, ts)| == |ts|
    decreases |ts|
  {
    if ts == [] {
      assert Indices(bufs, ts) == {};
    } else {
      hide Indices, Unique;
      var rest, last := ts[..|ts| - 1], ts[|ts| - 1];
      IndicesCount(bufs, rest);
      assert Cached(bufs, last);
      var i :| 0 <= i < |bufs| && bufs[i].block == Some(last);
      assert ts == rest + [last];
      OneMoreIndex(bufs, rest, last, i);
    }
  }

  lemma {:induction false} AllBelow(n: nat, r: set<nat>)
    requires forall i :: i in r ==> i < n
    ensures |r| <= n && (|r| == n <==> forall i :: 0 <= i < n ==> i in r)
  {
    if n > 0 {
      var q := r - {n - 1};
      AllBelow(n - 1, q);
      assert n - 1 !in r ==> q == r;
      if forall i :: 0 <= i < n ==> i in r {
        assert n - 1 in r;
        assert forall i :: 0 <= i < n - 1 ==> i in r && i in q;
      } else if n - 1 in r {
        var i :| 0 <= i < n && i !in r;
        assert i !in q;
      }
    } else {
      assert r == {};
    }
  }

  // A commit that writes its first slot has a buffer that holds none of its blocks.
  lemma SlotNeedsBuffer(l: Layout, s: State, i: nat, j: nat)
    requires Core(l, s) && Enabled(l, s, SlotWrite(i, j)) && s.wrote == 0
    ensures l.size >= 2 && |s.ts| < |s.bufs|
  {
    hide DiskInv, Clean, A.Inv, BufOk;
    forall k | 0 <= k < |s.ts| ensures Cached(s.bufs, s.ts[k]) {
      PinnedIsLogged(s, s.ts[k]);
    }
    IndicesCount(s.bufs, s.ts);
    assert i !in Indices(s.bufs, s.ts);
    AllBelow(|s.bufs|, Indices(s.bufs, s.ts));
  }

  lemma SlotInRegion(l: Layout, s: State, i: nat, j: nat)
    requires Core(l, s) && Roomy(l, |s.bufs|) && Enabled(l, s, SlotWrite(i, j))
    ensures |s.ts| < l.size
  {
    hide DiskInv, CacheInv;
    if s.wrote == 0 {
      SlotNeedsBuffer(l, s, i, j);
    }
  }

  lemma SameBuffers(l: Layout, s: State, st: Step)
    requires Enabled(l, s, st)
    ensures |Do(l, s, st).bufs| == |s.bufs|
  {
    hide HeaderBlock, PutWord;
  }

  lemma StepKeeps(l: Layout, s: State, st: Step)
    requires Inv(l, s) && Roomy(l, |s.bufs|) && Enabled(l, s, st)
    ensures Inv(l, Do(l, s, st)) && |Do(l, s, st).bufs| == |s.bufs|
  {
    PassedKept(l, s, st);
    SameBuffers(l, s, st);
    if st.SlotWrite? { SlotInRegion(l, s, st.i, st.j); }
    assert st.Append? ==> l.size >= 2;
    hide Core, PassedInv, Do;
    match st
    case Hit(_, _, _) => GetKeeps(l, s, st);
    case Recycle(_, _, _) => GetKeeps(l, s, st);
    case Lock(_, _) => HoldKeeps(l, s, st);
    case Fill(t, i) => FillKeeps(l, s, t, i);
    case Modify(_, _, _) => HoldKeeps(l, s, st);
    case Check(t, i) => CheckKeeps(l, s, t, i);
    case Append(t, i) => AppendKeeps(l, s, t, i);
    case Unlock(_, _) => HoldKeeps(l, s, st);
    case Drop(_, _) => HoldKeeps(l, s, st);
    case Begin(_) => BeginEndKeeps(l, s, st);
    case End(_) => BeginEndKeeps(l, s, st);
    case SlotWrite(i, j) => SlotWriteKeeps(l, s, i, j);
    case HeadWrite(i) => HeadWriteKeeps(l, s, i);
    case Install(i, j) => InstallKeeps(l, s, i, j);
    case Clear(i) => ClearKeeps(l, s, i);
    case Finish => BeginEndKeeps(l, s, st);
  }

  lemma AppendKeeps(l: Layout, s: State, t: Tid, i: nat)
    requires Core(l, s) && l.size >= 2 && Enabled(l, s, Append(t, i))
    ensures Core(l, Do(l, s, Append(t, i)))
  {
    AppendKeepsDisk(l, s, t, i);
    AppendKeepsCache(l, s, t, i);
  }

  // ----- Whole runs -----

  /** A boot that has finished recovery: the log is empty and so is the cache (binit). */
  ghost predicate Init(l: Layout, s: State) {
    && Clean(l, s.disk)
    && s.base == s.logical == s.committed == s.disk
    && s.ts == [] && s.ops == map[] && s.passed == map[] && !s.committing && s.wrote == 0
    && forall i :: 0 <= i < |s.bufs| ==>
         s.bufs[i].block == None && !s.bufs[i].valid && s.bufs[i].refcnt == 0 && s.bufs[i].lock == None
         && s.bufs[i].holders == {} && !s.bufs[i].unlogged
  }

  /** The states of a run, one more than its steps. */
  ghost predicate Run(l: Layout, states: seq<State>, steps: seq<Step>) {
    && |states| == |steps| + 1 && Init(l, states[0])
    && forall i :: 0 <= i < |steps| ==> Enabled(l, states[i], steps[i]) && states[i + 1] == Do(l, states[i], steps[i])
  }

  lemma InitInv(l: Layout, s: State)
    requires Init(l, s)
    ensures Inv(l, s)
  {
    EmptyLogInv(l, s);
  }

  lemma {:induction false} RunInv(l: Layout, states: seq<State>, steps: seq<Step>, i: nat)
    requires Run(l, states, steps) && Roomy(l, |states[0].bufs|) && i < |states|
    ensures Inv(l, states[i]) && |states[i].bufs| == |states[0].bufs|
  {
    hide Inv, Init, Do;
    if i == 0 {
      InitInv(l, states[0]);
    } else {
      RunInv(l, states, steps, i - 1);
      StepKeeps(l, states[i - 1], steps[i - 1]);
    }
  }

  /** Power may fail in any state of any run, and again during any number of recoveries: what finally
      comes back is exactly the file system of the last commit. */
  lemma CrashRestoresCommitted(l: Layout, states: seq<State>, steps: seq<Step>, i: nat, cuts: seq<nat>)
    requires Run(l, states, steps) && Roomy(l, |states[0].bufs|) && i < |states|
    ensures var s := states[i];
            && ValidLog(l, s.disk)
            && SameHome(l, s.committed, Recover(l, Reboots(l, s.disk, cuts)))
            && Clean(l, Recover(l, Reboots(l, s.disk, cuts)))
  {
    hide Init, CacheInv, A.Inv, Crashed, Recover, Reboots, Updated, Clean, Distinct, Run;
    RunInv(l, states, steps, i);
    var s := states[i];
    if s.wrote == 0 {
      QuietCrash(l, s.base, cuts);
    } else {
      UpdatedAt(l, s.base, s.ts, Pending(s));
      CrashAnywhere(l, s.base, s.ts, Pending(s), s.wrote, cuts);
    }
  }

  /** The last commit is all of the work logged up to a moment of the run when no operation was open:
      a crash never exposes part of an operation. */
  lemma {:induction false} CommittedIsQuiescent(l: Layout, states: seq<State>, steps: seq<Step>, i: nat)
    returns (k: nat)
    requires Run(l, states, steps) && Roomy(l, |states[0].bufs|) && i < |states|
    ensures k <= i && states[k].ops == map[] && SameHome(l, states[i].committed, states[k].logical)
  {
    hide Inv, Do, Enabled;
    if i == 0 {
      k := 0;
    } else {
      var s, st := states[i - 1], steps[i - 1];
      RunInv(l, states, steps, i - 1);
      CommitPoint(l, s, st);
      if st.HeadWrite? {
        k := i - 1;
      } else {
        k := CommittedIsQuiescent(l, states, steps, i - 1);
      }
    }
  }

  /** Only the header write moves the committed file system, to all that is logged, and then no
      operation is open. */
  lemma CommitPoint(l: Layout, s: State, st: Step)
    requires Inv(l, s) && Enabled(l, s, st)
    ensures if st.HeadWrite? then s.ops == map[] && Do(l, s, st).committed == s.logical
            else Do(l, s, st).committed == s.committed
  {
    hide CacheInv, DiskInv, Sized, HeaderBlock, PutWord;
  }

  /** When the last end_op returns, everything logged so far is committed. */
  lemma DurableAtFinish(l: Layout, s: State)
    requires Inv(l, s) && Enabled(l, s, Finish)
    ensures SameHome(l, s.committed, s.logical)
  {
    hide CacheInv, Crashed, Clean;
  }

  /** A locked buffer that its holder has not changed since its last log_write holds the last logged
      contents of its block, whether it came from the cache or from the disk. */
  lemma BreadReturnsLastLogged(l: Layout, states: seq<State>, steps: seq<Step>, n: nat, t: Tid, i: nat)
    requires Run(l, states, steps) && Roomy(l, |states[0].bufs|) && n < |states|
    requires LockedBy(states[n], t, i) && states[n].bufs[i].valid && !states[n].bufs[i].unlogged
    ensures var s, b := states[n], states[n].bufs[i].block.value;
            b < |s.disk| == |s.logical| && (!InLog(l, b) ==> s.bufs[i].data == s.logical[b])
  {
    hide DiskInv, Clean, GoodTargets, Run;
    RunInv(l, states, steps, n);
    assert BufOk(l, states[n], states[n].bufs[i]);
  }

  /** Between log_write and the header write the home block on disk keeps its committed contents. */
  lemma HomeUntouchedBeforeCommit(l: Layout, states: seq<State>, steps: seq<Step>, n: nat, b: nat)
    requires Run(l, states, steps) && Roomy(l, |states[0].bufs|) && n < |states| && states[n].wrote <= |states[n].ts|
    requires Home(l, states[n].disk, b)
    ensures b < |states[n].committed| && states[n].disk[b] == states[n].committed[b]
  {
    hide CacheInv, Clean, Distinct, Run, Crashed;
    RunInv(l, states, steps, n);
    var s := states[n];
    if s.wrote > 0 { CrashBeforeHeader(l, s.base, s.ts, Pending(s), s.wrote); }
  }

  /** A buffer bget may recycle holds no logged block that install_trans has yet to write home; and
      when the log is empty and nobody holds a buffer every reference count is zero again. */
  lemma PinsBalance(l: Layout, states: seq<State>, steps: seq<Step>, n: nat)
    requires Run(l, states, steps) && Roomy(l, |states[0].bufs|) && n < |states|
    ensures var s := states[n];
            && (forall i :: 0 <= i < |s.bufs| && s.bufs[i].refcnt == 0 && s.bufs[i].block.Some? ==>
                !Pinned(s, s.bufs[i].block.value))
            && (s.ts == [] && (forall i :: 0 <= i < |s.bufs| ==> s.bufs[i].holders == {})
                ==> forall i :: 0 <= i < |s.bufs| ==> s.bufs[i].refcnt == 0)
  {
    hide DiskInv, Clean, GoodTargets, Run;
    RunInv(l, states, steps, n);
    var s := states[n];
    assert forall i :: 0 <= i < |s.bufs| ==> BufOk(l, s, s.bufs[i]);
  }

  /** The range tests in Enabled never block a thread: the kernel code, which does not make them, never
      indexes outside the disk or the log region, or drops a count below zero. */
  lemma NoUnderflow(l: Layout, states: seq<State>, steps: seq<Step>, n: nat, i: nat)
    requires Run(l, states, steps) && Roomy(l, |states[0].bufs|) && n < |states| && i < |states[n].bufs|
    ensures var s, b := states[n], states[n].bufs[i];
            && (b.holders != {} ==> b.refcnt > 0 && b.block.Some? && b.block.value < |s.disk|)
            && (s.committing && |s.ts| < s.wrote <= 2 * |s.ts| && b.block == Some(s.ts[s.wrote - |s.ts| - 1])
                ==> b.refcnt > 0)
            && (s.wrote > 0 ==> |s.ts| < l.size) && l.start + l.size <= |s.disk|
            && (forall t :: t in s.passed ==> LoggableBy(l, s, t, s.passed[t]))
            && (s.committing ==> s.ops == map[] && s.passed == map[])
  {
    hide DiskInv, Run, Distinct;
    RunInv(l, states, steps, n);
    var s, b := states[n], states[n].bufs[i];
    assert BufOk(l, s, b);
    assert s.committing ==> s.passed.Keys == {};
  }

  // ----- What holds whatever the size of the log region and of the cache -----

  lemma AdmissionSame(l: Layout, s: State, st: Step)
    requires Enabled(l, s, st)
    requires !st.Append? && !st.Check? && !st.Begin? && !st.End? && !st.Clear? && !st.Finish?
    ensures Adm(Do(l, s, st)) == Adm(s)
  {
    hide HeaderBlock, PutWord, LoggableBy, CommitterHas, LockedBy;
  }

  lemma AdmissionSteps(l: Layout, s: State, st: Step)
    requires Enabled(l, s, st) && (st.Check? || st.Begin? || st.End? || st.Clear? || st.Finish?)
    ensures exists a :: A.Enabled(l.size, Adm(s), a) && Adm(Do(l, s, st)) == A.Do(l.size, Adm(s), a)
  {
    hide HeaderBlock, PutWord, CommitterHas, LockedBy;
    match st
    case Check(t, i) =>
      assert A.Enabled(l.size, Adm(s), A.Check(t));
      assert Adm(Do(l, s, st)).passed == Adm(s).passed + {t};
    case Begin(t) => assert A.Enabled(l.size, Adm(s), A.Begin(t));
    case End(t) => assert A.Enabled(l.size, Adm(s), A.End(t));
    case Clear(i) => assert A.Enabled(l.size, Adm(s), A.Commit);
    case Finish => assert A.Enabled(l.size, Adm(s), A.Finish);
  }

  lemma AdmissionKept(l: Layout, s: State, st: Step)
    requires A.Inv(Adm(s)) && Enabled(l, s, st)
    ensures A.Inv(Adm(Do(l, s, st)))
  {
    hide A.Inv, Do, A.Do;
    if st.Append? {
      AppendReserved(l, s, st.t, st.i);
    } else if st.Check? || st.Begin? || st.End? || st.Clear? || st.Finish? {
      AdmissionSteps(l, s, st);
      hide Enabled, A.Enabled;
      var a :| A.Enabled(l.size, Adm(s), a) && Adm(Do(l, s, st)) == A.Do(l.size, Adm(s), a);
      A.InvStep(l.size, Adm(s), a);
    } else {
      AdmissionSame(l, s, st);
    }
  }

  /** The block numbers of the transaction always fit the log header, and no thread is inside log_write
      during a commit. */
  lemma {:induction false} HeaderFits(l: Layout, states: seq<State>, steps: seq<Step>, n: nat)
    requires Run(l, states, steps) && n < |states|
    ensures A.Inv(Adm(states[n])) && |states[n].ts| <= LOGSIZE
    ensures states[n].committing ==> states[n].ops == map[] && states[n].passed.Keys == {}
  {
    hide Do, Enabled, A.Unspent;
    if n == 0 {
      assert A.Unspent(map[]) == 0 by {
        A.UnspentAtMost(map[]);
      }
      assert states[0].passed.Keys == {};
    } else {
      HeaderFits(l, states, steps, n - 1);
      AdmissionKept(l, states[n - 1], steps[n - 1]);
    }
  }

  /** When a commit starts and nobody else holds a buffer, write_log's bread finds one for the log slot if
      and only if the transaction has fewer blocks than the cache has buffers. NBUF is LOGSIZE, so a
      transaction that fills the header meets bget's panic. */
  lemma CommitFindsBuffer(l: Layout, states: seq<State>, steps: seq<Step>, n: nat)
    requires Run(l, states, steps) && Roomy(l, |states[0].bufs|) && n < |states| && states[n].wrote == 0
    requires forall i :: 0 <= i < |states[n].bufs| ==> states[n].bufs[i].holders == {}
    ensures (exists i :: 0 <= i < |states[n].bufs| && states[n].bufs[i].refcnt == 0)
            <==> |states[n].ts| < |states[n].bufs|
  {
    hide Run, DiskInv, Clean;
    RunInv(l, states, steps, n);
    var s := states[n];
    forall k | 0 <= k < |s.ts| ensures Cached(s.bufs, s.ts[k]) {
      PinnedIsLogged(s, s.ts[k]);
    }
    IndicesCount(s.bufs, s.ts);
    forall i | 0 <= i < |s.bufs| ensures i in Indices(s.bufs, s.ts) <==> s.bufs[i].refcnt != 0 {
      assert BufOk(l, s, s.bufs[i]);
      if s.bufs[i].block.Some? {
        PinnedIsLogged(s, s.bufs[i].block.value);
      }
    }
    AllBelow(|s.bufs|, Indices(s.bufs, s.ts));
  }
}
