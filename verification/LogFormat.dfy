/** The on-disk redo log of kernel/log.c: a header block naming home blocks, followed by their new
    contents. A commit and a recovery are sequences of single-block writes; a crash keeps any prefix. */
module LogFormat {
  import opened Machine

  type Disk = seq<Block>

  /** Where the log lives: the header at `start`, then `size - 1` slots. */
  datatype Layout = Layout(start: nat, size: nat)

  datatype Write = Write(at: nat, data: Block)

  predicate InLog(l: Layout, b: nat) {
    l.start <= b < l.start + l.size
  }

  predicate Home(l: Layout, d: Disk, b: nat) {
    b < |d| && !InLog(l, b)
  }

  // ----- Sequences of block writes -----

  ghost predicate Fits(d: Disk, ws: seq<Write>) {
    forall i :: 0 <= i < |ws| ==> ws[i].at < |d|
  }

  ghost function Apply(d: Disk, ws: seq<Write>): (r: Disk)
    requires Fits(d, ws)
    ensures |r| == |d|
  {
    if ws == [] then d else Apply(d, ws[..|ws| - 1])[ws[|ws| - 1].at := ws[|ws| - 1].data]
  }

  lemma {:induction false} ApplyUntouched(d: Disk, ws: seq<Write>, b: nat)
    requires Fits(d, ws) && b < |d|
    requires forall i :: 0 <= i < |ws| ==> ws[i].at != b
    ensures Apply(d, ws)[b] == d[b]
  {
    if ws != [] {
      ApplyUntouched(d, ws[..|ws| - 1], b);
    }
  }

  lemma {:induction false} ApplyLast(d: Disk, ws: seq<Write>, i: nat)
    requires Fits(d, ws) && i < |ws|
    requires forall j :: i < j < |ws| ==> ws[j].at != ws[i].at
    ensures Apply(d, ws)[ws[i].at] == ws[i].data
  {
    if i < |ws| - 1 {
      ApplyLast(d, ws[..|ws| - 1], i);
    }
  }

  lemma ApplyNone(d: Disk, ws: seq<Write>)
    ensures Apply(d, ws[..0]) == d
  {
  }

  lemma ApplyOneMore(d: Disk, ws: seq<Write>, k: nat)
    requires Fits(d, ws) && k < |ws|
    ensures Apply(d, ws[..k + 1]) == Apply(d, ws[..k])[ws[k].at := ws[k].data]
  {
    assert ws[..k + 1][..k] == ws[..k];
  }

  lemma {:induction false} ApplyConcat(d: Disk, ws: seq<Write>, more: seq<Write>)
    requires Fits(d, ws) && Fits(d, more)
    ensures Fits(d, ws + more) && Apply(d, ws + more) == Apply(Apply(d, ws), more)
  {
    if more == [] {
      assert ws + more == ws;
    } else {
      ApplyConcat(d, ws, more[..|more| - 1]);
      assert (ws + more)[..|ws + more| - 1] == ws + more[..|more| - 1];
    }
  }

  // ----- The header block -----

  function Count(h: Block): nat {
    Word(h, 0)
  }

  function Targets(h: Block): seq<nat>
    requires Count(h) <= LOGSIZE
  {
    seq(Count(h), i requires 0 <= i < Count(h) => Word(h, 1 + i))
  }

  /** The block write_head leaves: `n` and the first `n` entries are stored, the rest is stale. */
  function HeaderBlock(h: Block, ts: seq<uint32>): (r: Block)
    requires |ts| <= LOGSIZE
    ensures Count(r) == |ts| && Targets(r) == ts
  {
    PutWords(PutWord(h, 0, |ts|), 1, ts)
  }

  // ----- Well-formed logs and transactions -----

  /** Blocks the log header can name. */
  ghost predicate Listed(l: Layout, d: Disk, ts: seq<nat>) {
    && |ts| <= LOGSIZE
    && Distinct(ts)
    && forall i :: 0 <= i < |ts| ==> Home(l, d, ts[i])
  }

  /** And for which the log region has slots. */
  ghost predicate GoodTargets(l: Layout, d: Disk, ts: seq<nat>) {
    |ts| < l.size && Listed(l, d, ts)
  }

  // What log_write keeps when it appends a block that is not yet logged.
  lemma ListedAppend(l: Layout, d: Disk, ts: seq<nat>, b: nat)
    requires Listed(l, d, ts) && Home(l, d, b) && b !in ts && |ts| < LOGSIZE
    ensures Listed(l, d, ts + [b])
  {
  }

  /** A disk the kernel may boot from. */
  ghost predicate ValidLog(l: Layout, d: Disk) {
    && 0 < l.size && l.start + l.size <= |d| <= 0x1_0000_0000
    && Count(d[l.start]) <= LOGSIZE
    && GoodTargets(l, d, Targets(d[l.start]))
  }

  ghost predicate Clean(l: Layout, d: Disk) {
    ValidLog(l, d) && Count(d[l.start]) == 0
  }

  ghost predicate GoodTx(l: Layout, d: Disk, ts: seq<nat>, data: seq<Block>) {
    |ts| == |data| && GoodTargets(l, d, ts)
  }

  // ----- The write sequences of commit() and recover_from_log() -----

  /** The buffered contents of the logged blocks, in log order. */
  ghost function Contents(ts: seq<nat>, bufs: map<nat, Block>): (r: seq<Block>)
    requires forall i :: 0 <= i < |ts| ==> ts[i] in bufs
    ensures |r| == |ts|
  {
    seq(|ts|, i requires 0 <= i < |ts| => bufs[ts[i]])
  }

  ghost function SlotWrites(l: Layout, data: seq<Block>): seq<Write> {
    seq(|data|, i requires 0 <= i < |data| => Write(l.start + 1 + i, data[i]))
  }

  ghost function HomeWrites(ts: seq<nat>, data: seq<Block>): seq<Write>
    requires |ts| == |data|
  {
    seq(|ts|, i requires 0 <= i < |ts| => Write(ts[i], data[i]))
  }

  /** The i-th disk write of commit(): the log slots, the header, the home blocks, the cleared header. */
  ghost function CommitWrite(l: Layout, h: Block, ts: seq<nat>, data: seq<Block>, i: nat): Write
    requires |ts| == |data| <= LOGSIZE && i < 2 * |ts| + 2
    requires forall j :: 0 <= j < |ts| ==> ts[j] < 0x1_0000_0000
  {
    var n := |ts|;
    if i < n then Write(l.start + 1 + i, data[i])
    else if i == n then Write(l.start, HeaderBlock(h, ts))
    else if i <= 2 * n then Write(ts[i - n - 1], data[i - n - 1])
    else Write(l.start, PutWord(HeaderBlock(h, ts), 0, 0))
  }

  ghost function CommitWrites(l: Layout, d: Disk, ts: seq<nat>, data: seq<Block>): seq<Write>
    requires ValidLog(l, d) && GoodTx(l, d, ts, data)
  {
    seq(2 * |ts| + 2, i requires 0 <= i < 2 * |ts| + 2 => CommitWrite(l, d[l.start], ts, data, i))
  }

  // The four passes of commit() laid end to end.
  lemma CommitPasses(l: Layout, d: Disk, ts: seq<nat>, data: seq<Block>)
    requires ValidLog(l, d) && GoodTx(l, d, ts, data)
    ensures CommitWrites(l, d, ts, data)
            == SlotWrites(l, data) + [Write(l.start, HeaderBlock(d[l.start], ts))]
             + HomeWrites(ts, data) + [Write(l.start, PutWord(HeaderBlock(d[l.start], ts), 0, 0))]
  {
    hide Word, PutWord, PutWords, HeaderBlock, Targets;
  }

  /** The i-th disk write of recover_from_log(): the home blocks, then the cleared header. */
  ghost function RecoveryWrite(l: Layout, d: Disk, i: nat): Write
    requires ValidLog(l, d) && i <= Count(d[l.start])
  {
    if i < Count(d[l.start]) then Write(Targets(d[l.start])[i], d[l.start + 1 + i])
    else Write(l.start, PutWord(d[l.start], 0, 0))
  }

  ghost function RecoveryWrites(l: Layout, d: Disk): seq<Write>
    requires ValidLog(l, d)
  {
    seq(Count(d[l.start]) + 1, i requires 0 <= i <= Count(d[l.start]) => RecoveryWrite(l, d, i))
  }

  ghost function Recover(l: Layout, d: Disk): (r: Disk)
    requires ValidLog(l, d)
    ensures |r| == |d|
  {
    Apply(d, RecoveryWrites(l, d))
  }

  /** The disk a committed transaction stands for. */
  ghost function Updated(l: Layout, d: Disk, ts: seq<nat>, data: seq<Block>): (r: Disk)
    requires GoodTx(l, d, ts, data)
    ensures |r| == |d|
  {
    Apply(d, HomeWrites(ts, data))
  }

  /** Two disks hold the same file system: they agree outside the log. */
  ghost predicate SameHome(l: Layout, d: Disk, e: Disk) {
    |d| == |e| && forall b: nat :: Home(l, d, b) ==> d[b] == e[b]
  }

  lemma UpdatedAt(l: Layout, d: Disk, ts: seq<nat>, data: seq<Block>)
    requires GoodTx(l, d, ts, data)
    ensures forall i :: 0 <= i < |ts| ==> Updated(l, d, ts, data)[ts[i]] == data[i]
    ensures forall b :: 0 <= b < |d| && b !in ts ==> Updated(l, d, ts, data)[b] == d[b]
  {
    hide Word, PutWord, Apply;
    var ws := HomeWrites(ts, data);
    forall i | 0 <= i < |ts| ensures Updated(l, d, ts, data)[ts[i]] == data[i] {
      assert ws[i] == Write(ts[i], data[i]);
      ApplyLast(d, ws, i);
    }
    forall b | 0 <= b < |d| && b !in ts ensures Updated(l, d, ts, data)[b] == d[b] {
      ApplyUntouched(d, ws, b);
    }
  }

  // What complete recovery does to a disk, block by block.
  lemma RecoverAt(l: Layout, d: Disk)
    requires ValidLog(l, d)
    ensures Clean(l, Recover(l, d))
    ensures forall i :: 0 <= i < Count(d[l.start]) ==> Recover(l, d)[Targets(d[l.start])[i]] == d[l.start + 1 + i]
    ensures forall b: nat :: Home(l, d, b) && b !in Targets(d[l.start]) ==> Recover(l, d)[b] == d[b]
  {
    hide Word, PutWord, Apply;
    var ts := Targets(d[l.start]);
    var ws := RecoveryWrites(l, d);
    var r := Recover(l, d);
    ApplyLast(d, ws, |ts|);
    assert r[l.start] == PutWord(d[l.start], 0, 0);
    forall i | 0 <= i < |ts| ensures r[ts[i]] == d[l.start + 1 + i] {
      ApplyLast(d, ws, i);
    }
    forall b: nat | Home(l, d, b) && b !in ts ensures r[b] == d[b] {
      ApplyUntouched(d, ws, b);
    }
  }

  // ----- Crash atomicity -----

  /** The disk after the first k writes of a commit. */
  ghost function Crashed(l: Layout, d: Disk, ts: seq<nat>, data: seq<Block>, k: nat): (r: Disk)
    requires Clean(l, d) && GoodTx(l, d, ts, data) && k <= 2 * |ts| + 2
    ensures |r| == |d|
  {
    Apply(d, CommitWrites(l, d, ts, data)[..k])
  }

  lemma CrashedNone(l: Layout, d: Disk, ts: seq<nat>, data: seq<Block>)
    requires Clean(l, d) && GoodTx(l, d, ts, data)
    ensures Crashed(l, d, ts, data, 0) == d
  {
    ApplyNone(d, CommitWrites(l, d, ts, data));
  }

  lemma CrashedNext(l: Layout, d: Disk, ts: seq<nat>, data: seq<Block>, k: nat)
    requires Clean(l, d) && GoodTx(l, d, ts, data) && k < 2 * |ts| + 2
    ensures var w := CommitWrite(l, d[l.start], ts, data, k);
            w.at < |d| && Crashed(l, d, ts, data, k + 1) == Crashed(l, d, ts, data, k)[w.at := w.data]
  {
    hide Word, PutWord, PutWords, HeaderBlock, Targets, Apply;
    ApplyOneMore(d, CommitWrites(l, d, ts, data), k);
  }

  // Power lost while the log slots are being filled: nothing has happened yet.
  lemma CrashBeforeHeader(l: Layout, d: Disk, ts: seq<nat>, data: seq<Block>, k: nat)
    requires Clean(l, d) && GoodTx(l, d, ts, data) && k <= |ts|
    ensures Clean(l, Crashed(l, d, ts, data, k)) && SameHome(l, d, Crashed(l, d, ts, data, k))
    ensures Crashed(l, d, ts, data, k)[l.start] == d[l.start]
    ensures forall i :: 0 <= i < k ==> Crashed(l, d, ts, data, k)[l.start + 1 + i] == data[i]
  {
    hide Word, PutWord, Apply;
    var ws := CommitWrites(l, d, ts, data)[..k];
    var c := Crashed(l, d, ts, data, k);
    forall b: nat | b < |d| && (!InLog(l, b) || b == l.start) ensures c[b] == d[b] {
      ApplyUntouched(d, ws, b);
    }
    forall i | 0 <= i < k ensures c[l.start + 1 + i] == data[i] {
      ApplyLast(d, ws, i);
    }
  }

  // The blocks between the commit point and the clearing header write.
  lemma CommitPrefixAt(l: Layout, d: Disk, ts: seq<nat>, data: seq<Block>, k: nat)
    requires Clean(l, d) && GoodTx(l, d, ts, data) && |ts| < k <= 2 * |ts| + 1
    ensures var c := Crashed(l, d, ts, data, k);
            && c[l.start] == HeaderBlock(d[l.start], ts)
            && (forall i :: 0 <= i < |ts| ==> c[l.start + 1 + i] == data[i])
            && (forall i :: 0 <= i < k - |ts| - 1 ==> c[ts[i]] == data[i])
            && (forall b: nat :: Home(l, d, b) && b !in ts[..k - |ts| - 1] ==> c[b] == d[b])
  {
    hide Word, PutWord, PutWords, HeaderBlock, Targets, Apply;
    var n := |ts|;
    var ws := CommitWrites(l, d, ts, data)[..k];
    var c := Crashed(l, d, ts, data, k);
    ApplyLast(d, ws, n);
    forall i | 0 <= i < n ensures c[l.start + 1 + i] == data[i] {
      ApplyLast(d, ws, i);
    }
    forall i | 0 <= i < k - n - 1 ensures c[ts[i]] == data[i] {
      ApplyLast(d, ws, n + 1 + i);
    }
    forall b: nat | Home(l, d, b) && b !in ts[..k - n - 1] ensures c[b] == d[b] {
      ApplyUntouched(d, ws, b);
    }
  }

  lemma SlotHolds(l: Layout, d: Disk, ts: seq<nat>, data: seq<Block>, k: nat, i: nat)
    requires Clean(l, d) && GoodTx(l, d, ts, data) && |ts| < k <= 2 * |ts| + 1 && i < |ts|
    ensures Crashed(l, d, ts, data, k)[l.start + 1 + i] == data[i]
  {
    hide Word, PutWord, PutWords, HeaderBlock, Targets, Crashed;
    CommitPrefixAt(l, d, ts, data, k);
  }

  // Power lost between the commit point and the clearing header write: the log names the transaction.
  lemma CrashAfterHeader(l: Layout, d: Disk, ts: seq<nat>, data: seq<Block>, k: nat)
    requires Clean(l, d) && GoodTx(l, d, ts, data) && |ts| < k <= 2 * |ts| + 1
    ensures var c := Crashed(l, d, ts, data, k);
            ValidLog(l, c) && Targets(c[l.start]) == ts
  {
    hide Word, PutWord, PutWords, Targets, Crashed;
    CommitPrefixAt(l, d, ts, data, k);
  }

  // The last write of a commit empties the header that is there.
  lemma LastWrite(l: Layout, d: Disk, ts: seq<nat>, data: seq<Block>)
    requires Clean(l, d) && GoodTx(l, d, ts, data)
    ensures var c := Crashed(l, d, ts, data, 2 * |ts| + 1);
            Crashed(l, d, ts, data, 2 * |ts| + 2) == c[l.start := PutWord(c[l.start], 0, 0)]
  {
    hide Word, PutWord, PutWords, Targets, Crashed;
    CommitPrefixAt(l, d, ts, data, 2 * |ts| + 1);
    CrashedNext(l, d, ts, data, 2 * |ts| + 1);
  }

  // The transaction is complete and the log is empty again.
  lemma CommitComplete(l: Layout, d: Disk, ts: seq<nat>, data: seq<Block>)
    requires Clean(l, d) && GoodTx(l, d, ts, data)
    ensures var c := Crashed(l, d, ts, data, 2 * |ts| + 2);
            Clean(l, c) && SameHome(l, Updated(l, d, ts, data), c)
  {
    hide Word, PutWord, PutWords, Crashed, Updated;
    CommitPrefixAt(l, d, ts, data, 2 * |ts| + 1);
    UpdatedAt(l, d, ts, data);
    CrashedNext(l, d, ts, data, 2 * |ts| + 1);
  }

  // The disk between the four passes of commit(), as each pass finds it.
  lemma PassesApplied(l: Layout, d: Disk, ts: seq<nat>, data: seq<Block>)
    requires Clean(l, d) && GoodTx(l, d, ts, data)
    ensures var h := HeaderBlock(d[l.start], ts);
            var d1 := Apply(d, SlotWrites(l, data));
            var d2 := d1[l.start := h];
            var d3 := Apply(d2, HomeWrites(ts, data));
            && d1[l.start] == d[l.start] && d2[l.start + 1..l.start + 1 + |ts|] == data && d3[l.start] == h
            && d3[l.start := PutWord(h, 0, 0)] == Crashed(l, d, ts, data, 2 * |ts| + 2)
  {
    hide Word, PutWord, PutWords, HeaderBlock, Targets;
    var slots, homes := SlotWrites(l, data), HomeWrites(ts, data);
    var h := HeaderBlock(d[l.start], ts);
    var d1 := Apply(d, slots);
    var d2 := d1[l.start := h];
    ApplyUntouched(d, slots, l.start);
    forall i | 0 <= i < |ts| ensures d2[l.start + 1 + i] == data[i] {
      ApplyLast(d, slots, i);
    }
    ApplyUntouched(d2, homes, l.start);
    ApplyConcat(d, slots + [Write(l.start, h)], homes);
    assert (slots + [Write(l.start, h)])[..|slots|] == slots;
    CommitPasses(l, d, ts, data);
    var all := CommitWrites(l, d, ts, data);
    assert all[..2 * |ts| + 2] == all;
    assert all[..2 * |ts| + 1] == slots + [Write(l.start, h)] + homes;
  }

  /** Power lost after any number k of the disk writes of commit(): recovery restores the old file
      system up to and including the last log-slot write, and the new one from the header write on. */
  lemma CommitCrashAtomic(l: Layout, d: Disk, ts: seq<nat>, data: seq<Block>, k: nat)
    requires Clean(l, d) && GoodTx(l, d, ts, data) && k <= 2 * |ts| + 2
    ensures var c := Crashed(l, d, ts, data, k);
            ValidLog(l, c) && SameHome(l, if k <= |ts| then d else Updated(l, d, ts, data), Recover(l, c))
  {
    hide Word, PutWord, Apply;
    var c := Crashed(l, d, ts, data, k);
    UpdatedAt(l, d, ts, data);
    if k <= |ts| {
      CrashBeforeHeader(l, d, ts, data, k);
    } else if k <= 2 * |ts| + 1 {
      CommitPrefixAt(l, d, ts, data, k);
      CrashAfterHeader(l, d, ts, data, k);
    } else {
      CommitComplete(l, d, ts, data);
    }
    RecoverAt(l, c);
  }

  // The two passes of recover_from_log().
  lemma RecoveryPasses(l: Layout, d: Disk)
    requires ValidLog(l, d)
    ensures var ts := Targets(d[l.start]);
            var homes := HomeWrites(ts, d[l.start + 1..l.start + 1 + |ts|]);
            && Fits(d, homes)
            && RecoveryWrites(l, d) == homes + [Write(l.start, PutWord(d[l.start], 0, 0))]
            && Apply(d, homes)[l.start] == d[l.start]
            && Recover(l, d) == Apply(d, homes)[l.start := PutWord(d[l.start], 0, 0)]
  {
    hide Word, PutWord;
    var ts := Targets(d[l.start]);
    var homes := HomeWrites(ts, d[l.start + 1..l.start + 1 + |ts|]);
    ApplyUntouched(d, homes, l.start);
    var ws := RecoveryWrites(l, d);
    assert ws == homes + [Write(l.start, PutWord(d[l.start], 0, 0))];
    assert ws[..|ts|] == homes;
  }

  // Recovery cut after k writes leaves a disk that still recovers to the same file system.
  lemma RecoveryCrashAtomic(l: Layout, d: Disk, k: nat)
    requires ValidLog(l, d) && k <= |RecoveryWrites(l, d)|
    ensures var c := Apply(d, RecoveryWrites(l, d)[..k]);
            ValidLog(l, c) && SameHome(l, Recover(l, d), Recover(l, c))
  {
    hide Word, PutWord, Apply;
    var ts := Targets(d[l.start]);
    var ws := RecoveryWrites(l, d);
    var c := Apply(d, ws[..k]);
    RecoverAt(l, d);
    if k == |ws| {
      assert ws[..k] == ws;
    } else {
      assert forall i :: 0 <= i < k ==> ws[i].at == ts[i];
      forall b: nat | b < |d| && (InLog(l, b) || b !in ts) ensures c[b] == d[b] {
        ApplyUntouched(d, ws[..k], b);
      }
    }
    RecoverAt(l, c);
  }

  /** The disk after a boot whose recovery is cut after at most k writes. */
  ghost function CutRecovery(l: Layout, d: Disk, k: nat): (c: Disk)
    requires ValidLog(l, d)
    ensures |c| == |d|
  {
    var ws := RecoveryWrites(l, d);
    Apply(d, ws[..if k <= |ws| then k else |ws|])
  }

  lemma CutRecoverySafe(l: Layout, d: Disk, k: nat)
    requires ValidLog(l, d)
    ensures ValidLog(l, CutRecovery(l, d, k))
    ensures SameHome(l, Recover(l, d), Recover(l, CutRecovery(l, d, k)))
  {
    var n := |RecoveryWrites(l, d)|;
    RecoveryCrashAtomic(l, d, if k <= n then k else n);
  }

  /** The disk after a series of boots, each cut short after the given number of recovery writes. */
  ghost function Reboots(l: Layout, d: Disk, cuts: seq<nat>): (r: Disk)
    requires ValidLog(l, d)
    ensures ValidLog(l, r) && |r| == |d|
    decreases |cuts|
  {
    if cuts == [] then d else
      CutRecoverySafe(l, d, cuts[0]);
      Reboots(l, CutRecovery(l, d, cuts[0]), cuts[1..])
  }

  lemma {:induction false} RebootsPreserve(l: Layout, d: Disk, cuts: seq<nat>)
    requires ValidLog(l, d)
    ensures SameHome(l, Recover(l, d), Recover(l, Reboots(l, d, cuts)))
    decreases |cuts|
  {
    hide Word, PutWord, Apply, CutRecovery;
    if cuts != [] {
      CutRecoverySafe(l, d, cuts[0]);
      RebootsPreserve(l, CutRecovery(l, d, cuts[0]), cuts[1..]);
    }
  }

  /** The whole promise of the log: crash a commit anywhere, then crash any number of recoveries
      anywhere; the recovery that finally completes yields all of the transaction or none of it. */
  lemma CrashAnywhere(l: Layout, d: Disk, ts: seq<nat>, data: seq<Block>, k: nat, cuts: seq<nat>)
    requires Clean(l, d) && GoodTx(l, d, ts, data) && k <= 2 * |ts| + 2
    ensures var c := Crashed(l, d, ts, data, k);
            && ValidLog(l, c)
            && Clean(l, Recover(l, Reboots(l, c, cuts)))
            && SameHome(l, if k <= |ts| then d else Updated(l, d, ts, data), Recover(l, Reboots(l, c, cuts)))
  {
    hide Word, PutWord, Apply;
    CommitCrashAtomic(l, d, ts, data, k);
    var c := Crashed(l, d, ts, data, k);
    RebootsPreserve(l, c, cuts);
    RecoverAt(l, Reboots(l, c, cuts));
  }

  // Between two commits.
  lemma QuietCrash(l: Layout, d: Disk, cuts: seq<nat>)
    requires Clean(l, d)
    ensures ValidLog(l, d) && Clean(l, Recover(l, Reboots(l, d, cuts)))
    ensures SameHome(l, d, Recover(l, Reboots(l, d, cuts)))
  {
    hide Word, PutWord, Apply, Recover;
    CrashedNone(l, d, [], []);
    CrashAnywhere(l, d, [], [], 0, cuts);
  }
}
