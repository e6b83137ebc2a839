/** Runs of the log and the buffer cache together in which two threads make log_write's test before either has
    added its block: they list more blocks than a log region of LOGSIZE blocks or fewer has slots for. Whether the
    commit then gets as far as writing a slot outside the region depends on the number of buffers. */
module LogRace {
  import opened Machine
  import opened LogFormat
  import A = LogAdmission
  import opened LogSystem

  ghost predicate Leads(l: Layout, s: State) {
    exists states, steps :: Run(l, states, steps) && states[|steps|] == s
  }

  lemma Then(l: Layout, s: State, st: Step)
    requires Leads(l, s) && Enabled(l, s, st)
    ensures Leads(l, Do(l, s, st))
  {
    hide Do, Enabled, Init;
    var states, steps :| Run(l, states, steps) && states[|steps|] == s;
    var states', steps' := states + [Do(l, s, st)], steps + [st];
    forall i | 0 <= i < |steps'|
      ensures Enabled(l, states'[i], steps'[i]) && states'[i + 1] == Do(l, states'[i], steps'[i])
    {
    }
    assert Run(l, states', steps');
    assert states'[|steps'|] == Do(l, s, st);
  }

  // ----- What a thread does with one buffer -----

  // bread of a block that is not cached.
  lemma Fetches(l: Layout, s: State, t: Tid, b: nat, k: nat)
    requires Leads(l, s) && t !in s.passed && k < |s.bufs| && s.bufs[k].refcnt == 0 && b < |s.disk|
    requires forall j :: 0 <= j < |s.bufs| ==> s.bufs[j].block != Some(b)
    ensures Leads(l, PutBuf(s, k, Buf(Some(b), true, 1, Some(t), s.disk[b], {t}, false)))
  {
    hide Leads;
    Then(l, s, Recycle(t, b, k));
    var s1 := Do(l, s, Recycle(t, b, k));
    Then(l, s1, Lock(t, k));
    var s2 := Do(l, s1, Lock(t, k));
    Then(l, s2, Fill(t, k));
    assert Do(l, s2, Fill(t, k)).bufs == s.bufs[k := Buf(Some(b), true, 1, Some(t), s.disk[b], {t}, false)];
  }

  // bread of a block that is.
  lemma Borrows(l: Layout, s: State, t: Tid, k: nat)
    requires Leads(l, s) && t !in s.passed && k < |s.bufs| && s.bufs[k].block.Some? && s.bufs[k].lock == None
    requires t !in s.bufs[k].holders
    ensures Leads(l, PutBuf(s, k, s.bufs[k].(refcnt := s.bufs[k].refcnt + 1, lock := Some(t),
                                             holders := s.bufs[k].holders + {t})))
  {
    hide Leads;
    var b := s.bufs[k].block.value;
    Then(l, s, Hit(t, b, k));
    var s1 := Do(l, s, Hit(t, b, k));
    Then(l, s1, Lock(t, k));
    assert Do(l, s1, Lock(t, k)).bufs == s.bufs[k := s.bufs[k].(refcnt := s.bufs[k].refcnt + 1, lock := Some(t),
                                                                holders := s.bufs[k].holders + {t})];
  }

  // brelse.
  lemma Returns(l: Layout, s: State, t: Tid, k: nat)
    requires Leads(l, s) && t !in s.passed && LockedBy(s, t, k) && s.bufs[k].valid && !s.bufs[k].unlogged
    requires t in s.bufs[k].holders && s.bufs[k].refcnt > 0
    ensures Leads(l, PutBuf(s, k, s.bufs[k].(refcnt := s.bufs[k].refcnt - 1, lock := None,
                                             holders := s.bufs[k].holders - {t})))
  {
    hide Leads;
    Then(l, s, Unlock(t, k));
    var s1 := Do(l, s, Unlock(t, k));
    Then(l, s1, Drop(t, k));
    assert Do(l, s1, Drop(t, k)).bufs == s.bufs[k := s.bufs[k].(refcnt := s.bufs[k].refcnt - 1, lock := None,
                                                                holders := s.bufs[k].holders - {t})];
  }

  // ----- The states of the run -----

  const ONES: Block := seq(BSIZE, _ => 1)

  /** The first block behind the log. */
  function Victim(l: Layout): nat {
    l.start + l.size
  }

  /** A disk of zeroes but for the first block behind the log, and LOGSIZE blocks behind that. */
  function Blank(l: Layout): Disk {
    seq(l.start + l.size + 1 + LOGSIZE, k requires k >= 0 => if k == Victim(l) then ONES else ZERO_BLOCK)
  }

  lemma BlankAt(l: Layout)
    ensures |Blank(l)| == l.start + l.size + 1 + LOGSIZE
    ensures forall k :: 0 <= k < |Blank(l)| ==> Blank(l)[k] == if k == Victim(l) then ONES else ZERO_BLOCK
  {
  }

  /** The c-th block to be logged. */
  function At(l: Layout, c: nat): nat {
    l.start + l.size + 1 + c
  }

  const EMPTY := Buf(None, false, 0, None, ZERO_BLOCK, {}, false)

  /** A buffer holding block b, pinned or not, held and locked by the threads t. */
  function Held(b: nat, pins: nat, t: set<Tid>, lock: Option<Tid>): Buf {
    Buf(Some(b), true, |t| + pins, lock, ZERO_BLOCK, t, false)
  }

  /** The first c buffers hold the first c blocks, all logged. */
  function Logged(l: Layout, nbuf: nat, c: nat): (r: seq<Buf>)
    ensures |r| == nbuf
  {
    seq(nbuf, k requires 0 <= k < nbuf => if k < c then Held(At(l, k), 1, {}, None) else EMPTY)
  }

  function Blocks(l: Layout, c: nat): seq<nat> {
    seq(c, k requires 0 <= k < c => At(l, k))
  }

  function Grown(l: Layout, bufs: seq<Buf>, c: nat, ops: map<Tid, nat>, passed: map<Tid, nat>): State {
    State(Blank(l), bufs, Blocks(l, c), ops, passed, false, 0, 0, Blank(l), Blank(l), Blank(l))
  }

  lemma BlocksNext(l: Layout, c: nat)
    ensures Blocks(l, c) + [At(l, c)] == Blocks(l, c + 1) && At(l, c) !in Blocks(l, c)
  {
  }

  lemma BlankSame(l: Layout, c: nat)
    requires c < LOGSIZE
    ensures Home(l, Blank(l), At(l, c)) && Blank(l)[At(l, c)] == ZERO_BLOCK
    ensures Blank(l)[At(l, c) := ZERO_BLOCK] == Blank(l)
  {
    BlankAt(l);
    hide Blank;
  }

  // Thread t reads block k into buffer k and makes the test.
  lemma Tests(l: Layout, bufs: seq<Buf>, c: nat, k: nat, ops: map<Tid, nat>, passed: map<Tid, nat>, t: Tid)
    requires k < LOGSIZE && k < |bufs| && bufs[k] == EMPTY
    requires forall j :: 0 <= j < |bufs| ==> bufs[j].block != Some(At(l, k))
    requires Leads(l, Grown(l, bufs, c, ops, passed)) && t in ops && t !in passed && !A.TooBig(l.size, c)
    ensures Leads(l, Grown(l, bufs[k := Held(At(l, k), 0, {t}, Some(t))], c, ops, passed[t := k]))
  {
    hide Leads, Blank;
    var s := Grown(l, bufs, c, ops, passed);
    BlankSame(l, k);
    Fetches(l, s, t, At(l, k), k);
    var s1 := Grown(l, bufs[k := Held(At(l, k), 0, {t}, Some(t))], c, ops, passed);
    assert PutBuf(s, k, Buf(Some(At(l, k)), true, 1, Some(t), s.disk[At(l, k)], {t}, false)) == s1;
    Then(l, s1, Check(t, k));
  }

  // Thread t, past the test, adds block c, which buffer c holds.
  lemma Adds(l: Layout, bufs: seq<Buf>, c: nat, ops: map<Tid, nat>, passed: map<Tid, nat>, t: Tid)
    requires c < LOGSIZE && c < |bufs| && bufs[c] == Held(At(l, c), 0, {t}, Some(t))
    requires t in ops && ops[t] < MAXOPBLOCKS && t in passed && passed[t] == c
    requires Leads(l, Grown(l, bufs, c, ops, passed))
    ensures Leads(l, Grown(l, bufs[c := Held(At(l, c), 1, {t}, Some(t))], c + 1, ops[t := ops[t] + 1], passed - {t}))
  {
    hide Leads, Blank;
    BlankSame(l, c);
    BlocksNext(l, c);
    Then(l, Grown(l, bufs, c, ops, passed), Append(t, c));
  }

  // And releases the buffer.
  lemma Releases(l: Layout, bufs: seq<Buf>, k: nat, c: nat, ops: map<Tid, nat>, passed: map<Tid, nat>, t: Tid)
    requires k < |bufs| && bufs[k] == Held(At(l, k), 1, {t}, Some(t)) && t !in passed
    requires Leads(l, Grown(l, bufs, c, ops, passed))
    ensures Leads(l, Grown(l, bufs[k := Held(At(l, k), 1, {}, None)], c, ops, passed))
  {
    hide Leads, Blank;
    Returns(l, Grown(l, bufs, c, ops, passed), t, k);
    assert {t} - {t} == {};
  }

  function Three(x: nat, y: nat, z: nat): map<Tid, nat> {
    map[0 := x, 1 := y, 2 := z]
  }

  // Thread t logs block c with nobody racing.
  lemma LogsOne(l: Layout, nbuf: nat, c: nat, ops: map<Tid, nat>, t: Tid)
    requires c < LOGSIZE && c < nbuf && t in ops && ops[t] < MAXOPBLOCKS && !A.TooBig(l.size, c)
    requires Leads(l, Grown(l, Logged(l, nbuf, c), c, ops, map[]))
    ensures Leads(l, Grown(l, Logged(l, nbuf, c + 1), c + 1, ops[t := ops[t] + 1], map[]))
  {
    hide Leads;
    var bufs := Logged(l, nbuf, c);
    Tests(l, bufs, c, c, ops, map[], t);
    var b1 := bufs[c := Held(At(l, c), 0, {t}, Some(t))];
    assert map[][t := c] == map[t := c];
    Adds(l, b1, c, ops, map[t := c], t);
    var b2 := b1[c := Held(At(l, c), 1, {t}, Some(t))];
    assert map[t := c] - {t} == map[];
    Releases(l, b2, c, c + 1, ops[t := ops[t] + 1], map[], t);
    assert b2[c := Held(At(l, c), 1, {}, None)] == Logged(l, nbuf, c + 1);
  }

  lemma ZeroHeader()
    ensures Count(ZERO_BLOCK) == 0 && Targets(ZERO_BLOCK) == []
  {
    assert Word(ZERO_BLOCK, 0) == 0;
  }

  lemma BlankIsClean(l: Layout)
    requires 0 < l.size && l.start + l.size + LOGSIZE < 0x1_0000_0000
    ensures Clean(l, Blank(l))
  {
    BlankAt(l);
    hide Blank;
    ZeroHeader();
  }

  lemma Boots(l: Layout, nbuf: nat)
    requires 0 < l.size && l.start + l.size + LOGSIZE < 0x1_0000_0000
    ensures Leads(l, Grown(l, Logged(l, nbuf, 0), 0, map[], map[]))
  {
    hide Clean, Blank;
    var s := Grown(l, Logged(l, nbuf, 0), 0, map[], map[]);
    BlankIsClean(l);
    assert Blocks(l, 0) == [];
    assert Init(l, s);
    var none: seq<Step> := [];
    assert Run(l, [s], none) && [s][|none|] == s;
  }

  lemma Starts(l: Layout, nbuf: nat)
    requires 0 < l.size && l.start + l.size + LOGSIZE < 0x1_0000_0000
    ensures Leads(l, Grown(l, Logged(l, nbuf, 0), 0, Three(0, 0, 0), map[]))
  {
    hide Leads, Logged, Blank;
    var bufs := Logged(l, nbuf, 0);
    var ops1, ops2: map<Tid, nat> := map[0 := 0], map[0 := 0, 1 := 0];
    assert |ops1| == 1 && |ops2| == 2;
    Boots(l, nbuf);
    Then(l, Grown(l, bufs, 0, map[], map[]), Begin(0));
    Then(l, Grown(l, bufs, 0, ops1, map[]), Begin(1));
    Then(l, Grown(l, bufs, 0, ops2, map[]), Begin(2));
  }

  lemma {:induction false} ThreeLog(l: Layout, nbuf: nat, x: nat, y: nat, z: nat)
    requires x <= MAXOPBLOCKS && y <= MAXOPBLOCKS && z <= MAXOPBLOCKS && x + y + z <= nbuf
    requires 0 < l.size && l.start + l.size + LOGSIZE < 0x1_0000_0000
    requires x + y + z > 0 ==> !A.TooBig(l.size, x + y + z - 1)
    ensures Leads(l, Grown(l, Logged(l, nbuf, x + y + z), x + y + z, Three(x, y, z), map[]))
    decreases x + y + z
  {
    hide Leads, Grown, Logged;
    if x + y + z == 0 {
      Starts(l, nbuf);
    } else {
      var t := if z > 0 then 2 else if y > 0 then 1 else 0;
      var ops := if z > 0 then Three(x, y, z - 1) else if y > 0 then Three(x, y - 1, z) else Three(x - 1, y, z);
      ThreeLog(l, nbuf, ops[0], ops[1], ops[2]);
      LogsOne(l, nbuf, x + y + z - 1, ops, t);
      assert Three(x, y, z) == ops[t := ops[t] + 1];
    }
  }

  // ----- The race -----

  function Mine(l: Layout, bufs: seq<Buf>, c: nat, pins: nat, t: Tid): (r: seq<Buf>)
    requires c < |bufs|
    ensures |r| == |bufs|
  {
    bufs[c := Held(At(l, c), pins, {t}, Some(t))]
  }

  // Threads 1 and 2 both make the test when two blocks of the region are left.
  lemma BothTest(l: Layout, nbuf: nat, c: nat, ops: map<Tid, nat>)
    requires c + 2 <= LOGSIZE && c + 2 <= nbuf && 1 in ops && 2 in ops && !A.TooBig(l.size, c)
    requires Leads(l, Grown(l, Logged(l, nbuf, c), c, ops, map[]))
    ensures Leads(l, Grown(l, Mine(l, Mine(l, Logged(l, nbuf, c), c, 0, 1), c + 1, 0, 2), c, ops,
                           map[1 := c, 2 := c + 1]))
  {
    hide Leads;
    Tests(l, Logged(l, nbuf, c), c, c, ops, map[], 1);
    assert map[][1 := c] == map[1 := c];
    Tests(l, Mine(l, Logged(l, nbuf, c), c, 0, 1), c, c + 1, ops, map[1 := c], 2);
    assert map[1 := c][2 := c + 1] == map[1 := c, 2 := c + 1];
  }

  // And then both add their block and release it.
  lemma BothAdd(l: Layout, nbuf: nat, c: nat, ops: map<Tid, nat>)
    requires c + 2 <= LOGSIZE && c + 2 <= nbuf && 1 in ops && 2 in ops
    requires ops[1] < MAXOPBLOCKS && ops[2] < MAXOPBLOCKS
    requires Leads(l, Grown(l, Mine(l, Mine(l, Logged(l, nbuf, c), c, 0, 1), c + 1, 0, 2), c, ops,
                            map[1 := c, 2 := c + 1]))
    ensures Leads(l, Grown(l, Logged(l, nbuf, c + 2), c + 2, ops[1 := ops[1] + 1][2 := ops[2] + 1], map[]))
  {
    hide Leads, Grown;
    var b0 := Mine(l, Mine(l, Logged(l, nbuf, c), c, 0, 1), c + 1, 0, 2);
    Adds(l, b0, c, ops, map[1 := c, 2 := c + 1], 1);
    assert map[1 := c, 2 := c + 1] - {1} == map[2 := c + 1];
    var b1, ops1 := Mine(l, b0, c, 1, 1), ops[1 := ops[1] + 1];
    Adds(l, b1, c + 1, ops1, map[2 := c + 1], 2);
    assert map[2 := c + 1] - {2} == map[];
    var b2, ops2 := Mine(l, b1, c + 1, 1, 2), ops1[2 := ops1[2] + 1];
    Releases(l, b2, c, c + 2, ops2, map[], 1);
    var b3 := b2[c := Held(At(l, c), 1, {}, None)];
    Releases(l, b3, c + 1, c + 2, ops2, map[], 2);
    assert b3[c + 1 := Held(At(l, c + 1), 1, {}, None)] == Logged(l, nbuf, c + 2);
  }

  /** With a log region of 2 to LOGSIZE blocks and as many buffers, three operations within their budgets list as
      many blocks as the region has, one more than it has slots. */
  lemma Overrun(l: Layout, nbuf: nat) returns (ops: map<Tid, nat>)
    requires 2 <= l.size <= LOGSIZE && l.size <= nbuf && l.start + l.size + LOGSIZE < 0x1_0000_0000
    ensures Leads(l, Grown(l, Logged(l, nbuf, l.size), l.size, ops, map[])) && ops.Keys == {0, 1, 2}
    ensures forall t :: t in ops ==> ops[t] <= MAXOPBLOCKS
  {
    hide Leads, Grown, Logged, Mine;
    var c := l.size - 2;
    var a := A.Spread(c);
    ThreeLog(l, nbuf, a.ops[0], a.ops[1], a.ops[2]);
    assert a.ops == Three(a.ops[0], a.ops[1], a.ops[2]);
    BothTest(l, nbuf, c, a.ops);
    BothAdd(l, nbuf, c, a.ops);
    ops := a.ops[1 := a.ops[1] + 1][2 := a.ops[2] + 1];
  }

  /** In every run the transaction lists fewer blocks than the log region has if and only if the region has more
      than LOGSIZE blocks, or too few for any transaction. mkfs makes it LOGSIZE. */
  lemma ListFitsRegionIff(l: Layout)
    requires 0 < l.size && l.start + l.size + LOGSIZE < 0x1_0000_0000
    ensures (forall s :: Leads(l, s) ==> A.SlotsFit(l.size, |s.ts|)) <==> l.size > LOGSIZE || l.size < 2
  {
    if 2 <= l.size <= LOGSIZE {
      var ops := Overrun(l, LOGSIZE);
      var r := Grown(l, Logged(l, LOGSIZE, l.size), l.size, ops, map[]);
      assert Leads(l, r) && !A.SlotsFit(l.size, |r.ts|);
    } else {
      forall s | Leads(l, s) ensures A.SlotsFit(l.size, |s.ts|) {
        var states, steps :| Run(l, states, steps) && states[|steps|] == s;
        if l.size > LOGSIZE {
          HeaderFits(l, states, steps, |steps|);
        } else {
          RunInv(l, states, steps, |steps|);
        }
      }
    }
  }

  // ----- The commit -----

  /** After w slot writes, the last of which, if they are as many as the region has blocks, was past its end. */
  function Slotted(l: Layout, w: nat): Disk {
    if w < l.size then Blank(l) else Blank(l)[Victim(l) := ZERO_BLOCK]
  }

  function Committing(l: Layout, bufs: seq<Buf>, c: nat, w: nat): State {
    State(Slotted(l, w), bufs, Blocks(l, c), map[], map[], true, 2, w, Blank(l), Blank(l), Blank(l))
  }

  // The three operations end, the last of them commits.
  lemma AllEnd(l: Layout, nbuf: nat, ops: map<Tid, nat>)
    requires Leads(l, Grown(l, Logged(l, nbuf, l.size), l.size, ops, map[])) && ops.Keys == {0, 1, 2} && l.size > 0
    ensures Leads(l, Committing(l, Logged(l, nbuf, l.size), l.size, 0))
  {
    hide Leads, Blank, Blocks;
    var s := Grown(l, Logged(l, nbuf, l.size), l.size, ops, map[]);
    Then(l, s, End(0));
    var s1 := Do(l, s, End(0));
    assert s1.ops.Keys == {1, 2};
    Then(l, s1, End(1));
    var s2 := Do(l, s1, End(1));
    assert s2.ops.Keys == {2};
    Then(l, s2, End(2));
    assert Do(l, s2, End(2)).ops == map[];
  }

  /** The buffers after w slot writes: buffer c has held each slot in turn. */
  function Spare(l: Layout, nbuf: nat, c: nat, w: nat): (r: seq<Buf>)
    requires c < nbuf
    ensures |r| == nbuf
  {
    Logged(l, nbuf, c)[c := if w == 0 then EMPTY else Held(l.start + w, 0, {}, None)]
  }

  lemma SpareUnused(l: Layout, nbuf: nat, c: nat)
    requires c < nbuf
    ensures Spare(l, nbuf, c, 0) == Logged(l, nbuf, c)
  {
  }

  /** The committer has read slot w into buffer l.size and holds the w-th logged block. */
  function Ready(l: Layout, nbuf: nat, w: nat): (r: seq<Buf>)
    requires w < l.size < nbuf
    ensures |r| == nbuf
  {
    var x := l.start + 1 + w;
    Logged(l, nbuf, l.size)[l.size := Buf(Some(x), true, 1, Some(2), Slotted(l, w)[x], {2}, false)]
                           [w := Held(At(l, w), 1, {2}, Some(2))]
  }

  lemma SlottedNext(l: Layout, w: nat)
    requires w < l.size
    ensures l.start + 1 + w < |Slotted(l, w)| && Slotted(l, w)[l.start + 1 + w := ZERO_BLOCK] == Slotted(l, w + 1)
  {
    BlankAt(l);
    hide Blank;
  }

  // write_log has its two buffers.
  lemma SlotReady(l: Layout, nbuf: nat, w: nat)
    requires w < l.size < nbuf && Leads(l, Committing(l, Spare(l, nbuf, l.size, w), l.size, w))
    ensures Leads(l, Committing(l, Ready(l, nbuf, w), l.size, w))
  {
    hide Leads, Slotted, Blocks;
    var s, x := Committing(l, Spare(l, nbuf, l.size, w), l.size, w), l.start + 1 + w;
    SlottedNext(l, w);
    Fetches(l, s, 2, x, l.size);
    var s1 := PutBuf(s, l.size, Buf(Some(x), true, 1, Some(2), s.disk[x], {2}, false));
    Borrows(l, s1, 2, w);
    assert {} + {2} == {2};
    assert PutBuf(s1, w, Held(At(l, w), 1, {2}, Some(2))) == Committing(l, Ready(l, nbuf, w), l.size, w);
  }

  // It copies the block into the slot and releases both.
  lemma SlotDone(l: Layout, nbuf: nat, w: nat)
    requires w < l.size < nbuf && Leads(l, Committing(l, Ready(l, nbuf, w), l.size, w))
    ensures Leads(l, Committing(l, Spare(l, nbuf, l.size, w + 1), l.size, w + 1))
  {
    hide Leads, Slotted;
    var bufs := Ready(l, nbuf, w);
    var s := Committing(l, bufs, l.size, w);
    SlottedNext(l, w);
    Then(l, s, SlotWrite(l.size, w));
    var s1 := Committing(l, bufs[l.size := Held(l.start + 1 + w, 0, {2}, Some(2))], l.size, w + 1);
    assert Do(l, s, SlotWrite(l.size, w)) == s1;
    Returns(l, s1, 2, w);
    assert {2} - {2} == {};
    var s2 := PutBuf(s1, w, Held(At(l, w), 1, {}, None));
    Returns(l, s2, 2, l.size);
    assert PutBuf(s2, l.size, Held(l.start + 1 + w, 0, {}, None)).bufs == Spare(l, nbuf, l.size, w + 1);
  }

  lemma {:induction false} SlotsWritten(l: Layout, nbuf: nat, w: nat)
    requires w <= l.size < nbuf && Leads(l, Committing(l, Logged(l, nbuf, l.size), l.size, 0))
    ensures Leads(l, Committing(l, Spare(l, nbuf, l.size, w), l.size, w))
  {
    hide Leads, Committing, Ready, Spare, Logged;
    if w == 0 {
      SpareUnused(l, nbuf, l.size);
    } else {
      SlotsWritten(l, nbuf, w - 1);
      SlotReady(l, nbuf, w - 1);
      SlotDone(l, nbuf, w - 1);
    }
  }

  /** One more buffer than the region has blocks, and the commit goes on to write its last slot over a home block
      before the header: the block is lost, and recovery does not bring it back. */
  lemma Overwrite(l: Layout, nbuf: nat) returns (r: State)
    requires 2 <= l.size <= LOGSIZE && l.size < nbuf && l.start + l.size + LOGSIZE < 0x1_0000_0000
    ensures Leads(l, r) && |r.bufs| == nbuf && !HomeKept(l, r) && !Recovers(l, r)
  {
    hide Leads;
    var ops := Overrun(l, nbuf);
    AllEnd(l, nbuf, ops);
    SlotsWritten(l, nbuf, l.size);
    r := Committing(l, Spare(l, nbuf, l.size, l.size), l.size, l.size);
    Lost(l, r);
  }

  lemma Lost(l: Layout, r: State)
    requires r.disk == Slotted(l, l.size) && r.committed == Blank(l) && r.wrote == |r.ts|
    requires 2 <= l.size && l.start + l.size + LOGSIZE < 0x1_0000_0000
    ensures !HomeKept(l, r) && !Recovers(l, r)
  {
    hide Recover;
    assert ONES[0] != ZERO_BLOCK[0];
    BlankAt(l);
    hide Blank;
    assert Home(l, r.disk, Victim(l)) && r.disk[Victim(l)] == ZERO_BLOCK && r.committed[Victim(l)] == ONES;
    assert r.disk[l.start] == ZERO_BLOCK;
    ZeroHeader();
    RecoverAt(l, r.disk);
  }

  // ----- When the file system is safe -----

  /** Until the header is written, the home blocks on disk are the committed ones. */
  ghost predicate HomeKept(l: Layout, s: State) {
    s.wrote <= |s.ts| ==> SameHome(l, s.committed, s.disk)
  }

  /** A crash now, and recovery, bring back the committed file system. */
  ghost predicate Recovers(l: Layout, s: State) {
    ValidLog(l, s.disk) && SameHome(l, s.committed, Recover(l, s.disk))
  }

  lemma RoomyIsSafe(l: Layout, s: State)
    requires Leads(l, s) && Roomy(l, |s.bufs|)
    ensures HomeKept(l, s) && Recovers(l, s)
  {
    var states, steps :| Run(l, states, steps) && states[|steps|] == s;
    hide Run, Recover;
    SameBufferCount(l, states, steps, |steps|);
    CrashRestoresCommitted(l, states, steps, |steps|, []);
    assert Reboots(l, s.disk, []) == s.disk;
    RunInv(l, states, steps, |steps|);
    hide Inv;
    forall b: nat | Home(l, s.committed, b) && s.wrote <= |s.ts| ensures s.committed[b] == s.disk[b] {
      HomeUntouchedBeforeCommit(l, states, steps, |steps|, b);
    }
  }

  lemma {:induction false} SameBufferCount(l: Layout, states: seq<State>, steps: seq<Step>, n: nat)
    requires Run(l, states, steps) && n < |states|
    ensures |states[n].bufs| == |states[0].bufs|
  {
    hide Do, Enabled, Init;
    if n > 0 {
      SameBufferCount(l, states, steps, n - 1);
      SameBuffers(l, states[n - 1], steps[n - 1]);
    }
  }

  /** Every state of every run keeps the committed home blocks on disk until the header is written, and survives a
      crash, if and only if the region has more than LOGSIZE blocks, or no fewer than there are buffers, or too few
      for any transaction. The kernel has LOGSIZE buffers, and mkfs makes the region LOGSIZE blocks. */
  lemma SafeIff(l: Layout, nbuf: nat)
    requires 0 < l.size && l.start + l.size + LOGSIZE < 0x1_0000_0000
    ensures (forall s :: Leads(l, s) && |s.bufs| == nbuf ==> HomeKept(l, s)) <==> Roomy(l, nbuf)
    ensures (forall s :: Leads(l, s) && |s.bufs| == nbuf ==> Recovers(l, s)) <==> Roomy(l, nbuf)
  {
    hide Leads, HomeKept, Recovers;
    if Roomy(l, nbuf) {
      forall s | Leads(l, s) && |s.bufs| == nbuf ensures HomeKept(l, s) && Recovers(l, s) {
        RoomyIsSafe(l, s);
      }
    } else {
      var r := Overwrite(l, nbuf);
    }
  }
}
