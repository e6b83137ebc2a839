/** Group commit and admission control of kernel/log.c: begin_op reserves MAXOPBLOCKS log blocks for
    every open operation, log_write spends them, and the last end_op starts the commit. */
module LogAdmission {
  import opened Machine

  /** `ops` maps each open operation to the number of blocks it has added to the log; `passed` are those
      inside log_write that have made its test, which needs no lock, and wait for log.lock. */
  datatype Admission = Admission(n: nat, ops: map<nat, nat>, committing: bool, passed: set<nat>)

  /** Check and then Add or Relog are one log_write, of a new block or of one the log already lists. */
  datatype Step = Begin(t: nat) | Check(t: nat) | Add(t: nat) | Relog(t: nat) | End(t: nat) | Commit | Finish

  const INIT := Admission(0, map[], false, {})

  /** The test under which begin_op stops waiting. */
  predicate CanBegin(a: Admission) {
    !a.committing && a.n + (|a.ops| + 1) * MAXOPBLOCKS <= LOGSIZE
  }

  /** The test on which log_write panics, for a log region of `size` blocks. */
  predicate TooBig(size: nat, n: nat) {
    n >= LOGSIZE || n >= size - 1
  }

  /** An operation about to log a block that is not in the log yet, within its budget. */
  predicate WantsToAdd(a: Admission, t: nat) {
    t in a.ops && a.ops[t] < MAXOPBLOCKS
  }

  predicate Enabled(size: nat, a: Admission, st: Step) {
    match st
    case Begin(t) => t !in a.ops && CanBegin(a)
    case Check(t) => t in a.ops && t !in a.passed && !TooBig(size, a.n)
    case Add(t) => t in a.passed && WantsToAdd(a, t)
    case Relog(t) => t in a.passed && a.n > 0
    case End(t) => t in a.ops && t !in a.passed
    case Commit => a.committing
    case Finish => a.committing && a.n == 0
  }

  function Do(size: nat, a: Admission, st: Step): Admission
    requires Enabled(size, a, st)
  {
    match st
    case Begin(t) => a.(ops := a.ops[t := 0])
    case Check(t) => a.(passed := a.passed + {t})
    case Add(t) => a.(n := a.n + 1, ops := a.ops[t := a.ops[t] + 1], passed := a.passed - {t})
    case Relog(t) => a.(passed := a.passed - {t})
    case End(t) => a.(ops := a.ops - {t}, committing := a.ops.Keys == {t})
    case Commit => a.(n := 0)
    case Finish => a.(committing := false)
  }

  ghost predicate Reaches(size: nat, a: Admission, run: seq<Step>, b: Admission)
    decreases |run|
  {
    if run == [] then a == b
    else Enabled(size, a, run[0]) && Reaches(size, Do(size, a, run[0]), run[1..], b)
  }

  ghost predicate Reachable(size: nat, a: Admission) {
    exists run :: Reaches(size, INIT, run, a)
  }

  // ----- Reservations -----

  /** Log blocks the open operations may still add. */
  ghost function Unspent(ops: map<nat, nat>): nat
    decreases |ops|
  {
    if ops == map[] then 0 else
      var t :| t in ops;
      Room(ops[t]) + Unspent(ops - {t})
  }

  function Room(spent: nat): nat {
    if spent <= MAXOPBLOCKS then MAXOPBLOCKS - spent else 0
  }

  lemma {:induction false} UnspentSplit(ops: map<nat, nat>, t: nat)
    requires t in ops
    ensures Unspent(ops) == Room(ops[t]) + Unspent(ops - {t})
    decreases |ops|
  {
    var u :| u in ops && Unspent(ops) == Room(ops[u]) + Unspent(ops - {u});
    if u != t {
      UnspentSplit(ops - {u}, t);
      UnspentSplit(ops - {t}, u);
      assert ops - {u} - {t} == ops - {t} - {u};
    }
  }

  lemma UnspentPut(ops: map<nat, nat>, t: nat, spent: nat)
    ensures Unspent(ops[t := spent]) == Room(spent) + Unspent(ops - {t})
  {
    UnspentSplit(ops[t := spent], t);
    assert ops[t := spent] - {t} == ops - {t};
  }

  lemma {:induction false} UnspentAtMost(ops: map<nat, nat>)
    ensures Unspent(ops) <= |ops| * MAXOPBLOCKS
    decreases |ops|
  {
    if ops != map[] {
      var t :| t in ops;
      UnspentSplit(ops, t);
      UnspentAtMost(ops - {t});
      assert (ops - {t}).Keys == ops.Keys - {t};
    }
  }

  ghost predicate Inv(a: Admission) {
    && a.n + Unspent(a.ops) <= LOGSIZE
    && a.passed <= a.ops.Keys
    && (a.committing ==> a.ops == map[])
    && (a.ops == map[] && !a.committing ==> a.n == 0)
  }

  /** The test made before the lock is taken plays no part: the reservations alone bound the log. */
  lemma InvStep(size: nat, a: Admission, st: Step)
    requires Inv(a) && Enabled(size, a, st)
    ensures Inv(Do(size, a, st))
  {
    match st
    case Begin(t) =>
      UnspentPut(a.ops, t, 0);
      assert a.ops - {t} == a.ops;
      UnspentAtMost(a.ops);
    case Check(t) =>
    case Add(t) =>
      UnspentPut(a.ops, t, a.ops[t] + 1);
      UnspentSplit(a.ops, t);
    case Relog(t) =>
    case End(t) =>
      UnspentSplit(a.ops, t);
      assert (a.ops - {t}).Keys == a.ops.Keys - {t};
      assert forall u :: u in a.ops && u != t ==> u in a.ops - {t};
    case Commit =>
    case Finish =>
  }

  /** Reservations are never overdrawn, and a commit never overlaps an open operation. */
  lemma {:induction false} ReservationsHold(size: nat, a: Admission, run: seq<Step>, b: Admission)
    requires Inv(a) && Reaches(size, a, run, b)
    ensures Inv(b)
    decreases |run|
  {
    if run != [] {
      InvStep(size, a, run[0]);
      ReservationsHold(size, Do(size, a, run[0]), run[1..], b);
    }
  }

  /** The index log_write stores a new block at is inside log.lh.block, whatever the size of the region. */
  lemma IndexInBounds(size: nat, a: Admission, t: nat)
    requires Reachable(size, a) && Enabled(size, a, Add(t))
    ensures a.n < LOGSIZE
  {
    ReachableInv(size, a);
    UnspentSplit(a.ops, t);
  }

  lemma ReachableInv(size: nat, a: Admission)
    requires Reachable(size, a)
    ensures Inv(a)
  {
    var run :| Reaches(size, INIT, run, a);
    ReservationsHold(size, INIT, run, a);
  }

  // ----- Runs -----

  lemma {:induction false} ReachesThen(size: nat, a: Admission, run: seq<Step>, b: Admission, st: Step)
    requires Reaches(size, a, run, b) && Enabled(size, b, st)
    ensures Reaches(size, a, run + [st], Do(size, b, st))
    decreases |run|
  {
    if run == [] {
      assert (run + [st])[1..] == [];
    } else {
      ReachesThen(size, Do(size, a, run[0]), run[1..], b, st);
      assert (run + [st])[1..] == run[1..] + [st];
    }
  }

  lemma ReachableThen(size: nat, b: Admission, st: Step)
    requires Reachable(size, b) && Enabled(size, b, st)
    ensures Reachable(size, Do(size, b, st))
  {
    var run :| Reaches(size, INIT, run, b);
    ReachesThen(size, INIT, run, b, st);
  }

  /** Three operations admitted together that have added x, y and z blocks. */
  function Three(x: nat, y: nat, z: nat): Admission {
    Admission(x + y + z, map[0 := x, 1 := y, 2 := z], false, {})
  }

  lemma ThreeBegin(size: nat)
    ensures Reachable(size, Three(0, 0, 0))
  {
    hide Reachable;
    assert Reachable(size, INIT) by {
      ReachableInit(size);
    }
    var a1, a2 := Admission(0, map[0 := 0], false, {}), Admission(0, map[0 := 0, 1 := 0], false, {});
    assert |a1.ops| == 1 && |a2.ops| == 2;
    ReachableThen(size, INIT, Begin(0));
    ReachableThen(size, a1, Begin(1));
    ReachableThen(size, a2, Begin(2));
  }

  lemma ReachableInit(size: nat)
    ensures Reachable(size, INIT)
  {
    assert Reaches(size, INIT, [], INIT);
  }

  // One log_write of a new block with nobody racing.
  lemma AddAlone(size: nat, a: Admission, t: nat)
    requires Reachable(size, a) && WantsToAdd(a, t) && a.passed == {} && !TooBig(size, a.n)
    ensures Reachable(size, a.(n := a.n + 1, ops := a.ops[t := a.ops[t] + 1]))
  {
    hide Reachable;
    ReachableThen(size, a, Check(t));
    assert a.passed + {t} == {t};
    ReachableThen(size, a.(passed := {t}), Add(t));
    assert {t} - {t} == a.passed;
  }

  lemma {:induction false} ThreeReachable(size: nat, x: nat, y: nat, z: nat)
    requires x <= MAXOPBLOCKS && y <= MAXOPBLOCKS && z <= MAXOPBLOCKS
    requires x + y + z > 0 ==> !TooBig(size, x + y + z - 1)
    ensures Reachable(size, Three(x, y, z))
    decreases x + y + z
  {
    hide Reachable;
    if x + y + z == 0 {
      ThreeBegin(size);
    } else {
      var t := if z > 0 then 2 else if y > 0 then 1 else 0;
      var a := if z > 0 then Three(x, y, z - 1) else if y > 0 then Three(x, y - 1, z) else Three(x - 1, y, z);
      ThreeReachable(size, a.ops[0], a.ops[1], a.ops[2]);
      AddAlone(size, a, t);
      assert Three(x, y, z).ops == a.ops[t := a.ops[t] + 1];
    }
  }

  // ----- When log_write panics -----

  /** log_write of a new block, by an operation within its MAXOPBLOCKS budget, never panics — exactly
      when the log region has more than LOGSIZE blocks. The region mkfs lays out has LOGSIZE. */
  lemma NeverTooBig(size: nat)
    ensures (forall a, t :: Reachable(size, a) && WantsToAdd(a, t) ==> !TooBig(size, a.n)) <==> size > LOGSIZE
  {
    if size > LOGSIZE {
      forall a, t | Reachable(size, a) && WantsToAdd(a, t) ensures !TooBig(size, a.n) {
        ReachableInv(size, a);
        UnspentSplit(a.ops, t);
      }
    } else {
      var c := if size == 0 then 0 else size - 1;
      var a := Spread(c);
      ThreeReachable(size, a.ops[0], a.ops[1], a.ops[2]);
      assert WantsToAdd(a, 2) && TooBig(size, a.n);
    }
  }

  /** c blocks, as many as possible by operation 0 and then by 1; both leave room if c does. */
  function Spread(c: nat): (a: Admission)
    requires c < LOGSIZE
    ensures a.ops.Keys == {0, 1, 2} && a == Three(a.ops[0], a.ops[1], a.ops[2]) && a.n == c
    ensures a.ops[0] <= MAXOPBLOCKS && a.ops[1] <= MAXOPBLOCKS && a.ops[2] < MAXOPBLOCKS
    ensures c + 2 <= LOGSIZE ==> a.ops[1] < MAXOPBLOCKS
  {
    var x := if c <= MAXOPBLOCKS then c else MAXOPBLOCKS;
    var full := if c + 2 <= LOGSIZE then MAXOPBLOCKS - 1 else MAXOPBLOCKS;
    var y := if c - x <= full then c - x else full;
    Three(x, y, c - x - y)
  }

  /** In a large enough region an open operation's log_write, of a new block or of a listed one, panics
      exactly when the log is full; and then every operation has spent its budget. */
  lemma PanicsWhenFull(size: nat, a: Admission, t: nat)
    requires size > LOGSIZE && Reachable(size, a) && t in a.ops
    ensures TooBig(size, a.n) <==> a.n == LOGSIZE
    ensures a.n == LOGSIZE ==> Unspent(a.ops) == 0 && !WantsToAdd(a, t)
  {
    ReachableInv(size, a);
    UnspentSplit(a.ops, t);
  }

  /** Because the test comes before absorption, that does happen: whatever the size of the region, some run
      panics on logging a block that is listed already (for a region of one block or none, on any block). */
  lemma RelogPanics(size: nat) returns (a: Admission, t: nat)
    ensures Reachable(size, a) && t in a.ops && t !in a.passed && TooBig(size, a.n) && (size >= 2 ==> a.n > 0)
    ensures size > LOGSIZE ==> a == Three(MAXOPBLOCKS, MAXOPBLOCKS, MAXOPBLOCKS)
  {
    if size > LOGSIZE {
      a, t := Three(MAXOPBLOCKS, MAXOPBLOCKS, MAXOPBLOCKS), 0;
    } else {
      a, t := Spread(if size == 0 then 0 else size - 1), 0;
    }
    ThreeReachable(size, a.ops[0], a.ops[1], a.ops[2]);
  }

  // ----- When the log slots stay in the region -----

  /** The slots of the transaction lie behind the header, inside a region of `size` blocks. */
  predicate SlotsFit(size: nat, n: nat) {
    n == 0 || n < size
  }

  // Two operations make the test with two blocks of the region left, and both add one.
  lemma Race(size: nat)
    requires 2 <= size <= LOGSIZE
    ensures exists a :: Reachable(size, a) && a.n == size
  {
    hide Reachable;
    var a := Spread(size - 2);
    ThreeReachable(size, a.ops[0], a.ops[1], a.ops[2]);
    ReachableThen(size, a, Check(1));
    var b := a.(passed := {1});
    ReachableThen(size, b, Check(2));
    var c := b.(passed := {1} + {2});
    ReachableThen(size, c, Add(1));
    var d := Do(size, c, Add(1));
    ReachableThen(size, d, Add(2));
    assert Do(size, d, Add(2)).n == size;
  }

  /** Every run lists fewer blocks than the log region has if and only if the region has more than LOGSIZE blocks,
      or too few for any transaction. With LOGSIZE blocks, as mkfs lays it out, two operations that make
      log_write's test together list one block more than there are slots. */
  lemma SlotsFitIff(size: nat)
    ensures (forall a :: Reachable(size, a) ==> SlotsFit(size, a.n)) <==> size > LOGSIZE || size < 2
  {
    if size > LOGSIZE {
      forall a | Reachable(size, a) ensures SlotsFit(size, a.n) {
        ReachableInv(size, a);
      }
    } else if size < 2 {
      forall a | Reachable(size, a) ensures SlotsFit(size, a.n) {
        var run :| Reaches(size, INIT, run, a);
        NoRoom(size, INIT, run, a);
      }
    } else {
      Race(size);
    }
  }

  lemma {:induction false} NoRoom(size: nat, a: Admission, run: seq<Step>, b: Admission)
    requires size < 2 && a.n == 0 && a.passed == {} && Reaches(size, a, run, b)
    ensures b.n == 0
    decreases |run|
  {
    if run != [] {
      NoRoom(size, Do(size, a, run[0]), run[1..], b);
    }
  }
}
