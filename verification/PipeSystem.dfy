module PipeSystem {
  // Any number of processes using one pipe, interleaved at every lock operation: pipewrite, piperead and
  // pipeclose of kernel/pipe.c with sleep, wakeup and kill of kernel/proc.c.
  //
  // A process holds its own p->lock exactly while it is in Doze1 or Doze2; wakeup and kill need the lock
  // of the process they look at.

  import opened Machine
  import opened Pipe

  /** &pi->nread and &pi->nwrite as sleep channels. */
  datatype Chan = NREAD | NWRITE

  datatype Op =
    | Write(src: seq<byte>, i: nat)
    | Read(n: nat, got: nat)
    | Close(writable: bool)

  datatype Pc =
    | Idle
    | Want(op: Op)                                      // acquire(&pi->lock)
    | Loop(op: Op)                                      // top of the loop (or pipeclose's body), lock held
    | Copy(n: nat, i: nat)                              // piperead's for loop, lock held
    | Wake(op: Op, chan: Chan, k: nat, sleeps: bool)    // inside wakeup(chan), at proc[k], lock held
    | Doze0(op: Op, chan: Chan)                         // sleep: before acquire(&p->lock), lock held
    | Doze1(op: Op, chan: Chan)                         // sleep: before release(lk), both locks held
    | Doze2(op: Op, chan: Chan)                         // sleep: before sched(), p->lock held
    | Asleep(op: Op, chan: Chan, woken: bool)           // SLEEPING, or RUNNABLE once woken

  /** struct pipe. `stored` and `removed` record every byte ever put into or taken out of the ring; `owed`
      that the holder of the lock has stored a byte since it took the lock. No step tests them. */
  datatype Shared = Shared(ring: Ring, readopen: bool, writeopen: bool, stored: seq<byte>, removed: seq<byte>,
                           owed: bool)

  /** `lock` is the holder of pi->lock, or |pcs| while it is free. */
  datatype State = State(sh: Shared, pcs: seq<Pc>, killed: seq<bool>, lock: nat)

  datatype Step =
    | Call(p: nat, op: Op)
    | Go(p: nat, fault: bool)         // the next step of p; a copyin or copyout in it fails on fault
    | Kill(p: nat)

  predicate HoldsLock(pc: Pc) {
    pc.Loop? || pc.Copy? || pc.Wake? || pc.Doze0? || pc.Doze1?
  }

  predicate HoldsOwnLock(pc: Pc) {
    pc.Doze1? || pc.Doze2?
  }

  // ----- What one process does to itself and to the pipe -----

  datatype Moved = Moved(sh: Shared, pc: Pc)

  function Write1(sh: Shared, op: Op, killed: bool, fault: bool): Moved
    requires op.Write? && |sh.ring.data| == PIPESIZE
  {
    if op.i >= |op.src| then Moved(sh, Wake(op, NREAD, 0, false))
    else if !sh.readopen || killed then Moved(sh, Idle)
    else if Full(sh.ring) then Moved(sh, Wake(op, NREAD, 0, true))
    else if fault then Moved(sh, Wake(op, NREAD, 0, false))
    else
      var ch := op.src[op.i];
      Moved(sh.(ring := Store(sh.ring, ch), stored := sh.stored + [ch], owed := true), Loop(Write(op.src, op.i + 1)))
  }

  function Read1(sh: Shared, op: Op, killed: bool): Moved
    requires op.Read?
  {
    if Empty(sh.ring) && sh.writeopen then Moved(sh, if killed then Idle else Doze0(op, NREAD))
    else Moved(sh, Copy(op.n, 0))
  }

  function Copy1(sh: Shared, n: nat, i: nat, fault: bool): Moved
    requires |sh.ring.data| == PIPESIZE
  {
    var done := Wake(Read(n, i), NWRITE, 0, false);
    if i >= n || Empty(sh.ring) then Moved(sh, done)
    else
      Moved(sh.(ring := Remove(sh.ring), removed := sh.removed + [Front(sh.ring)]),
            if fault then done else Copy(n, i + 1))
  }

  /** The next step of a process at `pc`, one of `procs` processes. */
  function Act(sh: Shared, pc: Pc, killed: bool, procs: nat, fault: bool): Moved
    requires |sh.ring.data| == PIPESIZE
  {
    match pc
    case Idle => Moved(sh, pc)
    case Want(op) => Moved(sh.(owed := false), Loop(op))
    case Loop(op) =>
      if op.Write? then Write1(sh, op, killed, fault)
      else if op.Read? then Read1(sh, op, killed)
      else if op.writable then Moved(sh.(writeopen := false), Wake(op, NREAD, 0, false))
      else Moved(sh.(readopen := false), Wake(op, NWRITE, 0, false))
    case Copy(n, i) => Copy1(sh, n, i, fault)
    case Wake(op, chan, k, sleeps) =>
      Moved(sh, if k < procs then Wake(op, chan, k + 1, sleeps) else if sleeps then Doze0(op, NWRITE) else Idle)
    case Doze0(op, chan) => Moved(sh, Doze1(op, chan))
    case Doze1(op, chan) => Moved(sh, Doze2(op, chan))
    case Doze2(op, chan) => Moved(sh, Asleep(op, chan, false))
    case Asleep(op, chan, _) => Moved(sh, Want(op))
  }

  // ----- The system -----

  predicate Enabled(s: State, st: Step) {
    && st.p < |s.pcs| == |s.killed| && |s.sh.ring.data| == PIPESIZE
    && match st
       case Call(p, op) => s.pcs[p].Idle? && (op.Write? ==> op.i == 0) && (op.Read? ==> op.got == 0)
       case Kill(p) => !HoldsOwnLock(s.pcs[p])
       case Go(p, _) => CanGo(s, s.pcs[p])
  }

  predicate CanGo(s: State, pc: Pc) {
    match pc
    case Idle => false
    case Want(_) => s.lock == |s.pcs|
    case Wake(_, _, k, _) => k < |s.pcs| ==> !HoldsOwnLock(s.pcs[k])
    case Asleep(_, _, woken) => woken
    case _ => true
  }

  /** What wakeup(chan) does to one process. */
  function Poke(pc: Pc, chan: Chan): Pc {
    if pc.Asleep? && pc.chan == chan then pc.(woken := true) else pc
  }

  /** The other processes while one of them takes a step at `pc`. */
  function Poked(pcs: seq<Pc>, pc: Pc): (r: seq<Pc>)
    ensures |r| == |pcs|
  {
    if pc.Wake? && pc.k < |pcs| then pcs[pc.k := Poke(pcs[pc.k], pc.chan)] else pcs
  }

  function Do(s: State, st: Step): State
    requires Enabled(s, st)
  {
    match st
    case Call(p, op) => s.(pcs := s.pcs[p := Want(op)])
    case Go(p, fault) =>
      var pc := s.pcs[p];
      var m := Act(s.sh, pc, s.killed[p], |s.pcs|, fault);
      State(m.sh, Poked(s.pcs, pc)[p := m.pc], s.killed,
            if HoldsLock(m.pc) then p else if HoldsLock(pc) then |s.pcs| else s.lock)
    case Kill(p) =>
      s.(killed := s.killed[p := true],
         pcs := s.pcs[p := if s.pcs[p].Asleep? then s.pcs[p].(woken := true) else s.pcs[p]])
  }

  // ----- Invariants -----

  ghost predicate LockAt(s: State, p: nat)
    requires p < |s.pcs|
  {
    HoldsLock(s.pcs[p]) <==> s.lock == p
  }

  /** First in, first out: what came out is the beginning of what went in, the rest is in the ring. */
  ghost predicate Fifo(sh: Shared) {
    Fine(sh.ring) && sh.stored == sh.removed + Queue(sh.ring)
  }

  /** A sleeper on this channel has nothing to do. */
  predicate Calm(sh: Shared, chan: Chan) {
    match chan
    case NREAD => Empty(sh.ring) && sh.writeopen
    case NWRITE => Full(sh.ring) && sh.readopen
  }

  /** In pipewrite's loop, with bytes stored that no wakeup has announced. */
  predicate Unannounced(sh: Shared, pc: Pc) {
    pc.Loop? && pc.op.Write? && sh.owed
  }

  /** What the holder of the lock knows. */
  ghost predicate PcOk(sh: Shared, pc: Pc) {
    && (pc.Wake? && pc.sleeps ==> Calm(sh, NWRITE))
    && (pc.Doze0? || pc.Doze1? ==> Calm(sh, pc.chan))
    && (Unannounced(sh, pc) ==> sh.readopen && !Empty(sh.ring))
  }

  /** A process at `pc` will not release pi->lock before it has run wakeup(chan) past process q. */
  predicate WillWake(sh: Shared, pc: Pc, killed: bool, chan: Chan, q: nat) {
    match pc
    case Wake(_, c, k, _) => c == chan && k <= q
    case Copy(_, _) => chan == NWRITE
    case Loop(op) => chan == NREAD && op.Write? && sh.owed && (op.i < |op.src| ==> !killed)
    case _ => false
  }

  predicate Waiting(pc: Pc) {
    pc.Doze2? || (pc.Asleep? && !pc.woken)
  }

  ghost predicate NoNeed(s: State, chan: Chan, q: nat)
    requires |s.pcs| == |s.killed|
  {
    Calm(s.sh, chan) || (s.lock < |s.pcs| && WillWake(s.sh, s.pcs[s.lock], s.killed[s.lock], chan, q))
  }

  /** With `benign`, the kills so far have spared writers with unannounced bytes and a reader waiting. */
  ghost predicate SleepOk(s: State, q: nat, benign: bool)
    requires q < |s.pcs| == |s.killed|
  {
    Waiting(s.pcs[q]) && (benign || s.pcs[q].chan == NWRITE) ==> NoNeed(s, s.pcs[q].chan, q)
  }

  ghost predicate AtOk(s: State, q: nat, benign: bool)
    requires q < |s.pcs| == |s.killed|
  {
    LockAt(s, q) && PcOk(s.sh, s.pcs[q]) && SleepOk(s, q, benign)
  }

  ghost predicate Inv(s: State, benign: bool) {
    && s.lock <= |s.pcs| == |s.killed| && Fifo(s.sh)
    && forall q :: 0 <= q < |s.pcs| ==> AtOk(s, q, benign)
  }

  /** About to sleep, or asleep, in piperead. */
  predicate ReaderWaits(pcs: seq<Pc>, q: nat) {
    q < |pcs| && Waiting(pcs[q]) && pcs[q].chan == NREAD
  }

  /** A kill that catches a writer between storing a byte and the end of its loop while a reader waits. */
  ghost predicate BadKill(s: State, st: Step)
    requires st.p < |s.pcs|
  {
    && st.Kill? && Unannounced(s.sh, s.pcs[st.p]) && s.pcs[st.p].op.i < |s.pcs[st.p].op.src|
    && exists q: nat :: ReaderWaits(s.pcs, q)
  }

  // ----- One process -----

  lemma ActFifo(sh: Shared, pc: Pc, killed: bool, procs: nat, fault: bool)
    requires Fifo(sh)
    ensures Fifo(Act(sh, pc, killed, procs, fault).sh)
  {
    hide Queue, Len;
    if pc.Loop? && pc.op.Write? && pc.op.i < |pc.op.src| && !Full(sh.ring) {
      StoreAppends(sh.ring, pc.op.src[pc.op.i]);
    } else if pc.Copy? && !Empty(sh.ring) {
      RemoveTakesFirst(sh.ring);
      assert sh.removed + [Front(sh.ring)] + Queue(Remove(sh.ring)) == sh.removed + Queue(sh.ring);
    }
  }

  lemma StoredNotEmpty(sh: Shared, ch: byte)
    requires Fifo(sh) && !Full(sh.ring)
    ensures !Empty(Store(sh.ring, ch))
  {
    hide Len, Full;
    StoreAppends(sh.ring, ch);
    LenAfter(sh.ring, ch);
    LenCases(Store(sh.ring, ch));
  }

  lemma ActOk(sh: Shared, pc: Pc, killed: bool, procs: nat, fault: bool)
    requires Fifo(sh) && PcOk(sh, pc)
    ensures var m := Act(sh, pc, killed, procs, fault); PcOk(m.sh, m.pc)
  {
    hide Full, Empty, Store, Fifo;
    if pc.Loop? && pc.op.Write? && pc.op.i < |pc.op.src| && !Full(sh.ring) {
      StoredNotEmpty(sh, pc.op.src[pc.op.i]);
    }
  }

  // No sleeper is forgotten: after a step of the lock holder there is still nothing for q to do, or q
  // still has its wakeup coming, or this step was its wakeup.
  lemma ActWakes(sh: Shared, pc: Pc, killed: bool, procs: nat, fault: bool, chan: Chan, q: nat)
    requires Fifo(sh) && PcOk(sh, pc) && HoldsLock(pc) && q < procs
    requires Calm(sh, chan) || WillWake(sh, pc, killed, chan, q)
    ensures var m := Act(sh, pc, killed, procs, fault);
            || Calm(m.sh, chan)
            || (HoldsLock(m.pc) && WillWake(m.sh, m.pc, killed, chan, q))
            || (pc.Wake? && pc.chan == chan && pc.k == q)
  {
    hide Full, Empty, Store, Remove, Fifo;
  }

  // A process that does not hold the lock leaves the pipe alone.
  lemma ActOutside(sh: Shared, pc: Pc, killed: bool, procs: nat, fault: bool)
    requires |sh.ring.data| == PIPESIZE && !HoldsLock(pc)
    ensures var m := Act(sh, pc, killed, procs, fault);
            && m.sh == (if pc.Want? then sh.(owed := false) else sh)
            && (HoldsLock(m.pc) <==> pc.Want?) && (Waiting(m.pc) ==> pc.Doze2? && m.pc.chan == pc.chan)
  {
  }

  lemma ActInside(sh: Shared, pc: Pc, killed: bool, procs: nat, fault: bool)
    requires |sh.ring.data| == PIPESIZE && HoldsLock(pc)
    ensures var m := Act(sh, pc, killed, procs, fault);
            Waiting(m.pc) ==> pc.Doze1? && m.pc.chan == pc.chan && m.sh == sh
  {
  }

  // ----- The system -----

  lemma GoLock(s: State, p: nat, fault: bool, q: nat)
    requires Enabled(s, Go(p, fault)) && q < |s.pcs| && LockAt(s, p) && LockAt(s, q)
    ensures q < |Do(s, Go(p, fault)).pcs| && LockAt(Do(s, Go(p, fault)), q)
  {
    hide Act;
    if !HoldsLock(s.pcs[p]) {
      ActOutside(s.sh, s.pcs[p], s.killed[p], |s.pcs|, fault);
    }
  }

  lemma GoPc(s: State, p: nat, fault: bool, benign: bool, q: nat)
    requires Fifo(s.sh) && Enabled(s, Go(p, fault)) && q < |s.pcs| && AtOk(s, p, benign) && AtOk(s, q, benign)
    ensures var s' := Do(s, Go(p, fault));
            q < |s'.pcs| && PcOk(s'.sh, s'.pcs[q])
  {
    hide Act, Fifo, SleepOk;
    if q == p {
      ActOk(s.sh, s.pcs[p], s.killed[p], |s.pcs|, fault);
    } else if !HoldsLock(s.pcs[p]) {
      ActOutside(s.sh, s.pcs[p], s.killed[p], |s.pcs|, fault);
    }
  }

  lemma GoSleepSelf(s: State, p: nat, fault: bool, benign: bool)
    requires Fifo(s.sh) && Enabled(s, Go(p, fault)) && AtOk(s, p, benign) && s.lock <= |s.pcs|
    ensures SleepOk(Do(s, Go(p, fault)), p, benign)
  {
    hide Act, Fifo, Calm;
    if HoldsLock(s.pcs[p]) {
      ActInside(s.sh, s.pcs[p], s.killed[p], |s.pcs|, fault);
    } else {
      ActOutside(s.sh, s.pcs[p], s.killed[p], |s.pcs|, fault);
    }
  }

  lemma GoSleepOther(s: State, p: nat, fault: bool, benign: bool, q: nat)
    requires Fifo(s.sh) && Enabled(s, Go(p, fault)) && q < |s.pcs| && q != p && AtOk(s, p, benign) && AtOk(s, q, benign)
    requires s.lock <= |s.pcs|
    ensures q < |Do(s, Go(p, fault)).pcs| && SleepOk(Do(s, Go(p, fault)), q, benign)
  {
    hide Act, Fifo, PcOk;
    if Waiting(s.pcs[q]) && (benign || s.pcs[q].chan == NWRITE) {
      if HoldsLock(s.pcs[p]) {
        ActWakes(s.sh, s.pcs[p], s.killed[p], |s.pcs|, fault, s.pcs[q].chan, q);
      } else {
        ActOutside(s.sh, s.pcs[p], s.killed[p], |s.pcs|, fault);
      }
    }
  }

  lemma OutsideKeeps(s: State, st: Step, benign: bool)
    requires Inv(s, benign) && Enabled(s, st) && !st.Go? && (benign ==> !BadKill(s, st))
    ensures Inv(Do(s, st), benign)
  {
    hide Fifo, Full, Empty;
    var s' := Do(s, st);
    assert AtOk(s, st.p, benign);
    forall q | 0 <= q < |s'.pcs| ensures AtOk(s', q, benign) {
      assert AtOk(s, q, benign);
      if Waiting(s.pcs[q]) && s.pcs[q].chan == NREAD { assert ReaderWaits(s.pcs, q); }
    }
  }

  lemma StepKeeps(s: State, st: Step, benign: bool)
    requires Inv(s, benign) && Enabled(s, st) && (benign ==> !BadKill(s, st))
    ensures Inv(Do(s, st), benign)
  {
    if !st.Go? {
      OutsideKeeps(s, st, benign);
    } else {
      hide Fifo, LockAt, PcOk, SleepOk, Act;
      var s', p, fault := Do(s, st), st.p, st.fault;
      assert AtOk(s, p, benign);
      ActFifo(s.sh, s.pcs[p], s.killed[p], |s.pcs|, fault);
      forall q | 0 <= q < |s'.pcs| ensures AtOk(s', q, benign) {
        assert AtOk(s, q, benign);
        GoLock(s, p, fault, q);
        GoPc(s, p, fault, benign, q);
        if q == p { GoSleepSelf(s, p, fault, benign); } else { GoSleepOther(s, p, fault, benign, q); }
      }
    }
  }

  // ----- Runs -----

  ghost predicate Start(s: State) {
    && |s.killed| == |s.pcs| == s.lock && s.sh == Shared(Ring(s.sh.ring.data, 0, 0), true, true, [], [], false)
    && |s.sh.ring.data| == PIPESIZE && (forall p :: 0 <= p < |s.pcs| ==> s.pcs[p].Idle?)
  }

  /** `run` leads from s to r. */
  ghost predicate Runs(s: State, run: seq<Step>, r: State)
    decreases |run|
  {
    if run == [] then r == s else Enabled(s, run[0]) && Runs(Do(s, run[0]), run[1..], r)
  }

  /** No kill of the run hits a writer with unannounced bytes while a reader waits. */
  ghost predicate Benign(s: State, run: seq<Step>)
    decreases |run|
  {
    run == [] || (Enabled(s, run[0]) && !BadKill(s, run[0]) && Benign(Do(s, run[0]), run[1..]))
  }

  lemma StartInv(s: State, benign: bool)
    requires Start(s)
    ensures Inv(s, benign)
  {
    assert Queue(s.sh.ring) == [];
  }

  lemma {:induction false} RunInv(s: State, run: seq<Step>, r: State, benign: bool)
    requires Inv(s, benign) && Runs(s, run, r) && (benign ==> Benign(s, run))
    ensures Inv(r, benign)
    decreases |run|
  {
    if run != [] {
      StepKeeps(s, run[0], benign);
      RunInv(Do(s, run[0]), run[1..], r, benign);
    }
  }

  /** In every run, kills included: bytes come out in the order they went in, and at most PIPESIZE are in
      the pipe, although the counters wrap. */
  lemma InOrder(s: State, run: seq<Step>, r: State)
    requires Start(s) && Runs(s, run, r)
    ensures r.sh.removed <= r.sh.stored && |r.sh.stored| - |r.sh.removed| == Len(r.sh.ring) <= PIPESIZE
  {
    StartInv(s, false);
    RunInv(s, run, r, false);
  }

  ghost predicate SleepsOn(s: State, p: nat, chan: Chan) {
    p < |s.pcs| && s.pcs[p].Asleep? && !s.pcs[p].woken && s.pcs[p].chan == chan
  }

  /** In every run, kills included: while pi->lock is free, no writer sleeps with room in the pipe or with
      the read end closed. */
  lemma NoSleepingWriter(s: State, run: seq<Step>, r: State, p: nat)
    requires Start(s) && Runs(s, run, r) && r.lock == |r.pcs| && SleepsOn(r, p, NWRITE)
    ensures Len(r.sh.ring) == PIPESIZE && r.sh.readopen
  {
    hide Queue, Len;
    StartInv(s, false);
    RunInv(s, run, r, false);
    assert AtOk(r, p, false);
    LenCases(r.sh.ring);
  }

  /** While pi->lock is free, no reader sleeps with data waiting or with the write end closed, provided no
      kill of the run hit a writer between storing a byte and the end of its loop while a reader waited. */
  lemma NoSleepingReader(s: State, run: seq<Step>, r: State, p: nat)
    requires Start(s) && Runs(s, run, r) && Benign(s, run) && r.lock == |r.pcs| && SleepsOn(r, p, NREAD)
    ensures Len(r.sh.ring) == 0 && r.sh.writeopen
  {
    hide Queue, Len;
    StartInv(s, true);
    RunInv(s, run, r, true);
    assert AtOk(r, p, true);
    LenCases(r.sh.ring);
  }

  /** One step of p, if it has committed to sleep and is not yet asleep. */
  function Settled(s: State, p: nat): State {
    if p < |s.pcs| && s.pcs[p].Doze2? && Enabled(s, Go(p, false)) then Do(s, Go(p, false)) else s
  }

  /** The proviso is exact: whatever run led here, any such kill can leave every waiting reader asleep with
      data waiting and pi->lock free. */
  lemma BadKillLosesWakeup(s: State, run: seq<Step>, b: State, w: nat, r: nat)
    requires Start(s) && Runs(s, run, b) && w < |b.pcs| && BadKill(b, Kill(w)) && ReaderWaits(b.pcs, r)
    ensures Enabled(b, Kill(w)) && Enabled(Do(b, Kill(w)), Go(w, false))
    ensures var t := Settled(Do(Do(b, Kill(w)), Go(w, false)), r);
            t.lock == |t.pcs| && SleepsOn(t, r, NREAD) && Len(t.sh.ring) > 0
  {
    hide Queue, Len;
    StartInv(s, false);
    RunInv(s, run, b, false);
    assert AtOk(b, w, false) && AtOk(b, r, false);
    LenCases(b.sh.ring);
  }

  lemma {:induction false} RunThen(s: State, run: seq<Step>, r: State, st: Step)
    requires Runs(s, run, r) && Enabled(r, st)
    ensures Runs(s, run + [st], Do(r, st))
    decreases |run|
  {
    if run == [] {
      assert Runs(Do(s, st), [], Do(r, st));
    } else {
      RunThen(Do(s, run[0]), run[1..], r, st);
      assert (run + [st])[1..] == run[1..] + [st];
    }
  }

  // A reader of an empty pipe falls asleep in five steps.
  lemma ReaderSleeps(s: State) returns (run: seq<Step>, r: State)
    requires Start(s) && |s.pcs| == 2 && s.killed == [false, false]
    ensures Runs(s, run, r) && r == s.(pcs := [Asleep(Read(1, 0), NREAD, false), Idle])
  {
    run, r := [], s;
    var steps := [Call(0, Read(1, 0)), Go(0, false), Go(0, false), Go(0, false), Go(0, false), Go(0, false)];
    var pcs := [Idle, Want(Read(1, 0)), Loop(Read(1, 0)), Doze0(Read(1, 0), NREAD), Doze1(Read(1, 0), NREAD),
                Doze2(Read(1, 0), NREAD),
                Asleep(Read(1, 0), NREAD, false)];
    for j := 0 to 6
      invariant Runs(s, run, r) && r == State(s.sh, [pcs[j], Idle], s.killed, if 2 <= j <= 4 then 0 else 2)
    {
      RunThen(s, run, r, steps[j]);
      run, r := run + [steps[j]], Do(r, steps[j]);
      assert r.pcs == [pcs[j + 1], Idle];
    }
    assert s.pcs == [Idle, Idle];
  }

  /** Such a run exists: a reader sleeps, a writer stores one byte of two, is killed, and gives up. */
  lemma LostWakeup(data: seq<byte>) returns (s: State, run: seq<Step>, r: State)
    requires |data| == PIPESIZE
    ensures Start(s) && Runs(s, run, r) && r.lock == |r.pcs| && SleepsOn(r, 0, NREAD) && Len(r.sh.ring) > 0
  {
    hide Queue, Len;
    s := State(Shared(Ring(data, 0, 0), true, true, [], [], false), [Idle, Idle], [false, false], 2);
    run, r := ReaderSleeps(s);
    var steps := [Call(1, Write([7, 8], 0)), Go(1, false), Go(1, false)];
    var pcs := [Idle, Want(Write([7, 8], 0)), Loop(Write([7, 8], 0)), Loop(Write([7, 8], 1))];
    for j := 0 to 3
      invariant Runs(s, run, r) && r.pcs == [Asleep(Read(1, 0), NREAD, false), pcs[j]] && r.killed == s.killed
      invariant r.sh == if j < 3 then s.sh else s.sh.(ring := Store(s.sh.ring, 7), stored := [7], owed := true)
      invariant r.lock == if j < 2 then 2 else 1
    {
      RunThen(s, run, r, steps[j]);
      run, r := run + [steps[j]], Do(r, steps[j]);
    }
    assert ReaderWaits(r.pcs, 0);
    BadKillLosesWakeup(s, run, r, 1, 0);
    RunThen(s, run, r, Kill(1));
    RunThen(s, run + [Kill(1)], Do(r, Kill(1)), Go(1, false));
    run, r := run + [Kill(1)] + [Go(1, false)], Do(Do(r, Kill(1)), Go(1, false));
  }
}
