module Proc {
  // kernel/proc.c: fork, exit, wait, reparent, sleep, wakeup, kill, yield and the scheduler, interleaved at
  // every lock operation over any number of processes and CPUs.
  //
  // A step is what a thread does between two lock operations. The fields st, chan, killed and pc of a
  // process change only under its p->lock; parent is also read without it, as wait and reparent do.

  import opened Machine

  datatype PState = UNUSED | SLEEPING | RUNNABLE | RUNNING | ZOMBIE

  /** Self is the process's own address, the channel of wait(). */
  datatype Chan = NoChan | Self | Other(x: nat)

  /** Who holds a p->lock: a process's thread, or a scheduler right after swtch. */
  datatype Holder = Nobody | Thread(t: nat) | Cpu(c: nat)

  /** Where a thread continues after sched(): yield and sleep, wait's loop, exit's two stretches without a lock,
      or nowhere. */
  datatype After = ToUser | ToWait | ToExit1 | ToExit2(op: nat) | Never

  datatype Pc =
    | Gone                                // no thread
    | User                                // anywhere outside these functions
    | InSched(k: After)                   // about to swtch, own lock held
    | Off(k: After)                       // not on a CPU
    | Resumed(k: After)                   // back from sched(), own lock held
    | Scan(j: nat, kids: bool)            // wait: at proc[j], own lock held
    | ScanLock(j: nat, kids: bool)        // wait: proc[j] is a child, before acquire(&np->lock)
    | ScanHave(j: nat, kids: bool)        // wait: holding the child's lock too
    | Fork1(np: nat)                      // fork: holding np->lock
    | Fork2(np: nat)                      // fork: np->parent set
    | Exit1                               // exit: init woken
    | Exit2(op: nat)                      // exit: original_parent read
    | Exit3(op: nat)                      // exit: holding original_parent->lock
    | Give(op: nat, j: nat)               // reparent: at proc[j], own lock and original_parent's held
    | GiveLock(op: nat, j: nat)           // reparent: proc[j] is a child, before acquire(&pp->lock)
    | Exit6(op: nat)                      // exit: reparent done

  /** `on` is the CPU the thread runs on, or the number of CPUs. `parent` is the number of processes for none.
      History, which no step tests: `exits` and `reaps` count what happened to the slot, and `kid` is the child
      that wait() last found not exited. */
  datatype Proc = Proc(st: PState, parent: nat, chan: Chan, killed: bool, lock: Holder, pc: Pc, on: nat,
                       exits: nat, reaps: nat, kid: nat)

  datatype CpuPc = Idle | Hosts(i: nat) | Back(i: nat)

  datatype State = State(procs: seq<Proc>, cpus: seq<CpuPc>, init: nat)

  /** What a thread outside these functions may call, and how a copyout or an allocation in one turns out. */
  datatype Choice =
    | Fails | Succeeds
    | DoYield | DoSleep(x: nat) | DoWait | DoExit
    | DoFork(np: nat) | DoKill(q: nat) | DoWake(q: nat, x: nat)

  datatype Step =
    | Go(p: nat, ch: Choice)
    | Swtch(p: nat)                       // sched: off to the scheduler of this CPU
    | Release(c: nat)                     // scheduler: back from p, lets go of its lock
    | Dispatch(c: nat, p: nat)            // scheduler: acquire, RUNNING, swtch

  // ----- One thread's step -----

  /** The other process a step of thread i looks at or changes, i itself if none. */
  function Target(i: nat, pc: Pc, n: nat, init: nat, ch: Choice): nat {
    match pc
    case User =>
      (match ch case DoExit => init case DoFork(np) => np case DoKill(q) => q case DoWake(q, _) => q case _ => i)
    case Scan(j, _) => if j < n then j else i
    case ScanLock(j, _) => j
    case ScanHave(j, _) => j
    case Fork1(np) => np
    case Fork2(np) => np
    case Exit2(op) => if ch == DoYield then i else op
    case Give(_, j) => if j < n then j else i
    case GiveLock(_, j) => j
    case Exit6(op) => op
    case _ => i
  }

  predicate CanAct(i: nat, me: Proc, x: nat, it: Proc, init: nat, ch: Choice) {
    match me.pc
    case User =>
      (match ch
       case DoYield => me.lock == Nobody
       case DoSleep(_) => me.lock == Nobody
       case DoWait => me.lock == Nobody
       case DoExit => i != init && it.lock == Nobody
       case DoFork(np) => it.lock == Nobody && it.st == UNUSED
       case DoKill(_) => it.lock == Nobody
       case DoWake(_, _) => it.lock == Nobody
       case _ => false)
    case ScanLock(_, _) => it.lock == Nobody
    case Exit1 => me.lock == Nobody
    case Exit2(_) => it.lock == Nobody      // the process's own if the timer makes it yield
    case Exit3(_) => me.lock == Nobody
    case GiveLock(_, _) => it.lock == Nobody
    case Gone => false
    case InSched(_) => false
    case Off(_) => false
    case _ => true
  }

  function Woken(p: Proc, chan: Chan): Proc {
    if p.st == SLEEPING && p.chan == chan then p.(st := RUNNABLE) else p
  }

  /** freeproc */
  function Freed(p: Proc, n: nat): Proc {
    p.(st := UNUSED, parent := n, chan := NoChan, killed := false, pc := Gone, reaps := p.reaps + 1)
  }

  datatype Two = Two(me: Proc, it: Proc)

  function Call(i: nat, me: Proc, it: Proc, ch: Choice): Two {
    match ch
    case DoYield => Two(me.(lock := Thread(i), st := RUNNABLE, pc := InSched(ToUser)), it)
    case DoSleep(x) => Two(me.(lock := Thread(i), st := SLEEPING, chan := Other(x), pc := InSched(ToUser)), it)
    case DoWait => Two(me.(lock := Thread(i), pc := Scan(0, false)), it)
    case DoExit => Two(me.(pc := Exit1), Woken(it, Self))
    case DoFork(np) => Two(me.(pc := Fork1(np)), it.(lock := Thread(i)))
    case DoKill(q) =>
      if q == i then Two(me.(killed := true), it)
      else Two(me, it.(killed := true, st := if it.st == SLEEPING then RUNNABLE else it.st))
    case DoWake(q, x) => Two(me, Woken(it, Other(x)))
    case _ => Two(me, it)
  }

  function Wait(i: nat, me: Proc, it: Proc, n: nat, ch: Choice): Two {
    match me.pc
    case Scan(j, kids) =>
      if j < n then Two(me.(pc := if it.parent == i then ScanLock(j, kids) else Scan(j + 1, kids)), it)
      else if !kids || me.killed then Two(me.(lock := Nobody, pc := User), it)
      else Two(me.(chan := Self, st := SLEEPING, pc := InSched(ToWait)), it)
    case ScanLock(j, kids) => Two(me.(pc := ScanHave(j, kids)), it.(lock := Thread(i)))
    case ScanHave(j, kids) =>
      if it.st != ZOMBIE then Two(me.(pc := Scan(j + 1, true), kid := j), it.(lock := Nobody))
      else if ch == Fails then Two(me.(lock := Nobody, pc := User), it.(lock := Nobody))
      else Two(me.(lock := Nobody, pc := User), Freed(it, n).(lock := Nobody))
    case _ => Two(me, it)
  }

  function Exit(i: nat, me: Proc, it: Proc, n: nat, init: nat, ch: Choice): Two {
    match me.pc
    case Exit1 =>
      if ch == DoYield then Two(me.(lock := Thread(i), st := RUNNABLE, pc := InSched(ToExit1)), it)
      else Two(me.(pc := Exit2(me.parent)), it)
    case Exit2(op) =>
      if ch == DoYield then Two(me.(lock := Thread(i), st := RUNNABLE, pc := InSched(ToExit2(op))), it)
      else Two(me.(pc := Exit3(op)), it.(lock := Thread(i)))
    case Exit3(op) => Two(me.(lock := Thread(i), pc := Give(op, 0)), it)
    case Give(op, j) =>
      Two(me.(pc := if j >= n then Exit6(op) else if it.parent == i then GiveLock(op, j) else Give(op, j + 1)), it)
    case GiveLock(op, j) => Two(me.(pc := Give(op, j + 1)), it.(parent := init))
    case Exit6(op) =>
      Two(me.(st := ZOMBIE, pc := InSched(Never), exits := me.exits + 1), Woken(it, Self).(lock := Nobody))
    case _ => Two(me, it)
  }

  function Act(i: nat, me: Proc, it: Proc, n: nat, init: nat, ch: Choice): Two {
    match me.pc
    case User => Call(i, me, it, ch)
    case Resumed(k) =>
      Two((match k
           case ToWait => me.(chan := NoChan, pc := Scan(0, false))
           case ToExit1 => me.(chan := NoChan, lock := Nobody, pc := Exit1)
           case ToExit2(op) => me.(chan := NoChan, lock := Nobody, pc := Exit2(op))
           case _ => me.(chan := NoChan, lock := Nobody, pc := User)), it)
    case Fork1(np) =>
      if ch == Fails then Two(me.(pc := User), it.(lock := Nobody)) else Two(me.(pc := Fork2(np)), it.(parent := i))
    case Fork2(np) => Two(me.(pc := User), it.(st := RUNNABLE, lock := Nobody, pc := Off(ToUser)))
    case Scan(_, _) => Wait(i, me, it, n, ch)
    case ScanLock(_, _) => Wait(i, me, it, n, ch)
    case ScanHave(_, _) => Wait(i, me, it, n, ch)
    case _ => Exit(i, me, it, n, init, ch)
  }

  // ----- The system -----

  predicate Enabled(s: State, st: Step) {
    match st
    case Go(p, ch) =>
      && p < |s.procs|
      && var x := Target(p, s.procs[p].pc, |s.procs|, s.init, ch);
         x < |s.procs| && CanAct(p, s.procs[p], x, s.procs[x], s.init, ch)
    case Swtch(p) => p < |s.procs| && s.procs[p].pc.InSched? && s.procs[p].on < |s.cpus|
    case Release(c) => c < |s.cpus| && s.cpus[c].Back? && s.cpus[c].i < |s.procs|
    case Dispatch(c, p) =>
      && c < |s.cpus| && s.cpus[c].Idle? && p < |s.procs|
      && s.procs[p].lock == Nobody && s.procs[p].st == RUNNABLE && s.procs[p].pc.Off?
  }

  function Do(s: State, st: Step): State
    requires Enabled(s, st)
  {
    match st
    case Go(p, ch) =>
      var x := Target(p, s.procs[p].pc, |s.procs|, s.init, ch);
      var r := Act(p, s.procs[p], s.procs[x], |s.procs|, s.init, ch);
      s.(procs := s.procs[x := r.it][p := r.me])
    case Swtch(p) =>
      var c := s.procs[p].on;
      State(s.procs[p := s.procs[p].(pc := Off(s.procs[p].pc.k), on := |s.cpus|, lock := Cpu(c))], s.cpus[c := Back(p)],
            s.init)
    case Release(c) =>
      var i := s.cpus[c].i;
      State(s.procs[i := s.procs[i].(lock := Nobody)], s.cpus[c := Idle], s.init)
    case Dispatch(c, p) =>
      State(s.procs[p := s.procs[p].(st := RUNNING, lock := Thread(p), pc := Resumed(s.procs[p].pc.k), on := c)],
            s.cpus[c := Hosts(p)], s.init)
  }

  // ----- Invariants -----

  predicate Executing(pc: Pc) {
    !pc.Gone? && !pc.Off?
  }

  /** Not UNUSED and not exited. */
  predicate Live(a: Proc) {
    a.st != UNUSED && a.st != ZOMBIE
  }

  /** The process locks thread i holds. */
  predicate Locks(i: nat, pc: Pc, j: nat) {
    match pc
    case InSched(_) => j == i
    case Resumed(_) => j == i
    case Scan(_, _) => j == i
    case ScanLock(_, _) => j == i
    case ScanHave(k, _) => j == i || j == k
    case Fork1(np) => j == np
    case Fork2(np) => j == np
    case Exit3(op) => j == op
    case Give(op, _) => j == i || j == op
    case GiveLock(op, _) => j == i || j == op
    case Exit6(op) => j == i || j == op
    case _ => false
  }

  predicate Exiting(pc: Pc) {
    pc.Exit1? || pc.Exit2? || pc.Exit3? || pc.Give? || pc.GiveLock? || pc.Exit6?
  }

  /** The parent that a process inside exit() has read, if it has got so far. */
  function ReadParent(pc: Pc): Option<nat> {
    match pc
    case Exit2(op) => Some(op)
    case Exit3(op) => Some(op)
    case Give(op, _) => Some(op)
    case GiveLock(op, _) => Some(op)
    case Exit6(op) => Some(op)
    case InSched(ToExit2(op)) => Some(op)
    case Off(ToExit2(op)) => Some(op)
    case Resumed(ToExit2(op)) => Some(op)
    case _ => None
  }

  /** Inside exit(), on a CPU or not, but not yet a zombie. */
  predicate Leaving(pc: Pc) {
    Exiting(pc) || ((pc.InSched? || pc.Off? || pc.Resumed?) && (pc.k.ToExit1? || pc.k.ToExit2?))
  }

  /** What holds of process i by itself. `but` is the process whose missed wakeups are not ruled out: init, or
      none in a run where init misses no exit. */
  ghost predicate SelfOk(i: nat, a: Proc, n: nat, ncpu: nat, init: nat, but: nat) {
    && (match a.pc
        case Gone => a.st == UNUSED && a.chan == NoChan
        case InSched(k) => if k == Never then a.st == ZOMBIE else (a.st == SLEEPING || a.st == RUNNABLE)
        case Off(k) => if k == Never then a.st == ZOMBIE else (a.st == SLEEPING || a.st == RUNNABLE)
        case Resumed(k) => k != Never && a.st == RUNNING
        case _ => a.st == RUNNING)
    && (a.chan == Self ==> (a.pc.InSched? || a.pc.Off? || a.pc.Resumed?) && a.pc.k == ToWait)
    && (Executing(a.pc) <==> a.on < ncpu)
    && a.parent <= n && a.parent != i
    && (i == init ==> a.parent == n && Live(a) && !Leaving(a.pc))
    && (i != init && !a.pc.Gone? ==> a.parent < n)
    && (ReadParent(a.pc).Some? ==>
          var op := ReadParent(a.pc).value;
          op < n && op != i && (a.parent == op || a.parent == init))
    && (Expecting(a) ==> a.kid < n)
    && a.exits == a.reaps + (if a.st == ZOMBIE then 1 else 0)
  }

  /** Thread i has passed process j in reparent's loop. */
  predicate GivenAway(pc: Pc, j: nat) {
    pc.Exit6? || (pc.Give? && j < pc.j) || (pc.GiveLock? && j < pc.j) || (pc.InSched? && pc.k == Never) ||
      (pc.Off? && pc.k == Never)
  }

  /** Thread i has found that j is its child. */
  predicate Found(pc: Pc, j: nat) {
    || (pc.ScanLock? && pc.j == j) || (pc.ScanHave? && pc.j == j) || (pc.GiveLock? && pc.j == j) ||
      (pc.Fork2? && pc.np == j)
  }

  /** Process i is past j in wait's scan, or asleep after it. */
  predicate LookedAt(a: Proc, j: nat) {
    || (a.pc.Scan? && j < a.pc.j) || (a.pc.ScanLock? && j < a.pc.j) || (a.pc.ScanHave? && j < a.pc.j)
    || (a.st == SLEEPING && a.chan == Self)
  }

  /** Process i is past j in a scan that has found no child. */
  predicate NoneUpTo(pc: Pc, j: nat) {
    (pc.Scan? || pc.ScanLock? || pc.ScanHave?) && !pc.kids && j < pc.j
  }

  /** Process i is in wait() and has found a child that had not exited. */
  predicate Expecting(a: Proc) {
    || ((a.pc.Scan? || a.pc.ScanLock? || a.pc.ScanHave?) && a.pc.kids)
    || ((a.pc.InSched? || a.pc.Off?) && a.pc.k == ToWait)
  }

  /** What holds between process i and process j. */
  ghost predicate PairOk(i: nat, a: Proc, j: nat, b: Proc, init: nat, but: nat) {
    && (Locks(i, a.pc, j) <==> b.lock == Thread(i))
    && (b.parent == i ==> Live(a) && !GivenAway(a.pc, j))
    && (Found(a.pc, j) ==> b.parent == i)
    && ((a.pc.Fork1? || a.pc.Fork2?) && a.pc.np == j ==> b.pc.Gone?)
    && (b.pc.Gone? && b.parent == i ==> a.pc == Fork2(j))
    && (i != init && NoneUpTo(a.pc, j) ==> b.parent != i)
    && (Expecting(a) && j == a.kid ==> b.parent == i)
    && (i != but && LookedAt(a, j) && b.parent == i ==>
          b.st != ZOMBIE || (i == init && a.lock.Thread? && a.lock.t != i))   // whoever holds init's lock will wake it
  }

  ghost predicate CpuOk(c: nat, cpu: CpuPc, i: nat, a: Proc) {
    (cpu == Hosts(i) <==> a.on == c) && (cpu == Back(i) <==> a.lock == Cpu(c))
  }

  ghost predicate Inv(s: State, but: nat) {
    && s.init < |s.procs| && (but == s.init || but == |s.procs|)
    && (forall i :: 0 <= i < |s.procs| ==> SelfOk(i, s.procs[i], |s.procs|, |s.cpus|, s.init, but))
    && (forall i, j {:trigger s.procs[i], s.procs[j]} :: 0 <= i < |s.procs| && 0 <= j < |s.procs| ==>
        PairOk(i, s.procs[i], j, s.procs[j], s.init, but))
    && (forall c, i {:trigger s.cpus[c], s.procs[i]} :: 0 <= c < |s.cpus| && 0 <= i < |s.procs| ==>
        CpuOk(c, s.cpus[c], i, s.procs[i]))
  }

  /** A step of process i, whose other process is x, that leaves init with an exited child it has looked at:
      reparent gives it one that has exited, or one that was given to it in the middle of exit() exits; and the
      process that i wakes or will wake is not init. */
  predicate Missed(i: nat, me: Proc, x: nat, it: Proc, init: nat, initProc: Proc) {
    match me.pc
    case GiveLock(op, _) => op != init && it.st == ZOMBIE && LookedAt(initProc, x)
    case Exit6(op) => op != init && me.parent == init && LookedAt(initProc, i)
    case _ => false
  }

  predicate InitMisses(s: State, st: Step) {
    && st.Go? && Enabled(s, st) && s.init < |s.procs|
    && var x := Target(st.p, s.procs[st.p].pc, |s.procs|, s.init, st.ch);
       Missed(st.p, s.procs[st.p], x, s.procs[x], s.init, s.procs[s.init])
  }

  // ----- Every step keeps the invariant -----

  /** Everything the invariant says about processes i and j. */
  ghost predicate Both(i: nat, a: Proc, j: nat, b: Proc, n: nat, ncpu: nat, init: nat, but: nat) {
    && SelfOk(i, a, n, ncpu, init, but) && SelfOk(j, b, n, ncpu, init, but)
    && PairOk(i, a, i, a, init, but) && PairOk(j, b, j, b, init, but) && PairOk(i, a, j, b, init, but) &&
      PairOk(j, b, i, a, init, but)
    && i < n && j < n && init < n
  }

  predicate InWait(pc: Pc) {
    pc.Scan? || pc.ScanLock? || pc.ScanHave?
  }

  /** A thread's step leaves CPUs alone and takes no lock from a scheduler nor gives it one. */
  predicate AmongThreads(a: Proc, a': Proc) {
    a'.on == a.on && (a'.lock == a.lock || (!a.lock.Cpu? && !a'.lock.Cpu?))
  }

  /** Thread i can take a step that may also change process x. */
  ghost predicate Ready(i: nat, me: Proc, x: nat, it: Proc, n: nat, ncpu: nat, init: nat, but: nat, ch: Choice) {
    && Both(i, me, x, it, n, ncpu, init, but) && x == Target(i, me.pc, n, init, ch) && CanAct(i, me, x, it, init, ch)
    && (x == i ==> it == me) && (but == init || but == n)
  }

  lemma CallSelf(i: nat, me: Proc, x: nat, it: Proc, n: nat, ncpu: nat, init: nat, but: nat, ch: Choice)
    requires Ready(i, me, x, it, n, ncpu, init, but, ch) && me.pc.User?
    ensures var r := Call(i, me, it, ch);
            && SelfOk(i, r.me, n, ncpu, init, but) && AmongThreads(me, r.me)
            && (x != i ==> SelfOk(x, r.it, n, ncpu, init, but) && AmongThreads(it, r.it))
  {
    hide GivenAway, LookedAt;
  }

  lemma CallPair(i: nat, me: Proc, x: nat, it: Proc, n: nat, ncpu: nat, init: nat, but: nat, ch: Choice)
    requires Ready(i, me, x, it, n, ncpu, init, but, ch) && me.pc.User?
    ensures var r := Call(i, me, it, ch);
            PairOk(i, r.me, i, r.me, init, but) &&
              (x != i ==>
               PairOk(i, r.me, x, r.it, init, but) && PairOk(x, r.it, i, r.me, init, but) &&
                 PairOk(x, r.it, x, r.it, init, but))
  {
  }

  lemma CallMine(i: nat, me: Proc, x: nat, it: Proc, n: nat, ncpu: nat, init: nat, but: nat, ch: Choice, j: nat,
                 b: Proc)
    requires Ready(i, me, x, it, n, ncpu, init, but, ch) && me.pc.User?
    requires j != i && j != x && Both(i, me, j, b, n, ncpu, init, but)
    ensures var r := Call(i, me, it, ch); PairOk(i, r.me, j, b, init, but) && PairOk(j, b, i, r.me, init, but)
  {
  }

  lemma CallIts(i: nat, me: Proc, x: nat, it: Proc, n: nat, ncpu: nat, init: nat, but: nat, ch: Choice, j: nat, b: Proc)
    requires Ready(i, me, x, it, n, ncpu, init, but, ch) && me.pc.User?
    requires j != i && j != x && x != i && Both(x, it, j, b, n, ncpu, init, but)
    requires Both(i, me, j, b, n, ncpu, init, but)
    ensures var r := Call(i, me, it, ch); PairOk(x, r.it, j, b, init, but) && PairOk(j, b, x, r.it, init, but)
  {
  }

  lemma ScanSelf(i: nat, me: Proc, x: nat, it: Proc, n: nat, ncpu: nat, init: nat, but: nat, ch: Choice)
    requires Ready(i, me, x, it, n, ncpu, init, but, ch) && me.pc.Scan?
    ensures var r := Wait(i, me, it, n, ch);
            && SelfOk(i, r.me, n, ncpu, init, but) && AmongThreads(me, r.me)
            && (x != i ==> SelfOk(x, r.it, n, ncpu, init, but) && AmongThreads(it, r.it))
  {
    hide GivenAway, LookedAt;
  }

  lemma ScanOneSelf(i: nat, me: Proc, x: nat, it: Proc, n: nat, ncpu: nat, init: nat, but: nat, ch: Choice)
    requires Ready(i, me, x, it, n, ncpu, init, but, ch) && (me.pc.ScanLock? || me.pc.ScanHave?)
    ensures var r := Wait(i, me, it, n, ch);
            && SelfOk(i, r.me, n, ncpu, init, but) && AmongThreads(me, r.me)
            && (x != i ==> SelfOk(x, r.it, n, ncpu, init, but) && AmongThreads(it, r.it))
  {
    hide GivenAway, LookedAt;
  }

  lemma WaitSelf(i: nat, me: Proc, x: nat, it: Proc, n: nat, ncpu: nat, init: nat, but: nat, ch: Choice)
    requires Ready(i, me, x, it, n, ncpu, init, but, ch) && InWait(me.pc)
    ensures var r := Wait(i, me, it, n, ch);
            && SelfOk(i, r.me, n, ncpu, init, but) && AmongThreads(me, r.me)
            && (x != i ==> SelfOk(x, r.it, n, ncpu, init, but) && AmongThreads(it, r.it))
  {
    hide Ready, Wait, SelfOk, PairOk, Both, AmongThreads;
    if me.pc.Scan? {
      ScanSelf(i, me, x, it, n, ncpu, init, but, ch);
    } else {
      ScanOneSelf(i, me, x, it, n, ncpu, init, but, ch);
    }
  }

  lemma ScanPair(i: nat, me: Proc, x: nat, it: Proc, n: nat, ncpu: nat, init: nat, but: nat, ch: Choice)
    requires Ready(i, me, x, it, n, ncpu, init, but, ch) && me.pc.Scan?
    ensures var r := Wait(i, me, it, n, ch);
            PairOk(i, r.me, i, r.me, init, but) &&
              (x != i ==>
               PairOk(i, r.me, x, r.it, init, but) && PairOk(x, r.it, i, r.me, init, but) &&
                 PairOk(x, r.it, x, r.it, init, but))
  {
  }

  lemma ScanOnePair(i: nat, me: Proc, x: nat, it: Proc, n: nat, ncpu: nat, init: nat, but: nat, ch: Choice)
    requires Ready(i, me, x, it, n, ncpu, init, but, ch) && (me.pc.ScanLock? || me.pc.ScanHave?)
    ensures var r := Wait(i, me, it, n, ch);
            PairOk(i, r.me, i, r.me, init, but) &&
              (x != i ==>
               PairOk(i, r.me, x, r.it, init, but) && PairOk(x, r.it, i, r.me, init, but) &&
                 PairOk(x, r.it, x, r.it, init, but))
  {
  }

  lemma WaitPair(i: nat, me: Proc, x: nat, it: Proc, n: nat, ncpu: nat, init: nat, but: nat, ch: Choice)
    requires Ready(i, me, x, it, n, ncpu, init, but, ch) && InWait(me.pc)
    ensures var r := Wait(i, me, it, n, ch);
            PairOk(i, r.me, i, r.me, init, but) &&
              (x != i ==>
               PairOk(i, r.me, x, r.it, init, but) && PairOk(x, r.it, i, r.me, init, but) &&
                 PairOk(x, r.it, x, r.it, init, but))
  {
    hide Ready, Wait, SelfOk, PairOk, Both, AmongThreads;
    if me.pc.Scan? {
      ScanPair(i, me, x, it, n, ncpu, init, but, ch);
    } else {
      ScanOnePair(i, me, x, it, n, ncpu, init, but, ch);
    }
  }

  lemma ScanMine(i: nat, me: Proc, x: nat, it: Proc, n: nat, ncpu: nat, init: nat, but: nat, ch: Choice, j: nat,
                 b: Proc)
    requires Ready(i, me, x, it, n, ncpu, init, but, ch) && me.pc.Scan?
    requires j != i && j != x && Both(i, me, j, b, n, ncpu, init, but)
    ensures var r := Wait(i, me, it, n, ch); PairOk(i, r.me, j, b, init, but) && PairOk(j, b, i, r.me, init, but)
  {
  }

  lemma ScanOneMine(i: nat, me: Proc, x: nat, it: Proc, n: nat, ncpu: nat, init: nat, but: nat, ch: Choice, j: nat,
                    b: Proc)
    requires Ready(i, me, x, it, n, ncpu, init, but, ch) && (me.pc.ScanLock? || me.pc.ScanHave?)
    requires j != i && j != x && Both(i, me, j, b, n, ncpu, init, but)
    ensures var r := Wait(i, me, it, n, ch); PairOk(i, r.me, j, b, init, but) && PairOk(j, b, i, r.me, init, but)
  {
  }

  lemma WaitMine(i: nat, me: Proc, x: nat, it: Proc, n: nat, ncpu: nat, init: nat, but: nat, ch: Choice, j: nat,
                 b: Proc)
    requires Ready(i, me, x, it, n, ncpu, init, but, ch) && InWait(me.pc)
    requires j != i && j != x && Both(i, me, j, b, n, ncpu, init, but)
    ensures var r := Wait(i, me, it, n, ch); PairOk(i, r.me, j, b, init, but) && PairOk(j, b, i, r.me, init, but)
  {
    hide Ready, Wait, SelfOk, PairOk, Both;
    if me.pc.Scan? {
      ScanMine(i, me, x, it, n, ncpu, init, but, ch, j, b);
    } else {
      ScanOneMine(i, me, x, it, n, ncpu, init, but, ch, j, b);
    }
  }

  lemma WaitIts(i: nat, me: Proc, x: nat, it: Proc, n: nat, ncpu: nat, init: nat, but: nat, ch: Choice, j: nat, b: Proc)
    requires Ready(i, me, x, it, n, ncpu, init, but, ch) && InWait(me.pc)
    requires j != i && j != x && x != i && Both(x, it, j, b, n, ncpu, init, but)
    requires Both(i, me, j, b, n, ncpu, init, but)
    ensures var r := Wait(i, me, it, n, ch); PairOk(x, r.it, j, b, init, but) && PairOk(j, b, x, r.it, init, but)
  {
  }

  lemma ExitSelfEarly(i: nat, me: Proc, x: nat, it: Proc, n: nat, ncpu: nat, init: nat, but: nat, ch: Choice)
    requires Ready(i, me, x, it, n, ncpu, init, but, ch) && (me.pc.Exit1? || me.pc.Exit2? || me.pc.Exit3?)
    ensures var r := Exit(i, me, it, n, init, ch);
            && SelfOk(i, r.me, n, ncpu, init, but) && AmongThreads(me, r.me)
            && (x != i ==> SelfOk(x, r.it, n, ncpu, init, but) && AmongThreads(it, r.it))
  {
    hide LookedAt;
  }

  lemma ExitSelfLate(i: nat, me: Proc, x: nat, it: Proc, n: nat, ncpu: nat, init: nat, but: nat, ch: Choice)
    requires Ready(i, me, x, it, n, ncpu, init, but, ch) && (me.pc.Give? || me.pc.GiveLock? || me.pc.Exit6?)
    ensures var r := Exit(i, me, it, n, init, ch);
            && SelfOk(i, r.me, n, ncpu, init, but) && AmongThreads(me, r.me)
            && (x != i ==> SelfOk(x, r.it, n, ncpu, init, but) && AmongThreads(it, r.it))
  {
    hide LookedAt;
  }

  lemma ExitSelf(i: nat, me: Proc, x: nat, it: Proc, n: nat, ncpu: nat, init: nat, but: nat, ch: Choice)
    requires Ready(i, me, x, it, n, ncpu, init, but, ch) && Exiting(me.pc)
    ensures var r := Exit(i, me, it, n, init, ch);
            && SelfOk(i, r.me, n, ncpu, init, but) && AmongThreads(me, r.me)
            && (x != i ==> SelfOk(x, r.it, n, ncpu, init, but) && AmongThreads(it, r.it))
  {
    hide Ready, Exit, SelfOk, PairOk, Both;
    if me.pc.Exit1? || me.pc.Exit2? || me.pc.Exit3? {
      ExitSelfEarly(i, me, x, it, n, ncpu, init, but, ch);
    } else {
      ExitSelfLate(i, me, x, it, n, ncpu, init, but, ch);
    }
  }

  lemma ExitPairEarly(i: nat, me: Proc, x: nat, it: Proc, n: nat, ncpu: nat, init: nat, but: nat, ch: Choice)
    requires Ready(i, me, x, it, n, ncpu, init, but, ch) && (me.pc.Exit1? || me.pc.Exit2? || me.pc.Exit3?)
    ensures var r := Exit(i, me, it, n, init, ch);
            PairOk(i, r.me, i, r.me, init, but) &&
              (x != i ==>
               PairOk(i, r.me, x, r.it, init, but) && PairOk(x, r.it, i, r.me, init, but) &&
                 PairOk(x, r.it, x, r.it, init, but))
  {
  }

  lemma ExitPairLate(i: nat, me: Proc, x: nat, it: Proc, n: nat, ncpu: nat, init: nat, but: nat, ch: Choice)
    requires Ready(i, me, x, it, n, ncpu, init, but, ch) && (me.pc.Give? || me.pc.GiveLock? || me.pc.Exit6?)
    ensures var r := Exit(i, me, it, n, init, ch);
            PairOk(i, r.me, i, r.me, init, but) &&
              (x != i ==>
               PairOk(i, r.me, x, r.it, init, but) && PairOk(x, r.it, i, r.me, init, but) &&
                 PairOk(x, r.it, x, r.it, init, but))
  {
  }

  lemma ExitPair(i: nat, me: Proc, x: nat, it: Proc, n: nat, ncpu: nat, init: nat, but: nat, ch: Choice)
    requires Ready(i, me, x, it, n, ncpu, init, but, ch) && Exiting(me.pc)
    ensures var r := Exit(i, me, it, n, init, ch);
            PairOk(i, r.me, i, r.me, init, but) &&
              (x != i ==>
               PairOk(i, r.me, x, r.it, init, but) && PairOk(x, r.it, i, r.me, init, but) &&
                 PairOk(x, r.it, x, r.it, init, but))
  {
    hide Ready, Exit, SelfOk, PairOk, Both;
    if me.pc.Exit1? || me.pc.Exit2? || me.pc.Exit3? {
      ExitPairEarly(i, me, x, it, n, ncpu, init, but, ch);
    } else {
      ExitPairLate(i, me, x, it, n, ncpu, init, but, ch);
    }
  }

  lemma ExitMineEarly(i: nat, me: Proc, x: nat, it: Proc, n: nat, ncpu: nat, init: nat, but: nat, ch: Choice, j: nat,
                      b: Proc)
    requires Ready(i, me, x, it, n, ncpu, init, but, ch) && (me.pc.Exit1? || me.pc.Exit2? || me.pc.Exit3?)
    requires j != i && j != x && Both(i, me, j, b, n, ncpu, init, but)
    ensures var r := Exit(i, me, it, n, init, ch); PairOk(i, r.me, j, b, init, but) && PairOk(j, b, i, r.me, init, but)
  {
  }

  lemma ExitMineLate(i: nat, me: Proc, x: nat, it: Proc, n: nat, ncpu: nat, init: nat, but: nat, ch: Choice, j: nat,
                     b: Proc)
    requires Ready(i, me, x, it, n, ncpu, init, but, ch) && (me.pc.Give? || me.pc.GiveLock? || me.pc.Exit6?)
    requires j != i && j != x && Both(i, me, j, b, n, ncpu, init, but)
    requires but == init || j != init || !Missed(i, me, x, it, init, b)
    ensures var r := Exit(i, me, it, n, init, ch); PairOk(i, r.me, j, b, init, but) && PairOk(j, b, i, r.me, init, but)
  {
    hide CanAct;
  }

  lemma ExitMine(i: nat, me: Proc, x: nat, it: Proc, n: nat, ncpu: nat, init: nat, but: nat, ch: Choice, j: nat,
                 b: Proc)
    requires Ready(i, me, x, it, n, ncpu, init, but, ch) && Exiting(me.pc)
    requires j != i && j != x && Both(i, me, j, b, n, ncpu, init, but)
    requires but == init || j != init || !Missed(i, me, x, it, init, b)
    ensures var r := Exit(i, me, it, n, init, ch); PairOk(i, r.me, j, b, init, but) && PairOk(j, b, i, r.me, init, but)
  {
    hide Ready, Exit, SelfOk, PairOk, Both;
    if me.pc.Exit1? || me.pc.Exit2? || me.pc.Exit3? {
      ExitMineEarly(i, me, x, it, n, ncpu, init, but, ch, j, b);
    } else {
      ExitMineLate(i, me, x, it, n, ncpu, init, but, ch, j, b);
    }
  }

  lemma ExitIts(i: nat, me: Proc, x: nat, it: Proc, n: nat, ncpu: nat, init: nat, but: nat, ch: Choice, j: nat, b: Proc)
    requires Ready(i, me, x, it, n, ncpu, init, but, ch) && Exiting(me.pc)
    requires j != i && j != x && x != i && Both(x, it, j, b, n, ncpu, init, but)
    requires Both(i, me, j, b, n, ncpu, init, but)
    requires but == init || j != init || !Missed(i, me, x, it, init, b)
    ensures var r := Exit(i, me, it, n, init, ch); PairOk(x, r.it, j, b, init, but) && PairOk(j, b, x, r.it, init, but)
  {
  }

  lemma RestSelf(i: nat, me: Proc, x: nat, it: Proc, n: nat, ncpu: nat, init: nat, but: nat, ch: Choice)
    requires Ready(i, me, x, it, n, ncpu, init, but, ch) && (me.pc.Resumed? || me.pc.Fork1? || me.pc.Fork2?)
    ensures var r := Act(i, me, it, n, init, ch);
            && SelfOk(i, r.me, n, ncpu, init, but) && AmongThreads(me, r.me)
            && (x != i ==> SelfOk(x, r.it, n, ncpu, init, but) && AmongThreads(it, r.it))
  {
    hide GivenAway, LookedAt, Call, Wait, Exit;
  }

  lemma RestPair(i: nat, me: Proc, x: nat, it: Proc, n: nat, ncpu: nat, init: nat, but: nat, ch: Choice)
    requires Ready(i, me, x, it, n, ncpu, init, but, ch) && (me.pc.Resumed? || me.pc.Fork1? || me.pc.Fork2?)
    ensures var r := Act(i, me, it, n, init, ch);
            PairOk(i, r.me, i, r.me, init, but) &&
              (x != i ==>
               PairOk(i, r.me, x, r.it, init, but) && PairOk(x, r.it, i, r.me, init, but) &&
                 PairOk(x, r.it, x, r.it, init, but))
  {
    hide Call, Wait, Exit;
  }

  lemma RestMine(i: nat, me: Proc, x: nat, it: Proc, n: nat, ncpu: nat, init: nat, but: nat, ch: Choice, j: nat,
                 b: Proc)
    requires Ready(i, me, x, it, n, ncpu, init, but, ch) && (me.pc.Resumed? || me.pc.Fork1? || me.pc.Fork2?)
    requires j != i && j != x && Both(i, me, j, b, n, ncpu, init, but)
    ensures var r := Act(i, me, it, n, init, ch); PairOk(i, r.me, j, b, init, but) && PairOk(j, b, i, r.me, init, but)
  {
    hide Call, Wait, Exit;
  }

  lemma RestIts(i: nat, me: Proc, x: nat, it: Proc, n: nat, ncpu: nat, init: nat, but: nat, ch: Choice, j: nat, b: Proc)
    requires Ready(i, me, x, it, n, ncpu, init, but, ch) && (me.pc.Resumed? || me.pc.Fork1? || me.pc.Fork2?)
    requires j != i && j != x && x != i && Both(x, it, j, b, n, ncpu, init, but)
    requires Both(i, me, j, b, n, ncpu, init, but)
    ensures var r := Act(i, me, it, n, init, ch); PairOk(x, r.it, j, b, init, but) && PairOk(j, b, x, r.it, init, but)
  {
    hide Call, Wait, Exit;
  }

  lemma ActSelf(i: nat, me: Proc, x: nat, it: Proc, n: nat, ncpu: nat, init: nat, but: nat, ch: Choice)
    requires Ready(i, me, x, it, n, ncpu, init, but, ch)
    ensures var r := Act(i, me, it, n, init, ch);
            && SelfOk(i, r.me, n, ncpu, init, but) && AmongThreads(me, r.me)
            && (x != i ==> SelfOk(x, r.it, n, ncpu, init, but) && AmongThreads(it, r.it))
            && PairOk(i, r.me, i, r.me, init, but)
            && (x != i ==>
                PairOk(i, r.me, x, r.it, init, but) && PairOk(x, r.it, i, r.me, init, but) &&
                  PairOk(x, r.it, x, r.it, init, but))
  {
    WhichPart(i, me, x, it, n, ncpu, init, but, ch);
    hide Ready, SelfOk, PairOk, Act, Call, Wait, Exit, AmongThreads, Exiting, InWait;
    if me.pc.User? {
      CallSelf(i, me, x, it, n, ncpu, init, but, ch);
      CallPair(i, me, x, it, n, ncpu, init, but, ch);
    } else if InWait(me.pc) {
      WaitSelf(i, me, x, it, n, ncpu, init, but, ch);
      WaitPair(i, me, x, it, n, ncpu, init, but, ch);
    } else if Exiting(me.pc) {
      ExitSelf(i, me, x, it, n, ncpu, init, but, ch);
      ExitPair(i, me, x, it, n, ncpu, init, but, ch);
    } else {
      RestSelf(i, me, x, it, n, ncpu, init, but, ch);
      RestPair(i, me, x, it, n, ncpu, init, but, ch);
    }
  }

  lemma WhichPart(i: nat, me: Proc, x: nat, it: Proc, n: nat, ncpu: nat, init: nat, but: nat, ch: Choice)
    requires Ready(i, me, x, it, n, ncpu, init, but, ch)
    ensures me.pc.User? ==> Act(i, me, it, n, init, ch) == Call(i, me, it, ch)
    ensures InWait(me.pc) ==> Act(i, me, it, n, init, ch) == Wait(i, me, it, n, ch)
    ensures Exiting(me.pc) ==> Act(i, me, it, n, init, ch) == Exit(i, me, it, n, init, ch)
    ensures me.pc.User? || InWait(me.pc) || Exiting(me.pc) || me.pc.Resumed? || me.pc.Fork1? || me.pc.Fork2?
  {
    hide Both, Call, Wait, Exit;
  }

  lemma ActOthers(i: nat, me: Proc, x: nat, it: Proc, n: nat, ncpu: nat, init: nat, but: nat, ch: Choice, j: nat,
                  b: Proc)
    requires Ready(i, me, x, it, n, ncpu, init, but, ch)
    requires j != i && j != x && Both(x, it, j, b, n, ncpu, init, but) && Both(i, me, j, b, n, ncpu, init, but)
    requires but == init || j != init || !Missed(i, me, x, it, init, b)
    ensures var r := Act(i, me, it, n, init, ch);
            && PairOk(i, r.me, j, b, init, but) && PairOk(j, b, i, r.me, init, but)
            && (x != i ==> PairOk(x, r.it, j, b, init, but) && PairOk(j, b, x, r.it, init, but))
  {
    WhichPart(i, me, x, it, n, ncpu, init, but, ch);
    hide Ready, Both, PairOk, Act, Call, Wait, Exit, Exiting, InWait;
    if me.pc.User? {
      CallMine(i, me, x, it, n, ncpu, init, but, ch, j, b);
      if x != i { CallIts(i, me, x, it, n, ncpu, init, but, ch, j, b); }
    } else if InWait(me.pc) {
      WaitMine(i, me, x, it, n, ncpu, init, but, ch, j, b);
      if x != i { WaitIts(i, me, x, it, n, ncpu, init, but, ch, j, b); }
    } else if Exiting(me.pc) {
      ExitMine(i, me, x, it, n, ncpu, init, but, ch, j, b);
      if x != i { ExitIts(i, me, x, it, n, ncpu, init, but, ch, j, b); }
    } else {
      RestMine(i, me, x, it, n, ncpu, init, but, ch, j, b);
      if x != i { RestIts(i, me, x, it, n, ncpu, init, but, ch, j, b); }
    }
  }

  lemma InvBoth(s: State, but: nat, i: nat, j: nat)
    requires Inv(s, but) && i < |s.procs| && j < |s.procs|
    ensures Both(i, s.procs[i], j, s.procs[j], |s.procs|, |s.cpus|, s.init, but)
  {
    hide SelfOk, PairOk;
  }

  lemma ReadyAt(s: State, but: nat, p: nat, ch: Choice)
    requires Inv(s, but) && Enabled(s, Go(p, ch)) && (but == s.init || !InitMisses(s, Go(p, ch)))
    ensures var x := Target(p, s.procs[p].pc, |s.procs|, s.init, ch);
            x < |s.procs| && Ready(p, s.procs[p], x, s.procs[x], |s.procs|, |s.cpus|, s.init, but, ch)
  {
    InvBoth(s, but, p, Target(p, s.procs[p].pc, |s.procs|, s.init, ch));
    hide Both, CanAct;
  }

  lemma GoPair(s: State, but: nat, p: nat, ch: Choice, i: nat, j: nat)
    requires Inv(s, but) && Enabled(s, Go(p, ch)) && (but == s.init || !InitMisses(s, Go(p, ch))) && i < |s.procs|
    requires j < |s.procs|
    ensures var s' := Do(s, Go(p, ch));
            && |s'.procs| == |s.procs| && SelfOk(i, s'.procs[i], |s.procs|, |s.cpus|, s.init, but)
            && PairOk(i, s'.procs[i], j, s'.procs[j], s.init, but)
  {
    hide SelfOk, PairOk, Act, Target, CanAct, Both;
    var x := Target(p, s.procs[p].pc, |s.procs|, s.init, ch);
    ReadyAt(s, but, p, ch);
    ActSelf(p, s.procs[p], x, s.procs[x], |s.procs|, |s.cpus|, s.init, but, ch);
    if j != p && j != x {
      InvBoth(s, but, x, j);
      InvBoth(s, but, p, j);
      ActOthers(p, s.procs[p], x, s.procs[x], |s.procs|, |s.cpus|, s.init, but, ch, j, s.procs[j]);
    }
    if i != p && i != x {
      InvBoth(s, but, x, i);
      InvBoth(s, but, p, i);
      ActOthers(p, s.procs[p], x, s.procs[x], |s.procs|, |s.cpus|, s.init, but, ch, i, s.procs[i]);
    }
  }

  lemma GoKeeps(s: State, but: nat, p: nat, ch: Choice)
    requires Inv(s, but) && Enabled(s, Go(p, ch)) && (but == s.init || !InitMisses(s, Go(p, ch)))
    ensures Inv(Do(s, Go(p, ch)), but)
  {
    hide SelfOk, PairOk, Act, Target, CanAct, Both;
    var s' := Do(s, Go(p, ch));
    var x := Target(p, s.procs[p].pc, |s.procs|, s.init, ch);
    ReadyAt(s, but, p, ch);
    ActSelf(p, s.procs[p], x, s.procs[x], |s.procs|, |s.cpus|, s.init, but, ch);
    forall i, j | 0 <= i < |s'.procs| && 0 <= j < |s'.procs|
      ensures SelfOk(i, s'.procs[i], |s'.procs|, |s'.cpus|, s'.init, but)
      ensures PairOk(i, s'.procs[i], j, s'.procs[j], s'.init, but)
    {
      GoPair(s, but, p, ch, i, j);
    }
    forall i | 0 <= i < |s'.procs| ensures SelfOk(i, s'.procs[i], |s'.procs|, |s'.cpus|, s'.init, but) {
      GoPair(s, but, p, ch, i, i);
    }
    forall c, i | 0 <= c < |s'.cpus| && 0 <= i < |s'.procs| ensures CpuOk(c, s'.cpus[c], i, s'.procs[i]) {
      assert CpuOk(c, s.cpus[c], i, s.procs[i]);
    }
  }

  /** A process after one of the scheduler's steps. */
  predicate Moved(p: nat, a: Proc, a': Proc, ncpu: nat) {
    || (a.pc.InSched? && a'.lock.Cpu? && a' == a.(pc := Off(a.pc.k), on := ncpu, lock := a'.lock))
    || (a.lock.Cpu? && a' == a.(lock := Nobody))
    || (a.pc.Off? && a.st == RUNNABLE && a.lock == Nobody && a'.on < ncpu &&
        a' == a.(st := RUNNING, lock := Thread(p), pc := Resumed(a.pc.k), on := a'.on))
  }

  lemma MovedPair(p: nat, a: Proc, a': Proc, j: nat, b: Proc, n: nat, ncpu: nat, init: nat, but: nat)
    requires Both(p, a, j, b, n, ncpu, init, but) && Moved(p, a, a', ncpu)
    ensures SelfOk(p, a', n, ncpu, init, but) && PairOk(p, a', p, a', init, but)
    ensures j != p ==> PairOk(p, a', j, b, init, but) && PairOk(j, b, p, a', init, but)
  {
  }

  lemma CpuStepPair(s: State, but: nat, st: Step, i: nat, j: nat)
    requires Inv(s, but) && Enabled(s, st) && !st.Go? && i < |s.procs| && j < |s.procs|
    ensures var s' := Do(s, st);
            && |s'.procs| == |s.procs| && |s'.cpus| == |s.cpus| &&
              SelfOk(i, s'.procs[i], |s.procs|, |s.cpus|, s.init, but)
            && PairOk(i, s'.procs[i], j, s'.procs[j], s.init, but)
  {
    InvBoth(s, but, i, j);
    InvBoth(s, but, j, i);
    if st.Release? {
      assert CpuOk(st.c, s.cpus[st.c], s.cpus[st.c].i, s.procs[s.cpus[st.c].i]);
    }
    hide Inv, SelfOk, PairOk;
    var p := if st.Release? then s.cpus[st.c].i else st.p;
    assert Moved(p, s.procs[p], Do(s, st).procs[p], |s.cpus|);
    hide Moved;
    if i == p {
      MovedPair(i, s.procs[i], Do(s, st).procs[i], j, s.procs[j], |s.procs|, |s.cpus|, s.init, but);
    } else if j == p {
      MovedPair(j, s.procs[j], Do(s, st).procs[j], i, s.procs[i], |s.procs|, |s.cpus|, s.init, but);
    }
  }

  lemma CpuStepCpu(s: State, but: nat, st: Step, c: nat, i: nat)
    requires Inv(s, but) && Enabled(s, st) && !st.Go? && i < |s.procs| && c < |s.cpus|
    ensures var s' := Do(s, st);
            |s'.procs| == |s.procs| && |s'.cpus| == |s.cpus| && CpuOk(c, s'.cpus[c], i, s'.procs[i])
  {
    assert CpuOk(c, s.cpus[c], i, s.procs[i]);
    match st
    case Swtch(p) =>
      InvBoth(s, but, p, i);
      assert CpuOk(s.procs[p].on, s.cpus[s.procs[p].on], p, s.procs[p]) &&
             CpuOk(s.procs[p].on, s.cpus[s.procs[p].on], i, s.procs[i]);
      assert CpuOk(c, s.cpus[c], p, s.procs[p]);
    case Release(d) =>
      assert CpuOk(d, s.cpus[d], s.cpus[d].i, s.procs[s.cpus[d].i]) && CpuOk(d, s.cpus[d], i, s.procs[i]);
      assert CpuOk(c, s.cpus[c], s.cpus[d].i, s.procs[s.cpus[d].i]);
    case Dispatch(d, p) =>
      InvBoth(s, but, p, i);
      assert CpuOk(d, s.cpus[d], i, s.procs[i]) && CpuOk(d, s.cpus[d], p, s.procs[p]) &&
             CpuOk(c, s.cpus[c], p, s.procs[p]);
  }

  lemma StepKeeps(s: State, but: nat, st: Step)
    requires Inv(s, but) && Enabled(s, st) && (but == s.init || !InitMisses(s, st))
    ensures Inv(Do(s, st), but)
  {
    if st.Go? {
      GoKeeps(s, but, st.p, st.ch);
    } else {
      hide SelfOk, PairOk, CpuOk;
      var s' := Do(s, st);
      forall i, j | 0 <= i < |s'.procs| && 0 <= j < |s'.procs|
        ensures PairOk(i, s'.procs[i], j, s'.procs[j], s.init, but)
      {
        CpuStepPair(s, but, st, i, j);
      }
      forall i | 0 <= i < |s'.procs| ensures SelfOk(i, s'.procs[i], |s'.procs|, |s'.cpus|, s'.init, but) {
        CpuStepPair(s, but, st, i, i);
      }
      forall c, i | 0 <= c < |s'.cpus| && 0 <= i < |s'.procs| ensures CpuOk(c, s'.cpus[c], i, s'.procs[i]) {
        CpuStepCpu(s, but, st, c, i);
      }
    }
  }

  // ----- Runs -----

  /** After userinit: one process, init, ready to run. */
  ghost predicate Start(s: State) {
    && s.init < |s.procs| && (forall c :: 0 <= c < |s.cpus| ==> s.cpus[c].Idle?)
    && (forall i :: 0 <= i < |s.procs| ==>
          s.procs[i] == Proc(if i == s.init then RUNNABLE else UNUSED, |s.procs|, NoChan, false, Nobody,
                             if i == s.init then Off(ToUser) else Gone, |s.cpus|, 0, 0, 0))
  }

  ghost predicate Runs(s: State, run: seq<Step>, r: State)
    decreases |run|
  {
    if run == [] then r == s else Enabled(s, run[0]) && Runs(Do(s, run[0]), run[1..], r)
  }

  /** init misses no exit. */
  ghost predicate Timely(s: State, run: seq<Step>)
    decreases |run|
  {
    run != [] ==> Enabled(s, run[0]) && !InitMisses(s, run[0]) && Timely(Do(s, run[0]), run[1..])
  }

  lemma {:induction false} RunInv(s: State, but: nat, run: seq<Step>, r: State)
    requires Inv(s, but) && Runs(s, run, r) && (but == s.init || Timely(s, run))
    ensures Inv(r, but) && r.init == s.init && |r.procs| == |s.procs|
    decreases |run|
  {
    if run != [] {
      StepKeeps(s, but, run[0]);
      hide Inv, Enabled;
      RunInv(Do(s, run[0]), but, run[1..], r);
    }
  }

  lemma StartInv(s: State, but: nat)
    requires Start(s) && (but == s.init || but == |s.procs|)
    ensures Inv(s, but)
  {
    forall i, j | 0 <= i < |s.procs| && 0 <= j < |s.procs| ensures PairOk(i, s.procs[i], j, s.procs[j], s.init, but) {
    }
  }

  lemma Reached(s: State, run: seq<Step>, r: State)
    requires Start(s) && Runs(s, run, r)
    ensures Inv(r, r.init)
  {
    hide Inv;
    StartInv(s, s.init);
    RunInv(s, s.init, run, r);
  }

  /** A RUNNING process runs on a CPU, and no process runs on two. */
  lemma OneCpuEach(s: State, run: seq<Step>, r: State, i: nat)
    requires Start(s) && Runs(s, run, r) && i < |r.procs|
    ensures r.procs[i].st == RUNNING ==> r.procs[i].on < |r.cpus| && r.cpus[r.procs[i].on] == Hosts(i)
    ensures forall c, d :: 0 <= c < |r.cpus| && 0 <= d < |r.cpus| && r.cpus[c] == Hosts(i) && r.cpus[d] == Hosts(i) ==>
              c == d
  {
    Reached(s, run, r);
    InvBoth(r, r.init, i, i);
    forall c | 0 <= c < |r.cpus| ensures CpuOk(c, r.cpus[c], i, r.procs[i]) {
    }
  }

  /** The scheduler tests only the state: a RUNNABLE process whose lock is free is off its CPU, ready to be
      switched to. */
  lemma RunnableIsOff(s: State, run: seq<Step>, r: State, i: nat)
    requires Start(s) && Runs(s, run, r) && i < |r.procs| && r.procs[i].lock == Nobody && r.procs[i].st == RUNNABLE
    ensures r.procs[i].pc.Off? && r.procs[i].pc.k != Never
  {
    Reached(s, run, r);
    InvBoth(r, r.init, i, i);
  }

  /** No process, in whatever state, has an exited or unused slot for a parent; and each that has not been
      reaped, init excepted, has a parent. */
  lemma ParentsLive(s: State, run: seq<Step>, r: State, i: nat)
    requires Start(s) && Runs(s, run, r) && i < |r.procs|
    ensures r.procs[i].parent < |r.procs| ==> Live(r.procs[r.procs[i].parent])
    ensures r.procs[i].st != UNUSED && i != r.init ==> r.procs[i].parent < |r.procs|
  {
    Reached(s, run, r);
    InvBoth(r, r.init, i, i);
    if r.procs[i].parent < |r.procs| {
      InvBoth(r, r.init, r.procs[i].parent, i);
    }
  }

  /** A slot becomes UNUSED only by a wait() of its current parent finding it ZOMBIE, when it has left its
      CPU; and it is reaped exactly once for each time it exited. */
  lemma ReapedOnceByParent(s: State, run: seq<Step>, r: State, st: Step, k: nat)
    requires Start(s) && Runs(s, run, r) && Enabled(r, st) && k < |r.procs|
    ensures var r' := Do(r, st);
            && |r'.procs| == |r.procs| &&
              r'.procs[k].exits == r'.procs[k].reaps + (if r'.procs[k].st == ZOMBIE then 1 else 0)
            && (r'.procs[k].reaps == r.procs[k].reaps ||
                (r'.procs[k].reaps == r.procs[k].reaps + 1 && r.procs[k].st == ZOMBIE && st.Go? &&
                 r.procs[k].parent == st.p && r.procs[k].on >= |r.cpus|))
            && (r.procs[k].st != UNUSED && r'.procs[k].st == UNUSED ==> r'.procs[k].reaps == r.procs[k].reaps + 1)
  {
    Reached(s, run, r);
    StepKeeps(r, r.init, st);
    InvBoth(Do(r, st), r.init, k, k);
    InvBoth(r, r.init, k, k);
    match st
    case Go(p, ch) =>
      var x := Target(p, r.procs[p].pc, |r.procs|, r.init, ch);
      InvBoth(r, r.init, p, x);
      hide Inv;
      Reaping(p, r.procs[p], x, r.procs[x], |r.procs|, |r.cpus|, r.init, r.init, ch);
    case _ =>
  }

  /** What a step of thread i may do to the history of another process. */
  predicate ReapsOk(i: nat, a: Proc, a': Proc, ncpu: nat) {
    || (a'.reaps == a.reaps && (a'.st == UNUSED ==> a.st == UNUSED))
    || (a'.reaps == a.reaps + 1 && a.st == ZOMBIE && a.parent == i && a.on >= ncpu)
  }

  lemma WaitReaps(i: nat, me: Proc, x: nat, it: Proc, n: nat, ncpu: nat, init: nat, but: nat, ch: Choice)
    requires Ready(i, me, x, it, n, ncpu, init, but, ch) && InWait(me.pc)
    ensures var r := Wait(i, me, it, n, ch); r.me.reaps == me.reaps && r.me.st != UNUSED && ReapsOk(i, it, r.it, ncpu)
  {
    hide GivenAway, LookedAt;
  }

  lemma ExitReaps(i: nat, me: Proc, x: nat, it: Proc, n: nat, ncpu: nat, init: nat, but: nat, ch: Choice)
    requires Ready(i, me, x, it, n, ncpu, init, but, ch) && Exiting(me.pc)
    ensures var r := Exit(i, me, it, n, init, ch);
            r.me.reaps == me.reaps && r.me.st != UNUSED && ReapsOk(i, it, r.it, ncpu)
  {
    hide PairOk;
  }

  lemma Reaping(i: nat, me: Proc, x: nat, it: Proc, n: nat, ncpu: nat, init: nat, but: nat, ch: Choice)
    requires Ready(i, me, x, it, n, ncpu, init, but, ch)
    ensures var r := Act(i, me, it, n, init, ch);
            r.me.reaps == me.reaps && r.me.st != UNUSED && ReapsOk(i, it, r.it, ncpu)
  {
    WhichPart(i, me, x, it, n, ncpu, init, but, ch);
    if InWait(me.pc) {
      hide Act, Wait;
      WaitReaps(i, me, x, it, n, ncpu, init, but, ch);
    } else if Exiting(me.pc) {
      hide Act, Exit;
      ExitReaps(i, me, x, it, n, ncpu, init, but, ch);
    } else {
      hide PairOk, Wait, Exit;
    }
  }

  // ----- Who is whose parent, and who wakes whom -----

  /** The parent of a process changes in three ways only: fork makes the caller the parent of an unused slot, an
      exiting parent gives its child to init, and wait() clears the slot it reaps. A slot comes to life only by a
      fork of its parent. */
  lemma ParentChanges(s: State, run: seq<Step>, r: State, st: Step, k: nat)
    requires Start(s) && Runs(s, run, r) && Enabled(r, st) && k < |r.procs|
    ensures |Do(r, st).procs| == |r.procs|
    ensures var a, a' := r.procs[k], Do(r, st).procs[k];
            && (a'.parent != a.parent ==>
                  && st.Go? && st.p < |r.procs|
                  && (|| (r.procs[st.p].pc == Fork1(k) && a'.parent == st.p && a.st == UNUSED)
                      || (r.procs[st.p].pc.GiveLock? && a.parent == st.p && a'.parent == r.init)
                      || (r.procs[st.p].pc.ScanHave? && a.parent == st.p && a.st == ZOMBIE && a'.st == UNUSED)))
            && (a.st == UNUSED && a'.st != UNUSED ==> st.Go? && a'.parent == st.p && a'.st == RUNNABLE)
  {
    Reached(s, run, r);
    InvBoth(r, r.init, k, k);
    if st.Go? {
      var x := Target(st.p, r.procs[st.p].pc, |r.procs|, r.init, st.ch);
      InvBoth(r, r.init, st.p, x);
      hide Inv;
      FamilyStep(st.p, r.procs[st.p], x, r.procs[x], |r.procs|, |r.cpus|, r.init, st.ch);
    } else {
      hide PairOk;
    }
  }

  predicate FamilyOk(i: nat, me: Proc, k: nat, a: Proc, a': Proc, init: nat) {
    && (a'.parent != a.parent ==>
          || (me.pc == Fork1(k) && a'.parent == i && a.st == UNUSED)
          || (me.pc.GiveLock? && a.parent == i && a'.parent == init)
          || (me.pc.ScanHave? && a.parent == i && a.st == ZOMBIE && a'.st == UNUSED))
    && (a.st == UNUSED && a'.st != UNUSED ==> a'.parent == i && a'.st == RUNNABLE)
  }

  lemma FamilyStep(i: nat, me: Proc, x: nat, it: Proc, n: nat, ncpu: nat, init: nat, ch: Choice)
    requires Ready(i, me, x, it, n, ncpu, init, init, ch)
    ensures var t := Act(i, me, it, n, init, ch);
            FamilyOk(i, me, i, me, t.me, init) && (x != i ==> FamilyOk(i, me, x, it, t.it, init))
  {
    hide LookedAt, GivenAway, NoneUpTo, Expecting;
  }

  /** A sleeper becomes RUNNABLE exactly by a kill, by a wakeup of its channel, or, asleep in wait(), by the exit of a
      process that took it for its parent, init also by the start of any exit(). */
  lemma SleeperWakes(s: State, run: seq<Step>, r: State, st: Step, k: nat)
    requires Start(s) && Runs(s, run, r) && Enabled(r, st) && k < |r.procs|
    requires r.procs[k].st == SLEEPING
    ensures k < |Do(r, st).procs| && (Do(r, st).procs[k].st == SLEEPING || Do(r, st).procs[k].st == RUNNABLE)
    ensures Do(r, st).procs[k].st == RUNNABLE <==>
              && st.Go? && st.p < |r.procs|
              && var pc := r.procs[st.p].pc;
                 || (pc.User? && st.ch == DoKill(k))
                 || (pc.User? && st.ch.DoWake? && st.ch.q == k && r.procs[k].chan == Other(st.ch.x))
                 || (pc == Exit6(k) && r.procs[k].chan == Self)
                 || (pc.User? && st.ch.DoExit? && k == r.init && r.procs[k].chan == Self)
  {
    Reached(s, run, r);
    InvBoth(r, r.init, k, k);
    if st.Go? {
      InvBoth(r, r.init, st.p, k);
      var x := Target(st.p, r.procs[st.p].pc, |r.procs|, r.init, st.ch);
      InvBoth(r, r.init, st.p, x);
      hide Inv;
      WakeStep(st.p, r.procs[st.p], x, r.procs[x], |r.procs|, |r.cpus|, r.init, st.ch);
    } else {
      hide PairOk;
    }
  }

  predicate WakeOk(me: Proc, k: nat, a: Proc, a': Proc, init: nat, ch: Choice) {
    a.st == SLEEPING ==>
      && (a'.st == SLEEPING || a'.st == RUNNABLE)
      && (a'.st == RUNNABLE <==>
            || (me.pc.User? && ch == DoKill(k))
            || (me.pc.User? && ch.DoWake? && ch.q == k && a.chan == Other(ch.x))
            || (me.pc == Exit6(k) && a.chan == Self)
            || (me.pc.User? && ch.DoExit? && k == init && a.chan == Self))
  }

  lemma WakeStep(i: nat, me: Proc, x: nat, it: Proc, n: nat, ncpu: nat, init: nat, ch: Choice)
    requires Ready(i, me, x, it, n, ncpu, init, init, ch)
    ensures me.st != SLEEPING || me.pc.InSched?
    ensures x != i ==> WakeOk(me, x, it, Act(i, me, it, n, init, ch).it, init, ch)
    ensures forall k :: k != x ==> !(me.pc.User? && (ch == DoKill(k) || (ch.DoWake? && ch.q == k))) && me.pc != Exit6(k)
    ensures me.pc.User? && ch.DoExit? ==> x == init
  {
    hide LookedAt, GivenAway, NoneUpTo, Expecting;
  }

  /** A process goes to sleep only by its own sleep(), on the channel it names, or in wait(), on itself; and while it
      sleeps its channel stays. A process is marked killed exactly by a kill, and unmarked only when it is reaped. */
  lemma SleepsAndKills(s: State, run: seq<Step>, r: State, st: Step, k: nat)
    requires Start(s) && Runs(s, run, r) && Enabled(r, st) && k < |r.procs|
    ensures k < |Do(r, st).procs|
    ensures var a, a' := r.procs[k], Do(r, st).procs[k];
            && (a.st == SLEEPING && a'.st == SLEEPING ==> a'.chan == a.chan)
            && (a.st != SLEEPING && a'.st == SLEEPING ==>
                  && st.Go? && st.p == k
                  && if a.pc.User? then st.ch.DoSleep? && a'.chan == Other(st.ch.x) else a.pc.Scan? && a'.chan == Self)
            && (!a.killed ==> (a'.killed <==> st.Go? && r.procs[st.p].pc.User? && st.ch == DoKill(k)))
            && (a.killed && !a'.killed ==> a'.reaps == a.reaps + 1)
  {
    Reached(s, run, r);
    InvBoth(r, r.init, k, k);
    if st.Go? {
      InvBoth(r, r.init, st.p, k);
      var x := Target(st.p, r.procs[st.p].pc, |r.procs|, r.init, st.ch);
      InvBoth(r, r.init, st.p, x);
      hide Inv;
      DrowsyMe(st.p, r.procs[st.p], x, r.procs[x], |r.procs|, |r.cpus|, r.init, st.ch);
      if x != st.p { DrowsyIt(st.p, r.procs[st.p], x, r.procs[x], |r.procs|, |r.cpus|, r.init, st.ch); }
    } else {
      hide PairOk;
    }
  }

  predicate DrowsyOk(i: nat, me: Proc, k: nat, a: Proc, a': Proc, ch: Choice) {
    && (a.st == SLEEPING && a'.st == SLEEPING ==> a'.chan == a.chan)
    && (a.st != SLEEPING && a'.st == SLEEPING ==>
          i == k && if a.pc.User? then ch.DoSleep? && a'.chan == Other(ch.x) else a.pc.Scan? && a'.chan == Self)
    && (!a.killed ==> (a'.killed <==> me.pc.User? && ch == DoKill(k)))
    && (a.killed && !a'.killed ==> a'.reaps == a.reaps + 1)
  }

  lemma DrowsyMe(i: nat, me: Proc, x: nat, it: Proc, n: nat, ncpu: nat, init: nat, ch: Choice)
    requires Ready(i, me, x, it, n, ncpu, init, init, ch)
    ensures DrowsyOk(i, me, i, me, Act(i, me, it, n, init, ch).me, ch)
    ensures forall k :: k != x ==> !(me.pc.User? && ch == DoKill(k))
  {
    hide Both, CanAct, WakeOk;
    WakeStep(i, me, x, it, n, ncpu, init, ch);
  }

  lemma DrowsyIt(i: nat, me: Proc, x: nat, it: Proc, n: nat, ncpu: nat, init: nat, ch: Choice)
    requires Ready(i, me, x, it, n, ncpu, init, init, ch) && x != i
    ensures DrowsyOk(i, me, x, it, Act(i, me, it, n, init, ch).it, ch)
  {
    hide Both, CanAct;
  }

  // ----- wait -----

  /** Inside wait(), on a CPU or not. */
  predicate Waits(pc: Pc) {
    InWait(pc) || ((pc.InSched? || pc.Off? || pc.Resumed?) && pc.k == ToWait)
  }

  /** wait() of process p goes from r to r' by returning. It has reaped a child that had exited; or failed to copy
      its status out; or looked at every process since it last woke and found no child, or only children that had
      not exited and that it is killed. */
  ghost predicate Returns(r: State, ch: Choice, r': State, p: nat)
    requires p < |r.procs| == |r'.procs|
  {
    var pc := r.procs[p].pc;
    || (&& pc.ScanHave? && pc.j < |r.procs| && r.procs[pc.j].parent == p && r.procs[pc.j].st == ZOMBIE
        && if ch == Fails then r'.procs[pc.j] == r.procs[pc.j].(lock := Nobody)
           else r'.procs[pc.j].st == UNUSED && r'.procs[pc.j].reaps == r.procs[pc.j].reaps + 1)
    || (&& pc.Scan? && pc.j >= |r.procs|
        && (forall k :: 0 <= k < |r.procs| ==> r'.procs[k].reaps == r.procs[k].reaps)
        && (pc.kids ==> r.procs[p].killed)
        && (p != r.init ==> forall k :: 0 <= k < |r.procs| && r.procs[k].parent == p ==>
              pc.kids && r.procs[k].st != ZOMBIE))
  }

  /** After any run, a thread inside wait() leaves it only so. In particular one that has slept scans again. */
  lemma WaitReturns(s: State, run: seq<Step>, r: State, st: Step, p: nat)
    requires Start(s) && Runs(s, run, r) && Enabled(r, st) && p < |r.procs| && Waits(r.procs[p].pc)
    requires var r' := Do(r, st); |r'.procs| == |r.procs| && !Waits(r'.procs[p].pc)
    ensures st.Go? && st.p == p && Do(r, st).procs[p].pc == User && Returns(r, st.ch, Do(r, st), p)
  {
    Reached(s, run, r);
    InvBoth(r, r.init, p, p);
    if st.Go? {
      WaitStep(r, st.p, st.ch, p);
    } else {
      hide SelfOk, PairOk;
    }
  }

  lemma WaitStep(r: State, q: nat, ch: Choice, p: nat)
    requires Inv(r, r.init) && Enabled(r, Go(q, ch)) && p < |r.procs| && Waits(r.procs[p].pc)
    requires !Waits(Do(r, Go(q, ch)).procs[p].pc)
    ensures q == p && Do(r, Go(q, ch)).procs[p].pc == User && Returns(r, ch, Do(r, Go(q, ch)), p)
  {
    var x := Target(q, r.procs[q].pc, |r.procs|, r.init, ch);
    if q != p {
      InvBoth(r, r.init, q, p);
      hide Inv;
      OthersWait(q, r.procs[q], x, r.procs[x], |r.procs|, |r.cpus|, r.init, ch);
    } else {
      InvBoth(r, r.init, p, x);
      forall k | 0 <= k < |r.procs| ensures Both(p, r.procs[p], k, r.procs[k], |r.procs|, |r.cpus|, r.init, r.init) {
        InvBoth(r, r.init, p, k);
      }
      hide Inv;
    }
  }

  // No other thread's step takes a thread out of wait().
  lemma OthersWait(i: nat, me: Proc, x: nat, it: Proc, n: nat, ncpu: nat, init: nat, ch: Choice)
    requires i < n && x < n && init < n && x == Target(i, me.pc, n, init, ch) && CanAct(i, me, x, it, init, ch)
    requires Waits(it.pc) && PairOk(i, me, x, it, init, init) && SelfOk(x, it, n, ncpu, init, init)
    ensures x != i ==> Waits(Act(i, me, it, n, init, ch).it.pc)
  {
  }

  /** A process asleep in wait() has a child, so wait() never sleeps for nothing. */
  lemma SleeperHasChild(s: State, run: seq<Step>, r: State, p: nat)
    requires Start(s) && Runs(s, run, r) && p < |r.procs|
    requires r.procs[p].st == SLEEPING && r.procs[p].chan == Self
    ensures r.procs[p].kid < |r.procs| && r.procs[r.procs[p].kid].parent == p
  {
    Reached(s, run, r);
    InvBoth(r, r.init, p, p);
    InvBoth(r, r.init, p, r.procs[p].kid);
  }

  /** A process other than init asleep in wait() has no exited child. */
  lemma NoZombieWhileWaiting(s: State, run: seq<Step>, r: State, p: nat, k: nat)
    requires Start(s) && Runs(s, run, r) && p < |r.procs| && p != r.init && k < |r.procs|
    requires r.procs[p].st == SLEEPING && r.procs[p].chan == Self && r.procs[k].parent == p
    ensures r.procs[k].st != ZOMBIE
  {
    Reached(s, run, r);
    InvBoth(r, r.init, p, k);
  }

  // ----- init -----

  ghost predicate InitAsleep(s: State) {
    && s.init < |s.procs| && s.procs[s.init].st == SLEEPING && s.procs[s.init].chan == Self
    && s.procs[s.init].lock == Nobody
  }

  /** Neither has init, while its lock is free, in a run where it misses no exit. */
  lemma NoZombieIfTimely(s: State, run: seq<Step>, r: State, k: nat)
    requires Start(s) && Runs(s, run, r) && Timely(s, run) && InitAsleep(r) && k < |r.procs|
    requires r.procs[k].parent == r.init
    ensures r.procs[k].st != ZOMBIE
  {
    StartInv(s, |s.procs|);
    RunInv(s, |s.procs|, run, r);
    InvBoth(r, |s.procs|, r.init, k);
  }

  /** Missed exits are a real exception: after any run, each that happens while init is asleep leaves it asleep
      with an exited child. One way: reparent hands init a child that has exited already. */
  lemma InitMissesGift(s: State, run: seq<Step>, b: State, q: nat, ch: Choice)
    requires Start(s) && Runs(s, run, b) && q < |b.procs| && b.procs[q].pc.GiveLock? && InitAsleep(b)
    requires InitMisses(b, Go(q, ch))
    ensures var r, k := Do(b, Go(q, ch)), b.procs[q].pc.j;
            k < |r.procs| && InitAsleep(r) && r.procs[k].parent == r.init && r.procs[k].st == ZOMBIE
  {
    Reached(s, run, b);
    InvBoth(b, b.init, q, b.init);
    InvBoth(b, b.init, q, b.procs[q].pc.j);
    hide Inv;
  }

  /** The other: a process that was given to init after it had read its parent exits. */
  lemma InitMissesExit(s: State, run: seq<Step>, b: State, q: nat, ch: Choice)
    requires Start(s) && Runs(s, run, b) && q < |b.procs| && b.procs[q].pc.Exit6? && InitAsleep(b)
    requires InitMisses(b, Go(q, ch))
    ensures var r := Do(b, Go(q, ch));
            q < |r.procs| && InitAsleep(r) && r.procs[q].parent == r.init && r.procs[q].st == ZOMBIE
  {
    Reached(s, run, b);
    InvBoth(b, b.init, q, b.init);
    hide Inv;
  }

  ghost predicate Leads(s: State, r: State) {
    exists run :: Runs(s, run, r)
  }

  lemma {:induction false} RunThen(s: State, run: seq<Step>, r: State, st: Step)
    requires Runs(s, run, r) && Enabled(r, st)
    ensures Runs(s, run + [st], Do(r, st))
    decreases |run|
  {
    hide Enabled, Do;
    if run == [] {
      assert Runs(Do(s, st), [], Do(r, st));
    } else {
      RunThen(Do(s, run[0]), run[1..], r, st);
      assert (run + [st])[1..] == run[1..] + [st];
    }
  }

  lemma Then(s: State, r: State, st: Step) returns (r': State)
    requires Leads(s, r) && Enabled(r, st)
    ensures r' == Do(r, st) && Leads(s, r')
  {
    hide Runs, Do, Enabled;
    var run :| Runs(s, run, r);
    RunThen(s, run, r, st);
    r' := Do(r, st);
  }

  /** Process i, running on CPU i. */
  function On(i: nat, parent: nat, lock: Holder, pc: Pc): Proc {
    Proc(RUNNING, parent, NoChan, false, lock, pc, i, 0, 0, 0)
  }

  function Slot(st: PState, parent: nat, pc: Pc): Proc {
    Proc(st, parent, NoChan, false, Nobody, pc, 3, 0, 0, 0)
  }

  function Three(a: Proc, b: Proc, c: Proc, cpus: seq<CpuPc>): State {
    State([a, b, c], cpus, 0)
  }

  // Process p runs and forks np.
  lemma Spawns(s: State, r: State, p: nat, np: nat) returns (r': State)
    requires Leads(s, r) && |r.procs| == |r.cpus| == 3 && p < 3 && np < 3 && p != np
    requires r.procs[p].st == RUNNABLE && r.procs[p] == Slot(RUNNABLE, r.procs[p].parent, Off(ToUser))
    requires r.cpus[p].Idle?
    requires r.procs[np] == Slot(UNUSED, 3, Gone)
    ensures Leads(s, r')
    ensures r' == State(r.procs[p := On(p, r.procs[p].parent, Nobody, User)][np := Slot(RUNNABLE, p, Off(ToUser))],
                        r.cpus[p := Hosts(p)], r.init)
  {
    hide Leads;
    r' := Then(s, r, Dispatch(p, p));
    r' := Then(s, r', Go(p, Succeeds));
    r' := Then(s, r', Go(p, DoFork(np)));
    r' := Then(s, r', Go(p, Succeeds));
    r' := Then(s, r', Go(p, Succeeds));
  }

  const FREE: seq<CpuPc> := [Idle, Idle, Idle]
  const BUSY: seq<CpuPc> := [Hosts(0), Hosts(1), Hosts(2)]

  // init, its child 1, and 1's child 2.
  lemma Family(s: State) returns (r: State)
    requires s == Three(Slot(RUNNABLE, 3, Off(ToUser)), Slot(UNUSED, 3, Gone), Slot(UNUSED, 3, Gone), FREE)
    ensures Leads(s, r)
    ensures r == Three(On(0, 3, Nobody, User), On(1, 0, Nobody, User), Slot(RUNNABLE, 1, Off(ToUser)),
                       [Hosts(0), Hosts(1), Idle])
  {
    assert Runs(s, [], s);
    hide Runs, Do, Enabled;
    assert Leads(s, s);
    hide Leads;
    r := Spawns(s, s, 0, 1);
    assert r == Three(On(0, 3, Nobody, User), Slot(RUNNABLE, 0, Off(ToUser)), Slot(UNUSED, 3, Gone),
                      [Hosts(0), Idle, Idle]);
    r := Spawns(s, r, 1, 2);
  }

  // 2 starts to exit and reads its parent: 1.
  lemma ChildBegins(s: State, r0: State) returns (r: State)
    requires Leads(s, r0)
    requires r0 == Three(On(0, 3, Nobody, User), On(1, 0, Nobody, User), Slot(RUNNABLE, 1, Off(ToUser)),
                         [Hosts(0), Hosts(1), Idle])
    ensures Leads(s, r) && r == Three(On(0, 3, Nobody, User), On(1, 0, Nobody, User), On(2, 1, Nobody, Exit2(1)), BUSY)
  {
    hide Leads;
    r := Then(s, r0, Dispatch(2, 2));
    r := Then(s, r, Go(2, Succeeds));
    r := Then(s, r, Go(2, DoExit));
    r := Then(s, r, Go(2, Succeeds));
  }

  // 1 exits too, and gives 2 to init.
  lemma ParentGives(s: State, r0: State) returns (r: State)
    requires Leads(s, r0)
    requires r0 == Three(On(0, 3, Nobody, User), On(1, 0, Nobody, User), On(2, 1, Nobody, Exit2(1)), BUSY)
    ensures Leads(s, r)
    ensures r == Three(On(0, 3, Thread(1), User), On(1, 0, Thread(1), Give(0, 3)), On(2, 0, Nobody, Exit2(1)), BUSY)
  {
    hide Leads;
    r := Then(s, r0, Go(1, DoExit));
    r := Then(s, r, Go(1, Succeeds));
    r := Then(s, r, Go(1, Succeeds));
    r := Then(s, r, Go(1, Succeeds));
    assert r == Three(On(0, 3, Thread(1), User), On(1, 0, Thread(1), Give(0, 0)), On(2, 1, Nobody, Exit2(1)), BUSY);
    r := Then(s, r, Go(1, Succeeds));
    r := Then(s, r, Go(1, Succeeds));
    r := Then(s, r, Go(1, Succeeds));
    r := Then(s, r, Go(1, Succeeds));
  }

  // It leaves its CPU, and init reaps it.
  lemma ParentReaped(s: State, r0: State) returns (r: State)
    requires Leads(s, r0)
    requires r0 == Three(On(0, 3, Thread(1), User), On(1, 0, Thread(1), Give(0, 3)), On(2, 0, Nobody, Exit2(1)), BUSY)
    ensures Leads(s, r)
    ensures r == Three(On(0, 3, Nobody, User), Slot(UNUSED, 3, Gone).(exits := 1, reaps := 1),
                       On(2, 0, Nobody, Exit2(1)), [Hosts(0), Idle, Hosts(2)])
  {
    hide Leads;
    r := Then(s, r0, Go(1, Succeeds));
    r := Then(s, r, Go(1, Succeeds));
    r := Then(s, r, Swtch(1));
    r := Then(s, r, Release(1));
    assert r == Three(On(0, 3, Nobody, User), Slot(ZOMBIE, 0, Off(Never)).(exits := 1), On(2, 0, Nobody, Exit2(1)),
                      [Hosts(0), Idle, Hosts(2)]);
    r := Then(s, r, Go(0, DoWait));
    r := Then(s, r, Go(0, Succeeds));
    r := Then(s, r, Go(0, Succeeds));
    r := Then(s, r, Go(0, Succeeds));
    r := Then(s, r, Go(0, Succeeds));
  }

  // init waits again, finds 2 not exited yet, and sleeps.
  lemma InitSleeps(s: State, r0: State) returns (r: State)
    requires Leads(s, r0)
    requires r0 == Three(On(0, 3, Nobody, User), Slot(UNUSED, 3, Gone).(exits := 1, reaps := 1),
                         On(2, 0, Nobody, Exit2(1)), [Hosts(0), Idle, Hosts(2)])
    ensures Leads(s, r)
    ensures r == Three(Slot(SLEEPING, 3, Off(ToWait)).(chan := Self, kid := 2), r0.procs[1], r0.procs[2],
                       [Idle, Idle, Hosts(2)])
  {
    hide Leads;
    r := Then(s, r0, Go(0, DoWait));
    r := Then(s, r, Go(0, Succeeds));
    r := Then(s, r, Go(0, Succeeds));
    r := Then(s, r, Go(0, Succeeds));
    r := Then(s, r, Go(0, Succeeds));
    r := Then(s, r, Go(0, Succeeds));
    assert r == Three(On(0, 3, Thread(0), Scan(3, true)).(kid := 2), r0.procs[1], r0.procs[2],
                      [Hosts(0), Idle, Hosts(2)]);
    r := Then(s, r, Go(0, Succeeds));
    r := Then(s, r, Swtch(0));
    r := Then(s, r, Release(0));
  }

  // 2 finishes its exit with the parent it read.
  lemma ChildFinishes(s: State, r0: State) returns (r: State)
    requires Leads(s, r0)
    requires r0 == Three(Slot(SLEEPING, 3, Off(ToWait)).(chan := Self, kid := 2),
                         Slot(UNUSED, 3, Gone).(exits := 1, reaps := 1), On(2, 0, Nobody, Exit2(1)),
                         [Idle, Idle, Hosts(2)])
    ensures Leads(s, r)
    ensures r == Three(r0.procs[0], r0.procs[1].(lock := Thread(2)), On(2, 0, Thread(2), Exit6(1)), r0.cpus)
  {
    hide Leads;
    r := Then(s, r0, Go(2, Succeeds));
    r := Then(s, r, Go(2, Succeeds));
    r := Then(s, r, Go(2, Succeeds));
    r := Then(s, r, Go(2, Succeeds));
    r := Then(s, r, Go(2, Succeeds));
    r := Then(s, r, Go(2, Succeeds));
  }

  /** Such a run exists: init sleeps in wait() with an exited child. */
  lemma InitSleepsOnZombie() returns (s: State, r: State, k: nat)
    ensures Start(s) && Leads(s, r) && InitAsleep(r)
    ensures k < |r.procs| && r.procs[k].parent == r.init && r.procs[k].st == ZOMBIE
  {
    hide Leads;
    s := Three(Slot(RUNNABLE, 3, Off(ToUser)), Slot(UNUSED, 3, Gone), Slot(UNUSED, 3, Gone), FREE);
    r := Family(s);
    r := ChildBegins(s, r);
    r := ParentGives(s, r);
    r := ParentReaped(s, r);
    r := InitSleeps(s, r);
    r := ChildFinishes(s, r);
    r := Then(s, r, Go(2, Succeeds));
    k := 2;
  }
}
