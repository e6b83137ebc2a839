/** What pipewrite and piperead promise their callers, over every run of PipeSystem: which bytes each call put in
    or took out. The calls are recorded along the run; no step depends on the record. */
module PipeCalls {
  import opened Machine
  import opened Pipe
  import opened PipeSystem

  /** A call of process p, and what it returned. `fault` says that a copy of a byte failed in it, `dry` that it has
      found the pipe empty while it copied. */
  datatype Invocation = Invocation(p: nat, op: Op, ret: Option<int>, fault: bool, dry: bool)

  /** All calls so far; the latest of each process; and for each byte of `stored` and of `removed` the call that
      moved it. */
  datatype History = History(calls: seq<Invocation>, cur: seq<nat>, putBy: seq<nat>, tookBy: seq<nat>)

  /** What a call returns that finishes at pc. */
  function Result(pc: Pc): int {
    if !pc.Wake? then -1 else if pc.op.Write? then pc.op.i else if pc.op.Read? then pc.op.got else 0
  }

  ghost predicate Fits(s: State, h: History) {
    |h.cur| == |s.pcs| && forall p :: 0 <= p < |s.pcs| && !s.pcs[p].Idle? ==> h.cur[p] < |h.calls|
  }

  /** The record of a call after a step of its process. */
  function Later(s: State, st: Step, call: Invocation, over: bool): Invocation
    requires st.Go? && st.p < |s.pcs|
  {
    var pc := s.pcs[st.p];
    call.(ret := if over then Some(Result(pc)) else call.ret, fault := call.fault || st.fault,
          dry := call.dry || (pc.Copy? && Empty(s.sh.ring)))
  }

  ghost function Record(s: State, st: Step, h: History): History
    requires Enabled(s, st) && Fits(s, h)
  {
    match st
    case Call(p, op) => h.(calls := h.calls + [Invocation(p, op, None, false, false)], cur := h.cur[p := |h.calls|])
    case Kill(_) => h
    case Go(p, _) =>
      var s', c := Do(s, st), h.cur[p];
      History(h.calls[c := Later(s, st, h.calls[c], s'.pcs[p].Idle?)], h.cur,
              if |s'.sh.stored| > |s.sh.stored| then h.putBy + [c] else h.putBy,
              if |s'.sh.removed| > |s.sh.removed| then h.tookBy + [c] else h.tookBy)
  }

  /** h and h' are the records at the beginning and at the end of a run. */
  ghost predicate Recorded(s: State, run: seq<Step>, h: History, h': History)
    decreases |run|
  {
    if run == [] then h' == h
    else Enabled(s, run[0]) && Fits(s, h) && Recorded(Do(s, run[0]), run[1..], Record(s, run[0], h), h')
  }

  /** The bytes that call c moved, in order. */
  ghost function Part(bytes: seq<byte>, who: seq<nat>, c: nat): seq<byte>
    requires |who| == |bytes|
  {
    if bytes == [] then []
    else
      var n := |bytes| - 1;
      Part(bytes[..n], who[..n], c) + if who[n] == c then [bytes[n]] else []
  }

  lemma PartMore(bytes: seq<byte>, who: seq<nat>, x: byte, d: nat, c: nat)
    requires |who| == |bytes|
    ensures Part(bytes + [x], who + [d], c) == if d == c then Part(bytes, who, c) + [x] else Part(bytes, who, c)
  {
    assert (bytes + [x])[..|bytes|] == bytes && (who + [d])[..|who|] == who;
  }

  lemma {:induction false} PartNone(bytes: seq<byte>, who: seq<nat>, c: nat)
    requires |who| == |bytes| && c !in who
    ensures Part(bytes, who, c) == []
    decreases |who|
  {
    if bytes != [] {
      PartNone(bytes[..|bytes| - 1], who[..|who| - 1], c);
    }
  }

  lemma {:induction false} PartSome(bytes: seq<byte>, who: seq<nat>, c: nat)
    requires |who| == |bytes| && c in who
    ensures Part(bytes, who, c) != []
    decreases |who|
  {
    var n := |bytes| - 1;
    if who[n] != c {
      assert who == who[..n] + [who[n]];
      PartSome(bytes[..n], who[..n], c);
    }
  }

  // ----- The invariant -----

  /** The operation at pc, with how far it has got. */
  function OpAt(pc: Pc): Op
    requires !pc.Idle?
  {
    if pc.Copy? then Read(pc.n, pc.i) else pc.op
  }

  predicate SameCall(op: Op, now: Op) {
    match op
    case Write(src, _) => now.Write? && now.src == src && now.i <= |src|
    case Read(n, _) => now.Read? && now.n == n && now.got <= n
    case Close(w) => now == Close(w)
  }

  /** The process at pc is in `call`, which has put `put` in and taken `took` out so far. */
  ghost predicate Under(call: Invocation, sh: Shared, pc: Pc, put: seq<byte>, took: seq<byte>) {
    && !pc.Idle? && SameCall(call.op, OpAt(pc))
    && (call.op.Write? ==>
          |put| == OpAt(pc).i && (pc.Wake? && !pc.sleeps ==> pc.op.i == |call.op.src| || call.fault))
    && (call.op.Read? ==>
          if pc.Copy? then |took| == pc.i
          else if pc.Wake? then Handed(call, sh, pc.op.got, |took|)
          else pc.op.got == 0 && took == [])
    && (pc.Copy? ==> call.op.Read?) && (pc.Wake? && pc.sleeps ==> call.op.Write?)
    && (call.op.Close? && pc.Wake? ==> Shut(call.op, sh))
  }

  /** The end that the close is for is closed. */
  predicate Shut(op: Op, sh: Shared)
    requires op.Close?
  {
    if op.writable then !sh.writeopen else !sh.readopen
  }

  /** A read call of n bytes has handed over m of those it took. */
  ghost predicate Handed(call: Invocation, sh: Shared, m: int, took: nat)
    requires call.op.Read?
  {
    && 0 <= m <= call.op.n && m <= took <= m + (if call.fault then 1 else 0)
    && (m == call.op.n || call.fault || call.dry)
    && (m == 0 && call.op.n > 0 && !call.fault ==> !sh.writeopen)
  }

  /** The call has returned m. */
  ghost predicate Over(call: Invocation, sh: Shared, killed: bool, m: int, put: seq<byte>, took: seq<byte>) {
    && (call.op.Write? ==>
          if m == -1 then killed || !sh.readopen else m == |put| && (m == |call.op.src| || call.fault))
    && (call.op.Read? ==> if m == -1 then killed && took == [] else Handed(call, sh, m, |took|))
    && (call.op.Close? ==> Shut(call.op, sh))
  }

  ghost predicate CallOk(s: State, h: History, c: nat)
    requires c < |h.calls| && |h.cur| == |s.pcs| == |s.killed|
    requires |h.putBy| == |s.sh.stored| && |h.tookBy| == |s.sh.removed|
  {
    var call, put, took := h.calls[c], Part(s.sh.stored, h.putBy, c), Part(s.sh.removed, h.tookBy, c);
    && call.p < |s.pcs| && c <= h.cur[call.p]
    && (if call.op.Write? then put <= call.op.src else put == []) && (!call.op.Read? ==> took == [])
    && match call.ret
       case None => h.cur[call.p] == c && Under(call, s.sh, s.pcs[call.p], put, took)
       case Some(m) => Over(call, s.sh, s.killed[call.p], m, put, took)
  }

  /** Bytes of one process are in the order of its calls. */
  ghost predicate InCallOrder(h: History) {
    && (forall k :: 0 <= k < |h.putBy| ==> h.putBy[k] < |h.calls|)
    && (forall j, k :: 0 <= j < k < |h.putBy| && h.calls[h.putBy[j]].p == h.calls[h.putBy[k]].p ==>
        h.putBy[j] <= h.putBy[k])
  }

  /** Bytes that one call took out are next to each other. */
  ghost predicate Together(taken: seq<nat>) {
    forall i, j, k :: 0 <= i < j < k < |taken| && taken[i] == taken[k] ==> taken[j] == taken[i]
  }

  ghost predicate Busy(s: State, h: History, p: nat)
    requires p < |s.pcs| == |h.cur|
  {
    && (!s.pcs[p].Idle? ==> h.cur[p] < |h.calls| && h.calls[h.cur[p]].p == p && h.calls[h.cur[p]].ret == None)
    && (s.pcs[p].Copy? && s.pcs[p].i == 0 ==> !Empty(s.sh.ring) || !s.sh.writeopen)
    && (s.pcs[p].Copy? && s.pcs[p].i > 0 ==> h.tookBy != [] && h.tookBy[|h.tookBy| - 1] == h.cur[p])
  }

  /** An end is closed only by a call that closes it. */
  ghost predicate ClosedByCall(s: State, h: History) {
    && (!s.sh.writeopen ==> exists c :: 0 <= c < |h.calls| && h.calls[c].op == Close(true))
    && (!s.sh.readopen ==> exists c :: 0 <= c < |h.calls| && h.calls[c].op == Close(false))
  }

  ghost predicate HistInv(s: State, h: History) {
    && |h.cur| == |s.pcs| == |s.killed| && |h.putBy| == |s.sh.stored| && |h.tookBy| == |s.sh.removed|
    && (forall p :: 0 <= p < |s.pcs| ==> Busy(s, h, p))
    && (forall c :: 0 <= c < |h.calls| ==> CallOk(s, h, c))
    && ClosedByCall(s, h)
    && InCallOrder(h) && Together(h.tookBy) && (forall k :: 0 <= k < |h.tookBy| ==> h.tookBy[k] < |h.calls|)
  }

  // ----- Every step keeps it -----

  // What one step of a process does to what it has stored and removed.
  lemma ActMoves(sh: Shared, pc: Pc, killed: bool, procs: nat, fault: bool)
    requires |sh.ring.data| == PIPESIZE && !pc.Idle?
    ensures var m := Act(sh, pc, killed, procs, fault);
            && (m.sh.stored == sh.stored ||
                (&& pc.Loop? && pc.op.Write? && pc.op.i < |pc.op.src| && m.sh.stored == sh.stored + [pc.op.src[pc.op.i]]
                 && m.sh.removed == sh.removed && m.pc == Loop(Write(pc.op.src, pc.op.i + 1))))
            && (m.sh.removed == sh.removed ||
                (pc.Copy? && |m.sh.removed| == |sh.removed| + 1 && sh.removed < m.sh.removed))
  {
    hide Store, Remove, Front, Full, Empty;
  }

  /** How the call of process p stands after its step. */
  ghost predicate StandsAfter(s: State, p: nat, fault: bool, call: Invocation, put: seq<byte>, took: seq<byte>)
    requires p < |s.pcs| == |s.killed| && |s.sh.ring.data| == PIPESIZE
  {
    var m := Act(s.sh, s.pcs[p], s.killed[p], |s.pcs|, fault);
    var call' := Later(s, Go(p, fault), call, m.pc.Idle?);
    var put' := if m.sh.stored == s.sh.stored then put else put + [m.sh.stored[|m.sh.stored| - 1]];
    var took' := if m.sh.removed == s.sh.removed then took else took + [m.sh.removed[|m.sh.removed| - 1]];
    if m.pc.Idle? then Over(call', m.sh, s.killed[p], Result(s.pcs[p]), put', took')
    else Under(call', m.sh, m.pc, put', took')
  }

  lemma LoopStands(s: State, p: nat, fault: bool, call: Invocation, put: seq<byte>, took: seq<byte>)
    requires p < |s.pcs| == |s.killed| && |s.sh.ring.data| == PIPESIZE && Under(call, s.sh, s.pcs[p], put, took)
    requires s.pcs[p].Loop?
    ensures StandsAfter(s, p, fault, call, put, took)
  {
    hide Store, Remove, Front, Full, Empty;
  }

  lemma RestStands(s: State, p: nat, fault: bool, call: Invocation, put: seq<byte>, took: seq<byte>)
    requires p < |s.pcs| == |s.killed| && |s.sh.ring.data| == PIPESIZE && Under(call, s.sh, s.pcs[p], put, took)
    requires s.pcs[p].Copy? && s.pcs[p].i == 0 ==> !Empty(s.sh.ring) || !s.sh.writeopen
    requires !s.pcs[p].Loop?
    ensures StandsAfter(s, p, fault, call, put, took)
  {
    hide Store, Remove, Front, Full, Empty;
  }

  lemma PokedSame(pcs: seq<Pc>, pc: Pc, q: nat)
    requires q < |pcs|
    ensures var x, y := pcs[q], Poked(pcs, pc)[q];
            x == y || (x.Asleep? && y == x.(woken := true))
  {
  }

  // Ends once closed stay closed, and a process once killed stays killed.
  ghost predicate Closing(sh: Shared, sh': Shared) {
    (!sh.readopen ==> !sh'.readopen) && (!sh.writeopen ==> !sh'.writeopen)
  }

  lemma UnderPoked(call: Invocation, sh: Shared, sh': Shared, x: Pc, y: Pc, put: seq<byte>, took: seq<byte>)
    requires Under(call, sh, x, put, took) && (x == y || (x.Asleep? && y == x.(woken := true))) && Closing(sh, sh')
    ensures Under(call, sh', y, put, took)
  {
  }

  lemma OverStays(call: Invocation, sh: Shared, sh': Shared, killed: bool, killed': bool, m: int, put: seq<byte>,
                  took: seq<byte>)
    requires Over(call, sh, killed, m, put, took) && Closing(sh, sh') && (killed ==> killed')
    ensures Over(call, sh', killed', m, put, took)
  {
  }

  lemma ActCloses(sh: Shared, pc: Pc, killed: bool, procs: nat, fault: bool)
    requires |sh.ring.data| == PIPESIZE
    ensures Closing(sh, Act(sh, pc, killed, procs, fault).sh)
  {
    hide Store, Remove, Front, Full, Empty;
  }

  // The parts of call c after a step of p, whose call is number d.
  lemma GoParts(s: State, p: nat, fault: bool, h: History, c: nat)
    requires HistInv(s, h) && Enabled(s, Go(p, fault)) && Fits(s, h)
    ensures var s', h', d := Do(s, Go(p, fault)), Record(s, Go(p, fault), h), h.cur[p];
            && |h'.calls| == |h.calls| && |h'.cur| == |s'.pcs| && |h'.putBy| == |s'.sh.stored|
            && |h'.tookBy| == |s'.sh.removed|
            && Part(s'.sh.stored, h'.putBy, c) == Part(s.sh.stored, h.putBy, c)
               + (if c == d && s'.sh.stored != s.sh.stored then [s'.sh.stored[|s.sh.stored|]] else [])
            && Part(s'.sh.removed, h'.tookBy, c) == Part(s.sh.removed, h.tookBy, c)
               + (if c == d && s'.sh.removed != s.sh.removed then [s'.sh.removed[|s.sh.removed|]] else [])
  {
    hide Act, CallOk, Poked, InCallOrder, Together, Part;
    var pc, d := s.pcs[p], h.cur[p];
    var m := Act(s.sh, pc, s.killed[p], |s.pcs|, fault);
    ActMoves(s.sh, pc, s.killed[p], |s.pcs|, fault);
    if m.sh.stored != s.sh.stored {
      PartMore(s.sh.stored, h.putBy, m.sh.stored[|s.sh.stored|], d, c);
    }
    if m.sh.removed != s.sh.removed {
      var n := |s.sh.removed|;
      assert m.sh.removed == s.sh.removed + [m.sh.removed[n]];
      PartMore(s.sh.removed, h.tookBy, m.sh.removed[n], d, c);
    }
  }

  lemma GoCall(s: State, p: nat, fault: bool, h: History, c: nat)
    requires HistInv(s, h) && Enabled(s, Go(p, fault)) && Fits(s, h) && c < |h.calls|
    ensures var s', h' := Do(s, Go(p, fault)), Record(s, Go(p, fault), h);
            && |h'.calls| == |h.calls| && |h'.cur| == |s'.pcs| && |h'.putBy| == |s'.sh.stored|
            && |h'.tookBy| == |s'.sh.removed| && CallOk(s', h', c)
  {
    hide Act, Under, Over, Poked, InCallOrder, Together, Part;
    var pc, call := s.pcs[p], h.calls[c];
    assert Busy(s, h, p) && CallOk(s, h, c);
    GoParts(s, p, fault, h, c);
    ActMoves(s.sh, pc, s.killed[p], |s.pcs|, fault);
    ActCloses(s.sh, pc, s.killed[p], |s.pcs|, fault);
    var sh' := Do(s, Go(p, fault)).sh;
    var put, took := Part(s.sh.stored, h.putBy, c), Part(s.sh.removed, h.tookBy, c);
    assert put + [] == put && took + [] == took;
    if c == h.cur[p] {
      if pc.Loop? {
        LoopStands(s, p, fault, call, put, took);
      } else {
        RestStands(s, p, fault, call, put, took);
      }
      UnderIs(call, s.sh, pc, put, took);
    } else if call.ret == None {
      PokedSame(s.pcs, pc, call.p);
      UnderPoked(call, s.sh, sh', s.pcs[call.p], Poked(s.pcs, pc)[call.p], put, took);
    } else {
      OverStays(call, s.sh, sh', s.killed[call.p], s.killed[call.p], call.ret.value, put, took);
    }
  }

  lemma UnderIs(call: Invocation, sh: Shared, pc: Pc, put: seq<byte>, took: seq<byte>)
    requires Under(call, sh, pc, put, took)
    ensures SameCall(call.op, OpAt(pc)) && (call.op.Write? ==> |put| == OpAt(pc).i)
    ensures pc.Copy? ==> call.op.Read? && |took| == pc.i
  {
  }

  lemma GoBusy(s: State, p: nat, fault: bool, h: History, q: nat)
    requires Inv(s, false) && HistInv(s, h) && Enabled(s, Go(p, fault)) && Fits(s, h) && q < |s.pcs|
    ensures var s', h' := Do(s, Go(p, fault)), Record(s, Go(p, fault), h);
            q < |s'.pcs| == |h'.cur| && Busy(s', h', q)
  {
    hide InCallOrder, Together, Part, Poked, Fifo, PcOk, SleepOk, CallOk, Empty;
    var pc, m := s.pcs[p], Act(s.sh, s.pcs[p], s.killed[p], |s.pcs|, fault);
    assert Busy(s, h, p) && Busy(s, h, q) && AtOk(s, p, false) && AtOk(s, q, false);
    PokedSame(s.pcs, pc, q);
    if q == p {
      ActCopies(s.sh, pc, s.killed[p], |s.pcs|, fault);
    } else {
      hide Act;
      ActMoves(s.sh, pc, s.killed[p], |s.pcs|, fault);
      if !HoldsLock(pc) { ActOutside(s.sh, pc, s.killed[p], |s.pcs|, fault); }
    }
  }

  lemma GoCloses(s: State, p: nat, fault: bool, h: History)
    requires HistInv(s, h) && Enabled(s, Go(p, fault)) && Fits(s, h)
    ensures ClosedByCall(Do(s, Go(p, fault)), Record(s, Go(p, fault), h))
  {
    hide Part, Poked, Over, Together, InCallOrder;
    var s', h', pc, d := Do(s, Go(p, fault)), Record(s, Go(p, fault), h), s.pcs[p], h.cur[p];
    assert Busy(s, h, p) && CallOk(s, h, d);
    UnderIs(h.calls[d], s.sh, pc, Part(s.sh.stored, h.putBy, d), Part(s.sh.removed, h.tookBy, d));
    ActShuts(s.sh, pc, s.killed[p], |s.pcs|, fault);
    hide Act, Under;
    assert forall c :: 0 <= c < |h.calls| ==> h'.calls[c].op == h.calls[c].op;
    assert h'.calls[d].op == h.calls[d].op;
    if !s.sh.writeopen {
      var c :| 0 <= c < |h.calls| && h.calls[c].op == Close(true);
      assert h'.calls[c].op == Close(true);
    }
    if !s.sh.readopen {
      var c :| 0 <= c < |h.calls| && h.calls[c].op == Close(false);
      assert h'.calls[c].op == Close(false);
    }
  }

  lemma ActShuts(sh: Shared, pc: Pc, killed: bool, procs: nat, fault: bool)
    requires |sh.ring.data| == PIPESIZE
    ensures var m := Act(sh, pc, killed, procs, fault);
            && (sh.writeopen && !m.sh.writeopen ==> pc.Loop? && pc.op == Close(true))
            && (sh.readopen && !m.sh.readopen ==> pc.Loop? && pc.op == Close(false))
  {
    hide Store, Remove, Front, Full, Empty;
  }

  lemma ActCopies(sh: Shared, pc: Pc, killed: bool, procs: nat, fault: bool)
    requires |sh.ring.data| == PIPESIZE && !pc.Idle?
    ensures var m := Act(sh, pc, killed, procs, fault);
            && (m.pc.Copy? && m.pc.i > 0 ==> |m.sh.removed| == |sh.removed| + 1)
            && (m.pc.Copy? && m.pc.i == 0 ==> !Empty(m.sh.ring) || !m.sh.writeopen)
  {
    hide Store, Remove, Front, Full, Empty;
  }

  lemma GoOrder(s: State, p: nat, fault: bool, h: History)
    requires HistInv(s, h) && Enabled(s, Go(p, fault)) && Fits(s, h)
    ensures var h' := Record(s, Go(p, fault), h);
            InCallOrder(h') && forall k :: 0 <= k < |h'.tookBy| ==> h'.tookBy[k] < |h'.calls|
  {
    hide Part, Act, Poked, Under, Over, Together;
    var h', d := Record(s, Go(p, fault), h), h.cur[p];
    assert Busy(s, h, p);
    assert forall c :: 0 <= c < |h.calls| ==> h'.calls[c].p == h.calls[c].p;
    forall j | 0 <= j < |h.putBy| && h.calls[h.putBy[j]].p == p ensures h.putBy[j] <= d {
      assert CallOk(s, h, h.putBy[j]);
    }
  }

  lemma GoTogether(s: State, p: nat, fault: bool, h: History)
    requires HistInv(s, h) && Enabled(s, Go(p, fault)) && Fits(s, h)
    ensures Together(Record(s, Go(p, fault), h).tookBy)
  {
    hide Act, Poked, InCallOrder, Over;
    var pc, d := s.pcs[p], h.cur[p];
    assert Busy(s, h, p) && CallOk(s, h, d);
    ActMoves(s.sh, pc, s.killed[p], |s.pcs|, fault);
    if pc.Copy? && pc.i == 0 && d in h.tookBy {
      PartSome(s.sh.removed, h.tookBy, d);
      assert false;
    }
    hide Part;
    TogetherMore(h.tookBy, d);
  }

  lemma TogetherMore(taken: seq<nat>, d: nat)
    requires Together(taken)
    ensures d !in taken || taken[|taken| - 1] == d ==> Together(taken + [d])
  {
  }

  lemma CallKeeps(s: State, p: nat, op: Op, h: History)
    requires HistInv(s, h) && Enabled(s, PipeSystem.Step.Call(p, op)) && Fits(s, h)
    ensures HistInv(Do(s, PipeSystem.Step.Call(p, op)), Record(s, PipeSystem.Step.Call(p, op), h))
  {
    hide Over;
    var st := PipeSystem.Step.Call(p, op);
    var s', h', n := Do(s, st), Record(s, st, h), |h.calls|;
    PartNone(s.sh.stored, h.putBy, n);
    PartNone(s.sh.removed, h.tookBy, n);
    hide Part;
    forall q | 0 <= q < |s'.pcs| ensures Busy(s', h', q) {
      assert Busy(s, h, q);
    }
    forall c | 0 <= c < |h'.calls| ensures CallOk(s', h', c) {
      if c < n { assert CallOk(s, h, c); }
    }
    assert forall c :: 0 <= c < n ==> h'.calls[c].op == h.calls[c].op;
  }

  lemma KillKeeps(s: State, p: nat, h: History)
    requires HistInv(s, h) && Enabled(s, Kill(p))
    ensures HistInv(Do(s, Kill(p)), h)
  {
    hide Over, Part, InCallOrder, Together, Under;
    var s' := Do(s, Kill(p));
    forall q | 0 <= q < |s'.pcs| ensures Busy(s', h, q) {
      assert Busy(s, h, q);
    }
    forall c | 0 <= c < |h.calls| ensures CallOk(s', h, c) {
      assert CallOk(s, h, c);
      if h.calls[c].ret == None {
        UnderPoked(h.calls[c], s.sh, s.sh, s.pcs[h.calls[c].p], s'.pcs[h.calls[c].p], Part(s.sh.stored, h.putBy, c),
                   Part(s.sh.removed, h.tookBy, c));
      } else {
        OverStays(h.calls[c], s.sh, s.sh, s.killed[h.calls[c].p], s'.killed[h.calls[c].p], h.calls[c].ret.value,
                  Part(s.sh.stored, h.putBy, c), Part(s.sh.removed, h.tookBy, c));
      }
    }
  }

  lemma BusyFits(s: State, h: History)
    requires HistInv(s, h)
    ensures Fits(s, h)
  {
    hide CallOk, InCallOrder, Together;
    forall p | 0 <= p < |s.pcs| && !s.pcs[p].Idle? ensures h.cur[p] < |h.calls| {
      assert Busy(s, h, p);
    }
  }

  lemma StepKeepsHistory(s: State, st: Step, h: History)
    requires Inv(s, false) && HistInv(s, h) && Enabled(s, st)
    ensures Fits(s, h) && HistInv(Do(s, st), Record(s, st, h))
  {
    BusyFits(s, h);
    match st
    case Call(p, op) => CallKeeps(s, p, op, h);
    case Kill(p) => KillKeeps(s, p, h);
    case Go(p, fault) =>
      hide CallOk, Busy, Act, InCallOrder, Together, ClosedByCall, Inv;
      var s', h' := Do(s, st), Record(s, st, h);
      GoParts(s, p, fault, h, 0);
      GoOrder(s, p, fault, h);
      GoTogether(s, p, fault, h);
      GoCloses(s, p, fault, h);
      forall c | 0 <= c < |h'.calls| ensures CallOk(s', h', c) {
        GoCall(s, p, fault, h, c);
      }
      forall q | 0 <= q < |s'.pcs| ensures Busy(s', h', q) {
        GoBusy(s, p, fault, h, q);
      }
  }

  // ----- Runs -----

  ghost function Nothing(s: State): History {
    History([], seq(|s.pcs|, _ => 0), [], [])
  }

  lemma {:induction false} RunKeepsHistory(s: State, run: seq<Step>, r: State, h: History)
    returns (h': History)
    requires Inv(s, false) && HistInv(s, h) && Runs(s, run, r)
    ensures Recorded(s, run, h, h') && Inv(r, false) && HistInv(r, h')
    decreases |run|
  {
    h' := h;
    if run != [] {
      StepKeeps(s, run[0], false);
      StepKeepsHistory(s, run[0], h);
      h' := RunKeepsHistory(Do(s, run[0]), run[1..], r, Record(s, run[0], h));
    }
  }

  lemma {:induction false} RecordedOnce(s: State, run: seq<Step>, h: History, h1: History, h2: History)
    requires Recorded(s, run, h, h1) && Recorded(s, run, h, h2)
    ensures h1 == h2
    decreases |run|
  {
    if run != [] {
      RecordedOnce(Do(s, run[0]), run[1..], Record(s, run[0], h), h1, h2);
    }
  }

  lemma Reached(s: State, run: seq<Step>, r: State, h: History)
    requires Start(s) && Runs(s, run, r) && Recorded(s, run, Nothing(s), h)
    ensures Inv(r, false) && HistInv(r, h)
  {
    StartInv(s, false);
    var h' := RunKeepsHistory(s, run, r, Nothing(s));
    RecordedOnce(s, run, Nothing(s), h, h');
  }

  /** Every run has a record. */
  lemma HasRecord(s: State, run: seq<Step>, r: State) returns (h: History)
    requires Start(s) && Runs(s, run, r)
    ensures Recorded(s, run, Nothing(s), h)
  {
    StartInv(s, false);
    h := RunKeepsHistory(s, run, r, Nothing(s));
  }

  /** In every run, kills, faults and sleeps included: what a write call has put into the pipe is the beginning of
      what it was given, and as much of it as it says: op.i bytes while it runs, and the number it returns. It returns
      all of them unless a byte could not be copied, the read end is closed or its process is killed. Calls that do
      not write put nothing in. */
  lemma WritesArePrefixes(s: State, run: seq<Step>, r: State, h: History, c: nat)
    requires Start(s) && Runs(s, run, r) && Recorded(s, run, Nothing(s), h) && c < |h.calls|
    ensures |h.putBy| == |r.sh.stored| && |h.cur| == |r.pcs|
    ensures var call, put := h.calls[c], Part(r.sh.stored, h.putBy, c);
            if !call.op.Write? then put == []
            else
              && |put| <= |call.op.src| && put == call.op.src[..|put|]
              && (call.ret == None ==>
                    && call.p < |r.pcs| && !r.pcs[call.p].Idle? && OpAt(r.pcs[call.p]) == Write(call.op.src, |put|))
              && (call.ret.Some? ==>
                    if call.ret.value == -1 then call.p < |r.killed| && (r.killed[call.p] || !r.sh.readopen)
                    else call.ret.value == |put| && (|put| == |call.op.src| || call.fault))
  {
    Reached(s, run, r, h);
    assert CallOk(r, h, c);
  }

  /** And the bytes that come from one process are in the order of its calls. */
  lemma CallsInOrder(s: State, run: seq<Step>, r: State, h: History, j: nat, k: nat)
    requires Start(s) && Runs(s, run, r) && Recorded(s, run, Nothing(s), h) && j < k < |h.putBy|
    ensures h.putBy[j] < |h.calls| && h.putBy[k] < |h.calls|
    ensures h.calls[h.putBy[j]].p == h.calls[h.putBy[k]].p ==> h.putBy[j] <= h.putBy[k]
  {
    Reached(s, run, r, h);
  }

  /** What the calls below n put in, one call after the other. */
  ghost function Joined(bytes: seq<byte>, who: seq<nat>, n: nat): seq<byte>
    requires |who| == |bytes|
  {
    if n == 0 then [] else Joined(bytes, who, n - 1) + Part(bytes, who, n - 1)
  }

  /** With one writer, what went in is what its calls passed, one after the other. */
  lemma OneWriter(s: State, run: seq<Step>, r: State, h: History, w: nat)
    requires Start(s) && Runs(s, run, r) && Recorded(s, run, Nothing(s), h)
    requires forall c :: 0 <= c < |h.calls| && h.calls[c].op.Write? ==> h.calls[c].p == w
    ensures |h.putBy| == |r.sh.stored| && r.sh.stored == Joined(r.sh.stored, h.putBy, |h.calls|)
  {
    Reached(s, run, r, h);
    forall k | 0 <= k < |h.putBy| ensures h.putBy[k] < |h.calls| && h.calls[h.putBy[k]].p == w {
      assert CallOk(r, h, h.putBy[k]);
      PartSome(r.sh.stored, h.putBy, h.putBy[k]);
    }
    SortedJoins(r.sh.stored, h.putBy, |h.calls|);
  }

  lemma {:induction false} JoinedLess(bytes: seq<byte>, who: seq<nat>, x: byte, d: nat, n: nat)
    requires |who| == |bytes| && n <= d
    ensures Joined(bytes + [x], who + [d], n) == Joined(bytes, who, n)
  {
    if n > 0 {
      JoinedLess(bytes, who, x, d, n - 1);
      PartMore(bytes, who, x, d, n - 1);
    }
  }

  lemma {:induction false} JoinedMore(bytes: seq<byte>, who: seq<nat>, x: byte, d: nat, n: nat)
    requires |who| == |bytes| && d < n && forall k :: 0 <= k < |who| ==> who[k] <= d
    ensures Joined(bytes + [x], who + [d], n) == Joined(bytes, who, n) + [x]
  {
    hide Part;
    PartMore(bytes, who, x, d, n - 1);
    if n - 1 == d {
      JoinedLess(bytes, who, x, d, d);
    } else {
      JoinedMore(bytes, who, x, d, n - 1);
      assert n - 1 !in who;
      PartNone(bytes, who, n - 1);
      assert Joined(bytes, who, n - 1) + [] == Joined(bytes, who, n - 1);
    }
  }

  lemma {:induction false} JoinedNone(n: nat)
    ensures Joined([], [], n) == []
  {
    if n > 0 {
      JoinedNone(n - 1);
    }
  }

  lemma {:induction false} SortedJoins(bytes: seq<byte>, who: seq<nat>, n: nat)
    requires |who| == |bytes| && (forall k :: 0 <= k < |who| ==> who[k] < n)
    requires forall j, k :: 0 <= j < k < |who| ==> who[j] <= who[k]
    ensures bytes == Joined(bytes, who, n)
    decreases |bytes|
  {
    hide Part, Joined;
    if bytes == [] {
      assert who == [];
      JoinedNone(n);
    } else {
      var m := |bytes| - 1;
      assert bytes == bytes[..m] + [bytes[m]] && who == who[..m] + [who[m]];
      SortedJoins(bytes[..m], who[..m], n);
      JoinedMore(bytes[..m], who[..m], bytes[m], who[m], n);
    }
  }

  /** Each end is closed only by a close of that end, and is closed once one has returned. */
  lemma EndsClosed(s: State, run: seq<Step>, r: State, h: History, w: bool)
    requires Start(s) && Runs(s, run, r) && Recorded(s, run, Nothing(s), h)
    ensures Shut(Close(w), r.sh) ==> exists c :: 0 <= c < |h.calls| && h.calls[c].op == Close(w)
    ensures forall c :: 0 <= c < |h.calls| && h.calls[c].op == Close(w) && h.calls[c].ret.Some? ==> Shut(Close(w), r.sh)
  {
    Reached(s, run, r, h);
    hide Part;
    forall c | 0 <= c < |h.calls| && h.calls[c].op == Close(w) && h.calls[c].ret.Some? ensures Shut(Close(w), r.sh) {
      assert CallOk(r, h, c);
    }
  }

  /** What a read call takes out is one stretch of what comes out. It returns how many of them it handed over, which
      is all but for one that could not be copied; as many as it was asked for, unless one could not be copied or it
      has found the pipe empty; and none of some only with the write end closed. */
  lemma ReadsAreStretches(s: State, run: seq<Step>, r: State, h: History, c: nat)
    requires Start(s) && Runs(s, run, r) && Recorded(s, run, Nothing(s), h) && c < |h.calls|
    ensures |h.tookBy| == |r.sh.removed|
    ensures forall i, j, k :: 0 <= i < j < k < |h.tookBy| && h.tookBy[i] == h.tookBy[k] == c ==> h.tookBy[j] == c
    ensures var call, took := h.calls[c], Part(r.sh.removed, h.tookBy, c);
            && (!call.op.Read? ==> took == [])
            && (call.op.Read? && call.ret.Some? ==>
                  if call.ret.value == -1 then call.p < |r.killed| && r.killed[call.p] && took == []
                  else Handed(call, r.sh, call.ret.value, |took|))
  {
    Reached(s, run, r, h);
    assert CallOk(r, h, c);
  }
}
