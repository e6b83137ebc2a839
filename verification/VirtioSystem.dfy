module VirtioSystem {
  // kernel/virtio_disk.c with the device of section 2.6 of VIRTIO 1.1: requesters, device and interrupt
  // handler interleaved. Requesters and handler hold vdisk_lock while they touch the rings; the device does
  // not. Ring indices are 16 bits wide.

  import opened Machine
  import opened Virtio

  function Low16(x: nat): nat {
    x % 0x1_0000
  }

  /** The three descriptors of a request: header, data, status. */
  datatype Chain = Chain(h: nat, d: nat, s: nat)

  datatype Pc =
    | Idle
    | Want(b: nat)                    // before the lock, or asleep for descriptors
    | Picking(b: nat, got: seq<nat>)  // alloc3_desc, lock held
    | Filled(b: nat, c: Chain)        // ring entry written, idx not yet advanced, lock held
    | Waiting(b: nat, c: Chain)       // the loop on b's flag

  /** free[i] is FREE; otherwise which requester holds descriptor i, and as which of its three. */
  datatype Desc = FREE | Held(t: nat, k: nat)

  datatype Lock = Nobody | Requester(t: nat) | Handler

  datatype Ring = Ring(ring: seq<nat>, idx: nat)

  /** What virtio_disk_rw is called for, and struct virtio_blk_req, which tells the device. A sector is half a
      kilobyte. */
  datatype Ask = Ask(write: bool, blockno: nat)

  datatype Header = Header(out: bool, sector: nat)

  /** The driver's memory: free[], desc[], ops[], the requesters, what they ask for, which of them sleep (on free[0]
      when at Want, on their buffer when at Waiting), vdisk_lock, info[].b, info[].status, b->disk. */
  datatype Driver = Driver(own: seq<Desc>, desc: seq<VDesc>, ops: seq<Header>, pcs: seq<Pc>, asks: seq<Ask>,
                           asleep: seq<bool>, lock: Lock, info: seq<Option<nat>>, status: seq<nat>, disk: seq<bool>)

  /** The device's own state: how far it has read the avail ring, the heads it works on, and a used entry
      written but not yet announced. */
  datatype Device = Device(idx: nat, inflight: set<nat>, pending: Option<nat>)

  /** How far a requester's request has got: in the avail ring as entry n, at the device, being entered into
      the used ring, in the used ring as entry m, or seen by the handler. */
  datatype Stage = NotOut | Avail(n: nat) | AtDevice | Writing | Used(m: nat) | Done

  /** History, which no step tests: who published and who completed as which entry, how many entries were
      taken and seen, and per requester the stage, the requests published and the times b->disk was cleared. */
  datatype History = History(sub: seq<nat>, taken: nat, cmp: seq<nat>, seen: nat, stage: seq<Stage>,
                             submitted: seq<nat>, cleared: seq<nat>)

  datatype State = State(drv: Driver, avail: Ring, used: Ring, seenIdx: nat, dev: Device, hist: History)

  datatype Step =
    | Begin(t: nat, b: nat, ask: Ask) | Acquire(t: nat) | Pick(t: nat) | Fill(t: nat) | Publish(t: nat) | Finish(t: nat)
    | Recheck(t: nat)     // awake, and the flag is still up
    | Kill(t: nat)        // kill() makes a sleeper runnable
    | DevTake | DevDone(h: nat) | DevBump
    | IntrAcquire | IntrOne | IntrRelease

  // ----- alloc_desc -----

  predicate LowestFree(own: seq<Desc>, i: nat) {
    i < |own| && own[i].FREE? && forall j :: 0 <= j < i ==> !own[j].FREE?
  }

  predicate NoneFree(own: seq<Desc>) {
    forall j :: 0 <= j < |own| ==> !own[j].FREE?
  }

  function FirstFrom(own: seq<Desc>, j: nat): (i: nat)
    requires j <= |own| && forall k :: 0 <= k < j ==> !own[k].FREE?
    ensures i <= |own| && (i < |own| ==> LowestFree(own, i)) && (i == |own| ==> NoneFree(own))
    decreases |own| - j
  {
    if j == |own| then j else if own[j].FREE? then j else FirstFrom(own, j + 1)
  }

  const CLEAR: VDesc := VDesc(0, 0, false, false, 0)

  /** The descriptors free_chain(i) visits, in order. */
  function Followed(desc: seq<VDesc>, i: nat, n: nat): seq<nat>
    decreases n
  {
    if n == 0 || i >= |desc| then []
    else [i] + if desc[i].hasNext then Followed(desc, desc[i].next, n - 1) else []
  }

  /** free_desc on each descriptor of idx: what it does to free[] and to desc[]. */
  function Freed(own: seq<Desc>, idx: seq<nat>): (r: seq<Desc>)
    ensures |r| == |own| && forall i :: 0 <= i < |own| ==> r[i] == if i in idx then FREE else own[i]
  {
    seq(|own|, i requires 0 <= i < |own| => if i in idx then FREE else own[i])
  }

  function Cleared(desc: seq<VDesc>, idx: seq<nat>): (r: seq<VDesc>)
    ensures |r| == |desc| && forall i :: 0 <= i < |desc| ==> r[i] == if i in idx then CLEAR else desc[i]
  {
    seq(|desc|, i requires 0 <= i < |desc| => if i in idx then CLEAR else desc[i])
  }

  // ----- Steps -----

  function Put<T>(s: seq<T>, i: nat, x: T): (r: seq<T>)
    ensures |r| == |s|
  {
    if i < |s| then s[i := x] else s
  }

  function At(s: seq<nat>, i: nat): nat {
    if i < |s| then s[i] else 0
  }

  function Bump(s: seq<nat>, i: nat): (r: seq<nat>)
    ensures |r| == |s|
  {
    if i < |s| then s[i := s[i] + 1] else s
  }

  predicate Shaped(s: State) {
    && |s.drv.own| == |s.drv.desc| == |s.avail.ring| == |s.used.ring| == |s.drv.info| == |s.drv.status| == NUM
  }

  predicate Asleep(d: Driver, t: nat) {
    t < |d.asleep| && d.asleep[t]
  }

  /** wakeup(&disk.free[0]) */
  function WakeWant(asleep: seq<bool>, pcs: seq<Pc>): (r: seq<bool>)
    ensures |r| == |asleep|
  {
    seq(|asleep|, t requires 0 <= t < |asleep| => asleep[t] && !(t < |pcs| && pcs[t].Want?))
  }

  /** wakeup(b) */
  function WakeWaiting(asleep: seq<bool>, pcs: seq<Pc>, b: nat): (r: seq<bool>)
    ensures |r| == |asleep|
  {
    seq(|asleep|, t requires 0 <= t < |asleep| => asleep[t] && !(t < |pcs| && pcs[t].Waiting? && pcs[t].b == b))
  }

  predicate ReqEnabled(d: Driver, st: Step)
    requires !st.DevTake? && !st.DevDone? && !st.DevBump? && !st.IntrAcquire? && !st.IntrOne? && !st.IntrRelease?
  {
    && st.t < |d.pcs|
    && match st
       case Begin(t, b, _) =>
         b < |d.disk| && d.pcs[t].Idle? && forall u :: 0 <= u < |d.pcs| && !d.pcs[u].Idle? ==> d.pcs[u].b != b
       case Acquire(t) => d.pcs[t].Want? && !Asleep(d, t) && d.lock == Nobody
       case Pick(t) => d.pcs[t].Picking? && |d.pcs[t].got| < 3
       case Fill(t) => d.pcs[t].Picking? && |d.pcs[t].got| == 3
       case Publish(t) => d.pcs[t].Filled?
       case Finish(t) =>
         d.pcs[t].Waiting? && !Asleep(d, t) && d.lock == Nobody && d.pcs[t].b < |d.disk| && !d.disk[d.pcs[t].b]
       case Recheck(t) =>
         d.pcs[t].Waiting? && !Asleep(d, t) && d.lock == Nobody && d.pcs[t].b < |d.disk| && d.disk[d.pcs[t].b]
       case Kill(t) => true
  }

  predicate Enabled(s: State, st: Step) {
    && Shaped(s)
    && match st
       case DevTake => s.dev.idx != s.avail.idx
       case DevDone(h) => h in s.dev.inflight && s.dev.pending == None
       case DevBump => s.dev.pending.Some?
       case IntrAcquire => s.drv.lock == Nobody
       case IntrOne => s.drv.lock == Handler && s.seenIdx != s.used.idx
       case IntrRelease => s.drv.lock == Handler && s.seenIdx == s.used.idx
       case _ => ReqEnabled(s.drv, st)
  }

  /** alloc_desc inside alloc3_desc; on failure the descriptors got so far go back and the requester sleeps. */
  function PickOne(d: Driver, t: nat): Driver
    requires t < |d.pcs| && d.pcs[t].Picking?
  {
    var i := FirstFrom(d.own, 0);
    var pc := d.pcs[t];
    if i < |d.own| then d.(own := d.own[i := Held(t, |pc.got|)], pcs := d.pcs[t := Picking(pc.b, pc.got + [i])])
    else
      d.(own := Freed(d.own, pc.got), desc := Cleared(d.desc, pc.got), pcs := d.pcs[t := Want(pc.b)], lock := Nobody,
         asleep := Put(if pc.got == [] then d.asleep else WakeWant(d.asleep, d.pcs), t, true))
  }

  /** The three descriptors of a request for buffer b: the request header, the data, the status byte. An address is
      the index of what it points at: ops[], the buffers, info[].status. */
  function Written(desc: seq<VDesc>, c: Chain, b: nat, write: bool): (r: seq<VDesc>)
    ensures |r| == |desc|
  {
    Put(Put(Put(desc, c.h, VDesc(c.h, 16, true, false, c.d)), c.d, VDesc(b, BSIZE, true, !write, c.s)),
        c.s, VDesc(c.h, 1, false, true, 0))
  }

  function AskOf(d: Driver, t: nat): Ask {
    if t < |d.asks| then d.asks[t] else Ask(false, 0)
  }

  function FillDriver(d: Driver, t: nat): Driver
    requires t < |d.pcs| && d.pcs[t].Picking? && |d.pcs[t].got| == 3
  {
    var pc := d.pcs[t];
    var c := Chain(pc.got[0], pc.got[1], pc.got[2]);
    var ask := AskOf(d, t);
    d.(desc := Written(d.desc, c, pc.b, ask.write), ops := Put(d.ops, c.h, Header(ask.write, ask.blockno * 2)),
       pcs := d.pcs[t := Filled(pc.b, c)], info := Put(d.info, c.h, Some(pc.b)),
       status := Put(d.status, c.h, 0xff), disk := Put(d.disk, pc.b, true))
  }

  /** The end of virtio_disk_rw: free_chain follows the links from the head. */
  function FinishDriver(d: Driver, t: nat): Driver
    requires t < |d.pcs| && d.pcs[t].Waiting?
  {
    var h := d.pcs[t].c.h;
    var idx := Followed(d.desc, h, NUM);
    d.(own := Freed(d.own, idx), desc := Cleared(d.desc, idx), pcs := d.pcs[t := Idle], info := Put(d.info, h, None),
       asleep := WakeWant(d.asleep, d.pcs))
  }

  /** The flag is looked at under the lock before the first sleep. */
  function PublishDriver(d: Driver, t: nat): Driver
    requires t < |d.pcs| && d.pcs[t].Filled?
  {
    d.(pcs := d.pcs[t := Waiting(d.pcs[t].b, d.pcs[t].c)], lock := Nobody,
       asleep := Put(d.asleep, t, d.pcs[t].b < |d.disk| && d.disk[d.pcs[t].b]))
  }

  function ReqDo(s: State, st: Step): State
    requires Enabled(s, st) && (st.Begin? || st.Acquire? || st.Pick? || st.Fill? || st.Publish? || st.Finish?
                               || st.Recheck? || st.Kill?)
  {
    var d := s.drv;
    match st
    case Begin(t, b, ask) => s.(drv := d.(pcs := d.pcs[t := Want(b)], asks := Put(d.asks, t, ask)))
    case Acquire(t) => s.(drv := d.(pcs := d.pcs[t := Picking(d.pcs[t].b, [])], lock := Requester(t)))
    case Pick(t) => s.(drv := PickOne(d, t))
    case Fill(t) =>
      s.(drv := FillDriver(d, t), avail := Ring(Put(s.avail.ring, s.avail.idx % NUM, d.pcs[t].got[0]), s.avail.idx))
    case Publish(t) =>
      s.(drv := PublishDriver(d, t),
         avail := Ring(s.avail.ring, Low16(s.avail.idx + 1)),
         hist := s.hist.(sub := s.hist.sub + [t], stage := Put(s.hist.stage, t, Avail(|s.hist.sub|)),
                         submitted := Bump(s.hist.submitted, t)))
    case Finish(t) =>
      s.(drv := FinishDriver(d, t), hist := s.hist.(stage := Put(s.hist.stage, t, NotOut)))
    case Recheck(t) => s.(drv := d.(asleep := Put(d.asleep, t, true)))
    case Kill(t) => s.(drv := d.(asleep := Put(d.asleep, t, false)))
  }

  function Holder(d: Driver, h: nat): nat {
    if h < |d.own| && d.own[h].Held? then d.own[h].t else |d.pcs|
  }

  function DevDo(s: State, st: Step): State
    requires Enabled(s, st) && (st.DevTake? || st.DevDone? || st.DevBump?)
  {
    match st
    case DevTake =>
      s.(dev := Device(Low16(s.dev.idx + 1), s.dev.inflight + {At(s.avail.ring, s.dev.idx % NUM)}, s.dev.pending),
         hist := s.hist.(stage := Put(s.hist.stage, At(s.hist.sub, s.hist.taken), AtDevice), taken := s.hist.taken + 1))
    case DevDone(h) =>
      s.(drv := s.drv.(status := Put(s.drv.status, h, 0)),
         used := Ring(Put(s.used.ring, s.used.idx % NUM, h), s.used.idx),
         dev := Device(s.dev.idx, s.dev.inflight - {h}, Some(h)),
         hist := s.hist.(stage := Put(s.hist.stage, Holder(s.drv, h), Writing)))
    case DevBump =>
      var t := Holder(s.drv, s.dev.pending.value);
      s.(used := Ring(s.used.ring, Low16(s.used.idx + 1)), dev := Device(s.dev.idx, s.dev.inflight, None),
         hist := s.hist.(cmp := s.hist.cmp + [t], stage := Put(s.hist.stage, t, Used(|s.hist.cmp|))))
  }

  /** The turn of the handler's loop for the next used entry; `bad` is its panic, or a null b. */
  predicate HandlerBad(s: State) {
    var id := At(s.used.ring, s.seenIdx % NUM);
    id >= |s.drv.info| || id >= |s.drv.status| || s.drv.status[id] != 0 || s.drv.info[id].None?
  }

  function IntrDo(s: State, st: Step): State
    requires Enabled(s, st) && (st.IntrAcquire? || st.IntrOne? || st.IntrRelease?)
  {
    match st
    case IntrAcquire => s.(drv := s.drv.(lock := Handler))
    case IntrRelease => s.(drv := s.drv.(lock := Nobody))
    case IntrOne =>
      var t := At(s.hist.cmp, s.hist.seen);
      if HandlerBad(s) then s
      else
        var b := s.drv.info[At(s.used.ring, s.seenIdx % NUM)].value;
        s.(drv := s.drv.(disk := Put(s.drv.disk, b, false), asleep := WakeWaiting(s.drv.asleep, s.drv.pcs, b)),
           seenIdx := Low16(s.seenIdx + 1),
           hist := s.hist.(stage := Put(s.hist.stage, t, Done), seen := s.hist.seen + 1,
                           cleared := Bump(s.hist.cleared, t)))
  }

  function Do(s: State, st: Step): State
    requires Enabled(s, st)
  {
    match st
    case DevTake => DevDo(s, st)
    case DevDone(_) => DevDo(s, st)
    case DevBump => DevDo(s, st)
    case IntrAcquire => IntrDo(s, st)
    case IntrOne => IntrDo(s, st)
    case IntrRelease => IntrDo(s, st)
    case _ => ReqDo(s, st)
  }

  // ----- Invariants -----

  function Kth(c: Chain, k: nat): nat {
    if k == 0 then c.h else if k == 1 then c.d else c.s
  }

  /** Requester at `pc` holds descriptor i as its k-th. */
  predicate Has(pc: Pc, k: nat, i: nat) {
    match pc
    case Picking(_, got) => k < |got| && got[k] == i
    case Filled(_, c) => k < 3 && Kth(c, k) == i
    case Waiting(_, c) => k < 3 && Kth(c, k) == i
    case _ => false
  }

  /** Descriptor i is free or the k-th of exactly one requester. */
  ghost predicate DescOk(d: Driver, t: nat, k: nat, i: nat)
    requires t < |d.pcs| && i < |d.own|
  {
    d.own[i] == Held(t, k) <==> Has(d.pcs[t], k, i)
  }

  ghost predicate LockAt(d: Driver, t: nat)
    requires t < |d.pcs|
  {
    d.lock == Requester(t) <==> d.pcs[t].Picking? || d.pcs[t].Filled?
  }

  /** Distinct requesters have distinct buffers. */
  ghost predicate BufsApart(d: Driver, t: nat, u: nat)
    requires t < |d.pcs| && u < |d.pcs|
  {
    t != u && !d.pcs[t].Idle? && !d.pcs[u].Idle? ==> d.pcs[t].b != d.pcs[u].b
  }

  ghost predicate PcShape(d: Driver, t: nat)
    requires t < |d.pcs|
  {
    && (!d.pcs[t].Idle? ==> d.pcs[t].b < |d.disk|)
    && (d.pcs[t].Picking? ==> |d.pcs[t].got| <= 3 && forall k :: 0 <= k < |d.pcs[t].got| ==> d.pcs[t].got[k] < NUM)
    && (d.pcs[t].Filled? || d.pcs[t].Waiting? ==> d.pcs[t].c.h < NUM && d.pcs[t].c.d < NUM && d.pcs[t].c.s < NUM)
  }

  ghost predicate DriverOk(d: Driver) {
    && |d.own| == |d.info| == |d.status| == NUM
    && (forall t, k: nat, i {:trigger DescOk(d, t, k, i)} :: 0 <= t < |d.pcs| && 0 <= i < NUM ==> DescOk(d, t, k, i))
    && (forall i :: 0 <= i < NUM && d.own[i].Held? ==> d.own[i].t < |d.pcs|)
    && (forall t :: 0 <= t < |d.pcs| ==> LockAt(d, t) && PcShape(d, t))
    && (d.lock.Requester? ==> d.lock.t < |d.pcs|)
    && (forall t, u {:trigger BufsApart(d, t, u)} :: 0 <= t < |d.pcs| && 0 <= u < |d.pcs| ==> BufsApart(d, t, u))
  }

  /** What a requester's program counter and the stage of its request say about each other and the memory. */
  ghost predicate StageOk(s: State, t: nat)
    requires t < |s.drv.pcs| && t < |s.hist.stage| && Shaped(s)
  {
    var pc, g := s.drv.pcs[t], s.hist.stage[t];
    && (!pc.Waiting? <==> g == NotOut)
    && (pc.Filled? || pc.Waiting? ==> pc.c.h < NUM && pc.b < |s.drv.disk| && s.drv.info[pc.c.h] == Some(pc.b))
    && (pc.Filled? ==> s.drv.disk[pc.b] && s.avail.ring[s.avail.idx % NUM] == pc.c.h)
    && (pc.Waiting? ==>
          && s.drv.disk[pc.b] == (g != Done)
          && (g == AtDevice <==> pc.c.h in s.dev.inflight) && (g == Writing <==> s.dev.pending == Some(pc.c.h))
          && (g.Avail? ==> s.hist.taken <= g.n < |s.hist.sub| && s.hist.sub[g.n] == t)
          && (g.Used? ==> s.hist.seen <= g.m < |s.hist.cmp| && s.hist.cmp[g.m] == t)
          && (g == Writing || g.Used? ==> s.drv.status[pc.c.h] == 0))
    && (t < |s.hist.submitted| && t < |s.hist.cleared| ==>
          s.hist.submitted[t] == s.hist.cleared[t] + (if pc.Waiting? && g != Done then 1 else 0))
  }

  /** Entry n of the avail ring, not yet taken. */
  ghost predicate AvailOk(s: State, n: nat)
    requires n < |s.hist.sub| && Shaped(s)
  {
    var t := s.hist.sub[n];
    t < |s.drv.pcs| && t < |s.hist.stage| && s.hist.stage[t] == Avail(n) && s.drv.pcs[t].Waiting? &&
      s.avail.ring[n % NUM] == s.drv.pcs[t].c.h
  }

  /** Entry m of the used ring, not yet seen. */
  ghost predicate UsedOk(s: State, m: nat)
    requires m < |s.hist.cmp| && Shaped(s)
  {
    var t := s.hist.cmp[m];
    t < |s.drv.pcs| && t < |s.hist.stage| && s.hist.stage[t] == Used(m) && s.drv.pcs[t].Waiting? &&
      s.used.ring[m % NUM] == s.drv.pcs[t].c.h
  }

  /** The device works only on heads of chains that are at the device. */
  ghost predicate HeadOk(s: State, h: nat)
  {
    h < NUM && h < |s.drv.own| && s.drv.own[h].Held? && s.drv.own[h].k == 0 && s.drv.own[h].t < |s.drv.pcs| &&
      s.drv.pcs[s.drv.own[h].t].Waiting?
  }

  ghost predicate IndexOk(s: State) {
    && s.hist.taken <= |s.hist.sub| && s.hist.seen <= |s.hist.cmp|
    && s.avail.idx == Low16(|s.hist.sub|) && s.dev.idx == Low16(s.hist.taken)
    && s.used.idx == Low16(|s.hist.cmp|) && s.seenIdx == Low16(s.hist.seen)
  }

  function Path(c: Chain): seq<nat> {
    [c.h, c.d, c.s]
  }

  /** What the device finds when it follows the links from the head of a request for buffer b: where to go and how
      much, which way, and where to put the status. */
  ghost predicate Describes(desc: seq<VDesc>, ops: seq<Header>, c: Chain, b: nat, ask: Ask) {
    && c.h < |desc| && c.d < |desc| && c.s < |desc| && Chained(desc, Path(c))
    && c.h < |ops| && ops[c.h] == Header(ask.write, ask.blockno * (BSIZE / 512))
    && desc[c.h].addr == c.h && desc[c.h].len == 16 && !desc[c.h].devWrites
    && desc[c.d].addr == b && desc[c.d].len == BSIZE && (desc[c.d].devWrites <==> !ask.write)
    && desc[c.s].addr == c.h && desc[c.s].len == 1 && desc[c.s].devWrites
  }

  /** Each request that is written down is linked header, data, status, and says what was asked for. */
  ghost predicate LinksAt(d: Driver, t: nat)
    requires t < |d.pcs| == |d.asks|
  {
    d.pcs[t].Filled? || d.pcs[t].Waiting? ==> Describes(d.desc, d.ops, d.pcs[t].c, d.pcs[t].b, d.asks[t])
  }

  ghost predicate Linked(d: Driver) {
    |d.desc| == |d.ops| == NUM && |d.asks| == |d.pcs| && forall t :: 0 <= t < |d.pcs| ==> LinksAt(d, t)
  }

  ghost predicate Inv(s: State) {
    && Shaped(s) && DriverOk(s.drv) && IndexOk(s)
    && |s.hist.stage| == |s.hist.submitted| == |s.hist.cleared| == |s.drv.pcs|
    && (forall t :: 0 <= t < |s.drv.pcs| ==> StageOk(s, t))
    && (forall n :: s.hist.taken <= n < |s.hist.sub| ==> AvailOk(s, n))
    && (forall m :: s.hist.seen <= m < |s.hist.cmp| ==> UsedOk(s, m))
    && (forall h :: h in s.dev.inflight ==> HeadOk(s, h))
    && (s.dev.pending.Some? ==> HeadOk(s, s.dev.pending.value) && s.used.ring[s.used.idx % NUM] == s.dev.pending.value)
  }

  // ----- The driver's part -----

  lemma {:induction false} Pigeon(s: seq<nat>, n: nat)
    requires (forall i :: 0 <= i < |s| ==> s[i] < n) && (forall i, j :: 0 <= i < j < |s| ==> s[i] != s[j])
    ensures |s| <= n
  {
    assert |s| > 0 ==> s[0] < n;
    if n > 0 && exists i :: 0 <= i < |s| && s[i] == n - 1 {
      var i :| 0 <= i < |s| && s[i] == n - 1;
      Pigeon(s[..i] + s[i + 1..], n - 1);
    } else if n > 0 {
      Pigeon(s, n - 1);
    }
  }

  // Two requesters never share a descriptor.
  lemma ChainsApart(d: Driver, t: nat, u: nat, k: nat, m: nat, i: nat)
    requires DriverOk(d) && t < |d.pcs| && u < |d.pcs| && i < NUM && Has(d.pcs[t], k, i) && Has(d.pcs[u], m, i)
    ensures t == u && k == m
  {
    hide Has;
    assert DescOk(d, t, k, i) && DescOk(d, u, m, i);
  }

  lemma BeginDriver(d: Driver, t: nat, b: nat, ask: Ask)
    requires DriverOk(d) && ReqEnabled(d, Begin(t, b, ask))
    ensures DriverOk(d.(pcs := d.pcs[t := Want(b)], asks := Put(d.asks, t, ask)))
  {
    var d' := d.(pcs := d.pcs[t := Want(b)], asks := Put(d.asks, t, ask));
    assert LockAt(d, t);
    forall u, k: nat, i | 0 <= u < |d'.pcs| && 0 <= i < NUM ensures DescOk(d', u, k, i) {
      assert DescOk(d, u, k, i);
    }
    forall u | 0 <= u < |d'.pcs| ensures LockAt(d', u) && PcShape(d', u) {
      assert LockAt(d, u) && PcShape(d, u);
    }
    forall u, v | 0 <= u < |d'.pcs| && 0 <= v < |d'.pcs| ensures BufsApart(d', u, v) {
      assert BufsApart(d, u, v);
    }
  }

  // A step that changes the program counter of t, keeps its buffer, and moves descriptors of its own.
  lemma MoveDriver(d: Driver, d': Driver, t: nat)
    requires DriverOk(d) && t < |d.pcs| && |d'.own| == |d'.info| == |d'.status| == NUM && |d'.disk| == |d.disk|
    requires |d'.pcs| == |d.pcs| && d'.pcs == d.pcs[t := d'.pcs[t]] && !d.pcs[t].Idle?
    requires (d'.pcs[t].Idle? || d'.pcs[t].b == d.pcs[t].b)
    requires forall i :: 0 <= i < NUM && d'.own[i] != d.own[i] ==>
               (d.own[i].FREE? || (d.own[i].Held? && d.own[i].t == t)) &&
                 (d'.own[i].FREE? || (d'.own[i].Held? && d'.own[i].t == t))
    requires forall k: nat, i {:trigger DescOk(d', t, k, i)} :: 0 <= i < NUM ==> DescOk(d', t, k, i)
    requires PcShape(d', t)
    requires (d.lock == Requester(t) || d.lock == Nobody) && d'.lock == if d'.pcs[t].Picking? ||
             d'.pcs[t].Filled? then Requester(t) else Nobody
    ensures DriverOk(d')
  {
    hide Has;
    forall u, k: nat, i | 0 <= u < |d'.pcs| && 0 <= i < NUM ensures DescOk(d', u, k, i) {
      assert DescOk(d, u, k, i);
    }
    forall u | 0 <= u < |d'.pcs| ensures LockAt(d', u) && PcShape(d', u) {
      assert LockAt(d, u) && PcShape(d, u);
    }
    forall u, v | 0 <= u < |d'.pcs| && 0 <= v < |d'.pcs| ensures BufsApart(d', u, v) {
      assert BufsApart(d, u, v);
    }
  }

  lemma AcquireDriver(d: Driver, t: nat)
    requires DriverOk(d) && ReqEnabled(d, Acquire(t))
    ensures DriverOk(d.(pcs := d.pcs[t := Picking(d.pcs[t].b, [])], lock := Requester(t)))
  {
    var d' := d.(pcs := d.pcs[t := Picking(d.pcs[t].b, [])], lock := Requester(t));
    forall k: nat, i | 0 <= i < NUM ensures DescOk(d', t, k, i) {
      assert DescOk(d, t, k, i);
    }
    assert PcShape(d, t);
    hide DriverOk, DescOk;
    MoveDriver(d, d', t);
  }

  lemma PickDriver(d: Driver, t: nat)
    requires DriverOk(d) && ReqEnabled(d, Pick(t))
    ensures DriverOk(PickOne(d, t)) && PickOne(d, t).disk == d.disk && PickOne(d, t).info == d.info
    ensures PickOne(d, t).status == d.status
    ensures forall i :: 0 <= i < NUM && PickOne(d, t).own[i] != d.own[i] ==>
              d.own[i].FREE? || (d.own[i].Held? && d.own[i].t == t)
  {
    var d', got := PickOne(d, t), d.pcs[t].got;
    var x := FirstFrom(d.own, 0);
    assert LockAt(d, t) && PcShape(d, t);
    forall k | 0 <= k < |got| ensures d.own[got[k]] == Held(t, k) {
      assert DescOk(d, t, k, got[k]);
    }
    forall k: nat, i | 0 <= i < NUM ensures DescOk(d', t, k, i) {
      assert DescOk(d, t, k, i);
      if x < |d.own| { assert DescOk(d, t, k, x); }
    }
    assert PcShape(d', t);
    hide DriverOk, DescOk, PcShape;
    MoveDriver(d, d', t);
  }

  lemma FillKeepsDriver(d: Driver, t: nat)
    requires DriverOk(d) && ReqEnabled(d, Fill(t))
    ensures DriverOk(FillDriver(d, t))
  {
    var d' := FillDriver(d, t);
    assert LockAt(d, t) && PcShape(d, t);
    var got := d.pcs[t].got;
    forall k: nat, i | 0 <= i < NUM ensures DescOk(d', t, k, i) {
      assert DescOk(d, t, k, i);
    }
    assert PcShape(d', t);
    hide DriverOk, DescOk, PcShape;
    MoveDriver(d, d', t);
  }

  lemma PublishKeepsDriver(d: Driver, t: nat)
    requires DriverOk(d) && ReqEnabled(d, Publish(t))
    ensures DriverOk(PublishDriver(d, t))
  {
    var d' := PublishDriver(d, t);
    assert LockAt(d, t) && PcShape(d, t);
    forall k: nat, i | 0 <= i < NUM ensures DescOk(d', t, k, i) {
      assert DescOk(d, t, k, i);
    }
    assert PcShape(d', t);
    hide DriverOk, DescOk, PcShape;
    MoveDriver(d, d', t);
  }

  // free_chain visits the three descriptors of a linked request.
  lemma FollowsPath(desc: seq<VDesc>, c: Chain)
    requires |desc| == NUM && Chained(desc, Path(c))
    ensures Followed(desc, c.h, NUM) == Path(c)
  {
    assert LinkOk(desc, Path(c), 0) && LinkOk(desc, Path(c), 1) && LinkOk(desc, Path(c), 2);
    assert Followed(desc, c.s, NUM - 2) == [c.s];
    assert Followed(desc, c.d, NUM - 1) == [c.d] + [c.s];
  }

  lemma FinishKeepsDriver(d: Driver, t: nat)
    requires DriverOk(d) && Linked(d) && ReqEnabled(d, Finish(t))
    ensures DriverOk(FinishDriver(d, t)) && FinishDriver(d, t).own == Freed(d.own, Path(d.pcs[t].c))
  {
    var d' := FinishDriver(d, t);
    assert LinksAt(d, t);
    FollowsPath(d.desc, d.pcs[t].c);
    hide Followed, Chained;
    assert LockAt(d, t) && PcShape(d, t);
    var c := d.pcs[t].c;
    assert DescOk(d, t, 0, c.h) && DescOk(d, t, 1, c.d) && DescOk(d, t, 2, c.s);
    forall k: nat, i | 0 <= i < NUM ensures DescOk(d', t, k, i) {
      assert DescOk(d, t, k, i);
    }
    assert PcShape(d', t);
    hide DriverOk, DescOk, PcShape;
    MoveDriver(d, d', t);
  }

  // The handler's lock, and the bytes and flags the device and the handler write, do not matter here.
  lemma SameDriver(d: Driver, d': Driver)
    requires DriverOk(d) && d'.own == d.own && d'.desc == d.desc && d'.pcs == d.pcs && |d'.info| == |d'.status| == NUM
    requires |d'.disk| == |d.disk|
    requires d'.lock == d.lock || (!d.lock.Requester? && !d'.lock.Requester?)
    ensures DriverOk(d')
  {
    hide Has;
    forall u, k: nat, i | 0 <= u < |d'.pcs| && 0 <= i < NUM ensures DescOk(d', u, k, i) {
      assert DescOk(d, u, k, i);
    }
    forall u | 0 <= u < |d'.pcs| ensures LockAt(d', u) && PcShape(d', u) {
      assert LockAt(d, u) && PcShape(d, u);
    }
    forall u, v | 0 <= u < |d'.pcs| && 0 <= v < |d'.pcs| ensures BufsApart(d', u, v) {
      assert BufsApart(d, u, v);
    }
  }

  // ----- Every step keeps the invariant -----

  predicate HasHead(pc: Pc, h: nat) {
    Has(pc, 0, h)
  }

  lemma HeadsApart(d: Driver, t: nat, u: nat, h: nat)
    requires DriverOk(d) && t < |d.pcs| && u < |d.pcs| && h < NUM && HasHead(d.pcs[t], h) && HasHead(d.pcs[u], h)
    ensures t == u
  {
    ChainsApart(d, t, u, 0, 0, h);
  }

  lemma Low16Slot(n: nat)
    ensures Low16(n) % NUM == n % NUM && Low16(Low16(n) + 1) == Low16(n + 1)
  {
  }

  lemma SlotsApart(m: nat, n: nat)
    requires m < n < m + NUM
    ensures m % NUM != n % NUM
  {
  }

  // A step of a requester that has no request out and does not write the rings.
  lemma QuietKeeps(s: State, d': Driver, t: nat)
    requires Inv(s) && DriverOk(d') && t < |s.drv.pcs| && !s.drv.pcs[t].Waiting? && !s.drv.pcs[t].Filled?
    requires |d'.pcs| == |s.drv.pcs| && d'.pcs == s.drv.pcs[t := d'.pcs[t]] && !d'.pcs[t].Waiting? && !d'.pcs[t].Filled?
    requires d'.info == s.drv.info && d'.status == s.drv.status && d'.disk == s.drv.disk && |d'.own| == |d'.desc| == NUM
    requires forall i :: 0 <= i < NUM && d'.own[i] != s.drv.own[i] ==>
               s.drv.own[i].FREE? || (s.drv.own[i].Held? && s.drv.own[i].t == t)
    ensures Inv(s.(drv := d'))
  {
    hide DriverOk;
    var s' := s.(drv := d');
    forall u | 0 <= u < |s'.drv.pcs| ensures StageOk(s', u) {
      assert StageOk(s, u);
    }
    forall n | s.hist.taken <= n < |s.hist.sub| ensures AvailOk(s', n) {
      assert AvailOk(s, n);
    }
    forall m | s.hist.seen <= m < |s.hist.cmp| ensures UsedOk(s', m) {
      assert UsedOk(s, m);
    }
    forall h | h in s.dev.inflight || s.dev.pending == Some(h) ensures HeadOk(s', h) {
      assert HeadOk(s, h);
    }
  }

  lemma QuietStep(s: State, st: Step)
    requires Inv(s) && Enabled(s, st) && (st.Begin? || st.Acquire? || st.Pick?)
    ensures Inv(Do(s, st))
  {
    var d, t := s.drv, st.t;
    match st
    case Begin(_, b, ask) =>
      BeginDriver(d, t, b, ask);
      hide DriverOk;
      QuietKeeps(s, d.(pcs := d.pcs[t := Want(b)], asks := Put(d.asks, t, ask)), t);
    case Acquire(_) =>
      AcquireDriver(d, t);
      hide DriverOk;
      QuietKeeps(s, d.(pcs := d.pcs[t := Picking(d.pcs[t].b, [])], lock := Requester(t)), t);
    case Pick(_) =>
      PickDriver(d, t);
      hide DriverOk;
      QuietKeeps(s, PickOne(d, t), t);
  }

  // The handler's lock, and who sleeps, do not matter here.
  lemma LockOrSleep(s: State, st: Step)
    requires Inv(s) && Enabled(s, st) && (st.IntrAcquire? || st.IntrRelease? || st.Recheck? || st.Kill?)
    ensures Inv(Do(s, st))
  {
    var s' := Do(s, st);
    SameDriver(s.drv, s'.drv);
    hide DriverOk;
    forall u | 0 <= u < |s'.drv.pcs| ensures StageOk(s', u) {
      assert StageOk(s, u);
    }
    forall n | s.hist.taken <= n < |s.hist.sub| ensures AvailOk(s', n) {
      assert AvailOk(s, n);
    }
    forall m | s.hist.seen <= m < |s.hist.cmp| ensures UsedOk(s', m) {
      assert UsedOk(s, m);
    }
    forall h | h in s.dev.inflight || s.dev.pending == Some(h) ensures HeadOk(s', h) {
      assert HeadOk(s, h);
    }
  }

  function HeadOf(pc: Pc): nat {
    if pc.Picking? && |pc.got| > 0 then pc.got[0] else if pc.Waiting? || pc.Filled? then pc.c.h else 0
  }

  ghost predicate Headed(d: Driver, t: nat) {
    t < |d.pcs| && HeadOf(d.pcs[t]) < NUM && HasHead(d.pcs[t], HeadOf(d.pcs[t]))
  }

  // At most NUM requesters hold a chain.
  lemma FewChains(d: Driver, who: seq<nat>)
    requires DriverOk(d) && (forall j :: 0 <= j < |who| ==> Headed(d, who[j]))
    requires (forall i, j :: 0 <= i < j < |who| ==> who[i] != who[j])
    ensures |who| <= NUM
  {
    hide DriverOk, HeadOf, HasHead;
    var hs := seq<nat>(|who|, j requires 0 <= j < |who| => if who[j] < |d.pcs| then HeadOf(d.pcs[who[j]]) else 0);
    forall j | 0 <= j < |hs| ensures hs[j] < NUM {
      assert Headed(d, who[j]);
    }
    forall i, j | 0 <= i < j < |hs| ensures hs[i] != hs[j] {
      assert Headed(d, who[i]) && Headed(d, who[j]);
      if hs[i] == hs[j] {
        HeadsApart(d, who[i], who[j], hs[i]);
      }
    }
    Pigeon(hs, NUM);
  }

  // Fewer than NUM entries of the avail ring are waiting while a requester that has not published holds a chain.
  lemma AvailRoom(s: State, t: nat)
    requires Inv(s) && t < |s.drv.pcs| && !s.drv.pcs[t].Waiting? && Headed(s.drv, t)
    ensures |s.hist.sub| - s.hist.taken < NUM
  {
    hide DriverOk, StageOk, Headed;
    var who := s.hist.sub[s.hist.taken..] + [t];
    forall j | 0 <= j < |who| ensures Headed(s.drv, who[j]) {
      if j < |who| - 1 {
        assert AvailOk(s, s.hist.taken + j);
        WaitingShape(s, who[j]);
      }
    }
    forall i, j | 0 <= i < j < |who| ensures who[i] != who[j] {
      assert AvailOk(s, s.hist.taken + i);
      if j < |who| - 1 { assert AvailOk(s, s.hist.taken + j); }
    }
    FewChains(s.drv, who);
  }

  // Fewer than NUM entries of the used ring are waiting while another request is at the device.
  lemma UsedRoom(s: State, t: nat)
    requires Inv(s) && t < |s.drv.pcs| && Headed(s.drv, t) && !s.hist.stage[t].Used?
    ensures |s.hist.cmp| - s.hist.seen < NUM
  {
    hide DriverOk, StageOk, Headed;
    var who := s.hist.cmp[s.hist.seen..] + [t];
    forall j | 0 <= j < |who| ensures Headed(s.drv, who[j]) {
      if j < |who| - 1 {
        assert UsedOk(s, s.hist.seen + j);
        WaitingShape(s, who[j]);
      }
    }
    forall i, j | 0 <= i < j < |who| ensures who[i] != who[j] {
      assert UsedOk(s, s.hist.seen + i);
      if j < |who| - 1 { assert UsedOk(s, s.hist.seen + j); }
    }
    FewChains(s.drv, who);
  }

  lemma WaitingShape(s: State, t: nat)
    requires Inv(s) && t < |s.drv.pcs| && (s.drv.pcs[t].Waiting? || s.drv.pcs[t].Filled?)
    ensures s.drv.pcs[t].c.h < NUM && Headed(s.drv, t) && s.drv.pcs[t].b < |s.drv.disk|
  {
    assert PcShape(s.drv, t);
  }

  lemma Apart(s: State, t: nat, u: nat)
    requires Inv(s) && t < |s.drv.pcs| && u < |s.drv.pcs| && t != u && Headed(s.drv, t)
    requires (s.drv.pcs[u].Waiting? || s.drv.pcs[u].Filled?)
    ensures HeadOf(s.drv.pcs[t]) != s.drv.pcs[u].c.h && s.drv.pcs[t].b != s.drv.pcs[u].b
  {
    hide StageOk, AvailOk, UsedOk, HeadOk;
    WaitingShape(s, u);
    assert BufsApart(s.drv, t, u);
    if HeadOf(s.drv.pcs[t]) == s.drv.pcs[u].c.h {
      HeadsApart(s.drv, t, u, s.drv.pcs[u].c.h);
    }
  }

  lemma FillStep(s: State, t: nat)
    requires Inv(s) && Enabled(s, Fill(t))
    ensures Inv(Do(s, Fill(t)))
  {
    var s', h := Do(s, Fill(t)), s.drv.pcs[t].got[0];
    FillKeepsDriver(s.drv, t);
    assert PcShape(s.drv, t) && Headed(s.drv, t);
    AvailRoom(s, t);
    Low16Slot(|s.hist.sub|);
    forall u | 0 <= u < |s.drv.pcs| && u != t && (s.drv.pcs[u].Waiting? || s.drv.pcs[u].Filled?)
      ensures s.drv.pcs[u].c.h != h && s.drv.pcs[u].b != s.drv.pcs[t].b && !s.drv.pcs[u].Filled?
    {
      Apart(s, t, u);
      assert LockAt(s.drv, t) && LockAt(s.drv, u);
    }
    hide DriverOk;
    forall u | 0 <= u < |s'.drv.pcs| ensures StageOk(s', u) {
      assert StageOk(s, u);
    }
    forall n | s.hist.taken <= n < |s.hist.sub| ensures AvailOk(s', n) {
      assert AvailOk(s, n);
      SlotsApart(n, |s.hist.sub|);
    }
    forall m | s.hist.seen <= m < |s.hist.cmp| ensures UsedOk(s', m) {
      assert UsedOk(s, m);
    }
    forall x | x in s.dev.inflight || s.dev.pending == Some(x) ensures HeadOk(s', x) {
      assert HeadOk(s, x);
    }
  }

  lemma PublishStep(s: State, t: nat)
    requires Inv(s) && Enabled(s, Publish(t))
    ensures Inv(Do(s, Publish(t)))
  {
    var s', h := Do(s, Publish(t)), s.drv.pcs[t].c.h;
    PublishKeepsDriver(s.drv, t);
    WaitingShape(s, t);
    Low16Slot(|s.hist.sub|);
    assert StageOk(s, t);
    NotElsewhere(s, t);
    forall u | 0 <= u < |s.drv.pcs| && u != t ensures !s.drv.pcs[u].Filled? {
      assert LockAt(s.drv, t) && LockAt(s.drv, u);
    }
    hide DriverOk;
    forall u | 0 <= u < |s'.drv.pcs| ensures StageOk(s', u) {
      assert StageOk(s, u);
    }
    forall n | s'.hist.taken <= n < |s'.hist.sub| ensures AvailOk(s', n) {
      if n < |s.hist.sub| { assert AvailOk(s, n); }
    }
    forall m | s.hist.seen <= m < |s.hist.cmp| ensures UsedOk(s', m) {
      assert UsedOk(s, m);
    }
    forall x | x in s.dev.inflight || s.dev.pending == Some(x) ensures HeadOk(s', x) {
      assert HeadOk(s, x);
    }
  }

  // The device has nothing to do with a chain that has not been published.
  lemma NotElsewhere(s: State, t: nat)
    requires Inv(s) && t < |s.drv.pcs| && s.drv.pcs[t].Filled?
    ensures s.drv.pcs[t].c.h !in s.dev.inflight && s.dev.pending != Some(s.drv.pcs[t].c.h)
  {
    hide StageOk, AvailOk, UsedOk;
    WaitingShape(s, t);
    var h := s.drv.pcs[t].c.h;
    assert DescOk(s.drv, t, 0, h);
    assert h in s.dev.inflight || s.dev.pending == Some(h) ==> HeadOk(s, h);
  }

  // The device's heads are not among the descriptors that go back.
  lemma FinishHead(s: State, t: nat, x: nat)
    requires Inv(s) && Linked(s.drv) && Enabled(s, Finish(t)) && HeadOk(s, x) && s.drv.pcs[t].c.h != x
    ensures HeadOk(Do(s, Finish(t)), x)
  {
    FinishKeepsDriver(s.drv, t);
    DescOf(s, x);
    hide AvailOk, UsedOk, Linked, Followed, Cleared, WakeWant;
    ChainStays(s.drv, t, s.drv.own[x].t, x);
  }

  lemma FinishStep(s: State, t: nat)
    requires Inv(s) && Linked(s.drv) && Enabled(s, Finish(t))
    ensures Inv(Do(s, Finish(t)))
  {
    var s', h := Do(s, Finish(t)), s.drv.pcs[t].c.h;
    FinishKeepsDriver(s.drv, t);
    hide Followed, Linked;
    WaitingShape(s, t);
    assert StageOk(s, t) && s.hist.stage[t] == Done;
    forall u | 0 <= u < |s.drv.pcs| && u != t && (s.drv.pcs[u].Waiting? || s.drv.pcs[u].Filled?)
      ensures s.drv.pcs[u].c.h != h
    {
      Apart(s, t, u);
    }
    forall x | x in s.dev.inflight || s.dev.pending == Some(x) ensures HeadOk(s', x) {
      FinishHead(s, t, x);
    }
    hide DriverOk, Freed, Cleared, WakeWant;
    forall u | 0 <= u < |s'.drv.pcs| ensures StageOk(s', u) {
      assert StageOk(s, u);
    }
    forall n | s.hist.taken <= n < |s.hist.sub| ensures AvailOk(s', n) {
      assert AvailOk(s, n);
    }
    forall m | s.hist.seen <= m < |s.hist.cmp| ensures UsedOk(s', m) {
      assert UsedOk(s, m);
    }
  }

  // The device's heads are those of the requesters recorded for them.
  lemma DescOf(s: State, x: nat)
    requires Inv(s) && HeadOk(s, x)
    ensures s.drv.pcs[s.drv.own[x].t].c.h == x
  {
    hide StageOk, AvailOk, UsedOk;
    assert DescOk(s.drv, s.drv.own[x].t, 0, x);
  }

  lemma DevTakeStep(s: State)
    requires Inv(s) && Enabled(s, DevTake)
    ensures Inv(Do(s, DevTake))
  {
    var s' := Do(s, DevTake);
    var n0 := s.hist.taken;
    Low16Slot(n0);
    assert AvailOk(s, n0);
    var t := s.hist.sub[n0];
    WaitingShape(s, t);
    assert DescOk(s.drv, t, 0, s.drv.pcs[t].c.h);
    forall u | 0 <= u < |s.drv.pcs| && u != t && s.drv.pcs[u].Waiting? ensures s.drv.pcs[u].c.h != s.drv.pcs[t].c.h {
      Apart(s, t, u);
    }
    hide DriverOk;
    forall u | 0 <= u < |s'.drv.pcs| ensures StageOk(s', u) {
      assert StageOk(s, u);
    }
    forall n | s'.hist.taken <= n < |s'.hist.sub| ensures AvailOk(s', n) {
      assert AvailOk(s, n);
    }
    forall m | s.hist.seen <= m < |s.hist.cmp| ensures UsedOk(s', m) {
      assert UsedOk(s, m);
    }
    forall x | x in s'.dev.inflight || s'.dev.pending == Some(x) ensures HeadOk(s', x) {
      if x != s.drv.pcs[t].c.h { assert HeadOk(s, x); }
    }
  }

  lemma DevDoneStep(s: State, h: nat)
    requires Inv(s) && Enabled(s, DevDone(h))
    ensures Inv(Do(s, DevDone(h)))
  {
    var s' := Do(s, DevDone(h));
    assert HeadOk(s, h);
    DescOf(s, h);
    var t := s.drv.own[h].t;
    WaitingShape(s, t);
    assert StageOk(s, t);
    UsedRoom(s, t);
    Low16Slot(|s.hist.cmp|);
    SameDriver(s.drv, s'.drv);
    forall u | 0 <= u < |s.drv.pcs| && u != t && (s.drv.pcs[u].Waiting? || s.drv.pcs[u].Filled?)
      ensures s.drv.pcs[u].c.h != h
    {
      Apart(s, t, u);
    }
    hide DriverOk;
    forall u | 0 <= u < |s'.drv.pcs| ensures StageOk(s', u) {
      assert StageOk(s, u);
    }
    forall n | s.hist.taken <= n < |s.hist.sub| ensures AvailOk(s', n) {
      assert AvailOk(s, n);
    }
    forall m | s.hist.seen <= m < |s.hist.cmp| ensures UsedOk(s', m) {
      assert UsedOk(s, m);
      SlotsApart(m, |s.hist.cmp|);
    }
    forall x | x in s'.dev.inflight ensures HeadOk(s', x) {
      assert HeadOk(s, x);
    }
  }

  lemma DevBumpStep(s: State)
    requires Inv(s) && Enabled(s, DevBump)
    ensures Inv(Do(s, DevBump))
  {
    var s', h := Do(s, DevBump), s.dev.pending.value;
    DescOf(s, h);
    var t := s.drv.own[h].t;
    WaitingShape(s, t);
    assert StageOk(s, t);
    Low16Slot(|s.hist.cmp|);
    forall u | 0 <= u < |s.drv.pcs| && u != t && s.drv.pcs[u].Waiting? ensures s.drv.pcs[u].c.h != h {
      Apart(s, t, u);
    }
    hide DriverOk;
    forall u | 0 <= u < |s'.drv.pcs| ensures StageOk(s', u) {
      assert StageOk(s, u);
    }
    forall n | s.hist.taken <= n < |s.hist.sub| ensures AvailOk(s', n) {
      assert AvailOk(s, n);
    }
    forall m | s'.hist.seen <= m < |s'.hist.cmp| ensures UsedOk(s', m) {
      if m < |s.hist.cmp| { assert UsedOk(s, m); }
    }
    forall x | x in s'.dev.inflight ensures HeadOk(s', x) {
      assert HeadOk(s, x);
    }
  }

  /** The next used entry belongs to the request recorded for it: its status is good, info[id].b is its
      buffer, and that buffer's flag is still up. */
  lemma NextCompletion(s: State) returns (t: nat)
    requires Inv(s) && Enabled(s, IntrOne)
    ensures s.hist.seen < |s.hist.cmp| && t == s.hist.cmp[s.hist.seen] < |s.drv.pcs| && s.drv.pcs[t].Waiting?
    ensures s.hist.stage[t] == Used(s.hist.seen)
    ensures !HandlerBad(s) && At(s.used.ring, s.seenIdx % NUM) == s.drv.pcs[t].c.h
    ensures s.drv.info[At(s.used.ring, s.seenIdx % NUM)] == Some(s.drv.pcs[t].b) && s.drv.pcs[t].b < |s.drv.disk|
    ensures s.drv.disk[s.drv.pcs[t].b]
  {
    hide DriverOk;
    Low16Slot(s.hist.seen);
    assert UsedOk(s, s.hist.seen);
    t := s.hist.cmp[s.hist.seen];
    assert StageOk(s, t);
  }

  lemma IntrOneStep(s: State)
    requires Inv(s) && Enabled(s, IntrOne)
    ensures Inv(Do(s, IntrOne))
  {
    var s' := Do(s, IntrOne);
    var t := NextCompletion(s);
    WaitingShape(s, t);
    assert StageOk(s, t);
    Low16Slot(s.hist.seen);
    SameDriver(s.drv, s'.drv);
    forall u | 0 <= u < |s.drv.pcs| && u != t && (s.drv.pcs[u].Waiting? || s.drv.pcs[u].Filled?)
      ensures s.drv.pcs[u].c.h != s.drv.pcs[t].c.h && s.drv.pcs[u].b != s.drv.pcs[t].b
    {
      Apart(s, t, u);
    }
    hide DriverOk;
    forall u | 0 <= u < |s'.drv.pcs| ensures StageOk(s', u) {
      assert StageOk(s, u);
    }
    forall n | s.hist.taken <= n < |s.hist.sub| ensures AvailOk(s', n) {
      assert AvailOk(s, n);
    }
    forall m | s'.hist.seen <= m < |s'.hist.cmp| ensures UsedOk(s', m) {
      assert UsedOk(s, m);
    }
    forall x | x in s'.dev.inflight || s'.dev.pending == Some(x) ensures HeadOk(s', x) {
      assert HeadOk(s, x);
    }
  }

  // ----- The links -----

  // A descriptor of u is not among those of t.
  lemma ChainStays(d: Driver, t: nat, u: nat, i: nat)
    requires DriverOk(d) && t < |d.pcs| && u < |d.pcs| && t != u && i < NUM
    requires d.pcs[t].Waiting? && (d.pcs[u].Waiting? || d.pcs[u].Filled?) && i in Path(d.pcs[u].c)
    ensures i !in Path(d.pcs[t].c)
  {
    if i in Path(d.pcs[t].c) {
      var k :| 0 <= k < 3 && Path(d.pcs[t].c)[k] == i;
      var m :| 0 <= m < 3 && Path(d.pcs[u].c)[m] == i;
      ChainsApart(d, t, u, k, m, i);
    }
  }

  lemma ChainedSame(desc: seq<VDesc>, desc': seq<VDesc>, path: seq<nat>)
    requires Chained(desc, path) && |desc'| == |desc| && forall k :: 0 <= k < |path| ==> desc'[path[k]] == desc[path[k]]
    ensures Chained(desc', path)
  {
    forall k | 0 <= k < |path| ensures LinkOk(desc', path, k) {
      assert LinkOk(desc, path, k);
    }
  }

  // A step of t that writes no descriptor but its own.
  lemma LinksMove(d: Driver, d': Driver, t: nat)
    requires DriverOk(d) && Linked(d) && t < |d.pcs| && |d'.desc| == |d'.ops| == NUM && |d'.pcs| == |d.pcs|
    requires |d'.asks| == |d.asks| && d'.asks == d.asks[t := d'.asks[t]]
    requires d'.pcs == d.pcs[t := d'.pcs[t]]
    requires forall i :: 0 <= i < NUM && (d'.desc[i] != d.desc[i] || d'.ops[i] != d.ops[i]) ==>
               d.own[i].Held? && d.own[i].t == t
    requires LinksAt(d', t)
    ensures Linked(d')
  {
    hide Chained;
    forall u | 0 <= u < |d'.pcs| && u != t ensures LinksAt(d', u) {
      assert LinksAt(d, u) && PcShape(d, u);
      if d.pcs[u].Filled? || d.pcs[u].Waiting? {
        var c := d.pcs[u].c;
        assert DescOk(d, u, 0, c.h) && DescOk(d, u, 1, c.d) && DescOk(d, u, 2, c.s);
        ChainedSame(d.desc, d'.desc, Path(c));
      }
    }
  }

  lemma PickLinks(d: Driver, t: nat)
    requires DriverOk(d) && Linked(d) && ReqEnabled(d, Pick(t))
    ensures Linked(PickOne(d, t))
  {
    hide Chained;
    var got := d.pcs[t].got;
    assert PcShape(d, t);
    forall k | 0 <= k < |got| ensures d.own[got[k]] == Held(t, k) {
      assert DescOk(d, t, k, got[k]);
    }
    LinksMove(d, PickOne(d, t), t);
  }

  lemma FillLinks(d: Driver, t: nat)
    requires DriverOk(d) && Linked(d) && ReqEnabled(d, Fill(t))
    ensures Linked(FillDriver(d, t))
  {
    var got, d' := d.pcs[t].got, FillDriver(d, t);
    var c := d'.pcs[t].c;
    assert PcShape(d, t) && DescOk(d, t, 0, c.h) && DescOk(d, t, 1, c.d) && DescOk(d, t, 2, c.s);
    assert LinkOk(d'.desc, Path(c), 0) && LinkOk(d'.desc, Path(c), 1) && LinkOk(d'.desc, Path(c), 2);
    assert LinksAt(d', t);
    hide Chained, LinksAt, DescOk;
    LinksMove(d, d', t);
  }

  lemma FinishLinks(d: Driver, t: nat)
    requires DriverOk(d) && Linked(d) && ReqEnabled(d, Finish(t))
    ensures Linked(FinishDriver(d, t))
  {
    var c := d.pcs[t].c;
    assert LinksAt(d, t) && PcShape(d, t);
    FollowsPath(d.desc, c);
    assert DescOk(d, t, 0, c.h) && DescOk(d, t, 1, c.d) && DescOk(d, t, 2, c.s);
    hide Chained, Followed;
    LinksMove(d, FinishDriver(d, t), t);
  }

  lemma LinksKept(s: State, st: Step)
    requires Inv(s) && Linked(s.drv) && Enabled(s, st)
    ensures Linked(Do(s, st).drv)
  {
    hide StageOk, AvailOk, UsedOk, HeadOk, DriverOk, Chained, PickOne, FillDriver, FinishDriver;
    var d, d' := s.drv, Do(s, st).drv;
    match st
    case Begin(t, _, _) => LinksMove(d, d', t);
    case Acquire(t) => LinksMove(d, d', t);
    case Pick(t) => PickLinks(d, t);
    case Fill(t) => FillLinks(d, t);
    case Publish(t) =>
      assert LinksAt(d, t);
      LinksMove(d, d', t);
    case Finish(t) => FinishLinks(d, t);
    case _ =>
      assert d'.desc == d.desc && d'.pcs == d.pcs;
      forall t | 0 <= t < |d'.pcs| ensures LinksAt(d', t) {
        assert LinksAt(d, t);
      }
  }

  // ----- Who sleeps -----

  /** alloc3_desc would fail. */
  ghost predicate FewFree(own: seq<Desc>) {
    forall i, j, k :: 0 <= i < j < k < |own| ==> !(own[i].FREE? && own[j].FREE? && own[k].FREE?)
  }

  /** What a sleeper waits for has not happened. */
  ghost predicate RestAt(d: Driver, t: nat)
    requires t < |d.pcs|
  {
    || (d.pcs[t].Want? && FewFree(d.own))
    || (d.pcs[t].Waiting? && d.pcs[t].b < |d.disk| && d.disk[d.pcs[t].b])
  }

  ghost predicate Rested(d: Driver) {
    |d.asleep| == |d.pcs| && forall t :: 0 <= t < |d.pcs| && d.asleep[t] ==> RestAt(d, t)
  }

  lemma PickRests(d: Driver, t: nat)
    requires Rested(d) && ReqEnabled(d, Pick(t))
    ensures Rested(PickOne(d, t))
  {
    var d', got := PickOne(d, t), d.pcs[t].got;
    assert FirstFrom(d.own, 0) == |d.own| ==> forall i :: 0 <= i < |d.own| && d'.own[i].FREE? ==> i in got;
    assert FewFree(d.own) || FirstFrom(d.own, 0) == |d.own| ==> FewFree(d'.own);
    hide FewFree, Cleared;
    forall u | 0 <= u < |d'.pcs| && d'.asleep[u] ensures RestAt(d', u) {
      assert d.asleep[u] ==> RestAt(d, u);
    }
  }

  lemma RestKept(s: State, st: Step)
    requires Rested(s.drv) && Enabled(s, st)
    ensures Rested(Do(s, st).drv)
  {
    if st.Pick? {
      PickRests(s.drv, st.t);
    } else {
      hide PickOne, FewFree, Followed, Written;
      var d, d' := s.drv, Do(s, st).drv;
      forall u | 0 <= u < |d'.pcs| && d'.asleep[u] ensures RestAt(d', u) {
        assert d.asleep[u] ==> RestAt(d, u);
      }
    }
  }

  lemma StepKeeps(s: State, st: Step)
    requires Inv(s) && Linked(s.drv) && Rested(s.drv) && Enabled(s, st)
    ensures Inv(Do(s, st)) && Linked(Do(s, st).drv) && Rested(Do(s, st).drv)
  {
    hide Inv, Linked, Rested, Do;
    LinksKept(s, st);
    RestKept(s, st);
    match st
    case Begin(_, _, _) => QuietStep(s, st);
    case Acquire(_) => QuietStep(s, st);
    case Pick(_) => QuietStep(s, st);
    case Fill(t) => FillStep(s, t);
    case Publish(t) => PublishStep(s, t);
    case Finish(t) => FinishStep(s, t);
    case DevTake => DevTakeStep(s);
    case DevDone(h) => DevDoneStep(s, h);
    case DevBump => DevBumpStep(s);
    case Recheck(_) => LockOrSleep(s, st);
    case Kill(_) => LockOrSleep(s, st);
    case IntrAcquire => LockOrSleep(s, st);
    case IntrOne => IntrOneStep(s);
    case IntrRelease => LockOrSleep(s, st);
  }

  // ----- Runs -----

  ghost predicate Start(s: State) {
    && Shaped(s) && (forall i :: 0 <= i < NUM ==> s.drv.own[i].FREE?) &&
      (forall t :: 0 <= t < |s.drv.pcs| ==> s.drv.pcs[t].Idle?)
    && |s.drv.ops| == NUM && |s.drv.asks| == |s.drv.asleep| == |s.drv.pcs|
    && (forall t :: 0 <= t < |s.drv.pcs| ==> !s.drv.asleep[t])
    && s.drv.lock == Nobody && s.avail.idx == s.used.idx == s.seenIdx == s.dev.idx == 0 && s.dev.inflight == {} &&
      s.dev.pending == None
    && s.hist == History([], 0, [], 0, s.hist.stage, s.hist.submitted, s.hist.cleared)
    && |s.hist.stage| == |s.hist.submitted| == |s.hist.cleared| == |s.drv.pcs|
    && (forall t :: 0 <= t < |s.drv.pcs| ==> s.hist.stage[t] == NotOut && s.hist.submitted[t] == s.hist.cleared[t] == 0)
  }

  ghost predicate Runs(s: State, run: seq<Step>, r: State)
    decreases |run|
  {
    if run == [] then r == s else Enabled(s, run[0]) && Runs(Do(s, run[0]), run[1..], r)
  }

  lemma StartInv(s: State)
    requires Start(s)
    ensures Inv(s) && Linked(s.drv) && Rested(s.drv)
  {
  }

  lemma {:induction false} RunInv(s: State, run: seq<Step>, r: State)
    requires Inv(s) && Linked(s.drv) && Rested(s.drv) && Runs(s, run, r)
    ensures Inv(r) && Linked(r.drv) && Rested(r.drv)
    decreases |run|
  {
    hide Inv, Linked, Rested;
    if run != [] {
      StepKeeps(s, run[0]);
      RunInv(Do(s, run[0]), run[1..], r);
    }
  }

  lemma Reached(s: State, run: seq<Step>, r: State)
    requires Start(s) && Runs(s, run, r)
    ensures Inv(r) && Linked(r.drv) && Rested(r.drv)
  {
    hide Inv, Linked, Rested;
    StartInv(s);
    RunInv(s, run, r);
  }

  /** Every descriptor is free, or held by the requester allocating, or one of the three of exactly one
      published chain. */
  lemma DescriptorsPartitioned(s: State, run: seq<Step>, r: State, i: nat, t: nat, k: nat)
    requires Start(s) && Runs(s, run, r) && i < NUM && t < |r.drv.pcs|
    ensures i < |r.drv.own| && (r.drv.own[i] == Held(t, k) <==> Has(r.drv.pcs[t], k, i))
    ensures r.drv.own[i].Held? ==> r.drv.own[i].t < |r.drv.pcs| && Has(r.drv.pcs[r.drv.own[i].t], r.drv.own[i].k, i)
    ensures r.drv.pcs[t].Picking? || r.drv.pcs[t].Filled? <==> r.drv.lock == Requester(t)
  {
    Reached(s, run, r);
    hide StageOk, AvailOk, UsedOk, HeadOk, Has;
    assert DescOk(r.drv, t, k, i) && LockAt(r.drv, t);
    if r.drv.own[i].Held? {
      assert DescOk(r.drv, r.drv.own[i].t, r.drv.own[i].k, i);
    }
  }

  /** The chain the device and free_chain follow from the head is the requester's three descriptors, none of
      them free, and they say what was asked for. */
  lemma ChainsLinked(s: State, run: seq<Step>, r: State, t: nat)
    requires Start(s) && Runs(s, run, r) && t < |r.drv.pcs| && (r.drv.pcs[t].Filled? || r.drv.pcs[t].Waiting?)
    ensures var path := Path(r.drv.pcs[t].c);
            && |r.drv.desc| == |r.drv.own| == NUM && t < |r.drv.asks|
            && Describes(r.drv.desc, r.drv.ops, r.drv.pcs[t].c, r.drv.pcs[t].b, r.drv.asks[t])
            && (forall k :: 0 <= k < 3 ==> r.drv.own[path[k]] == Held(t, k))
  {
    Reached(s, run, r);
    hide StageOk, AvailOk, UsedOk, HeadOk;
    var c := r.drv.pcs[t].c;
    assert LinksAt(r.drv, t) && PcShape(r.drv, t);
    assert DescOk(r.drv, t, 0, c.h) && DescOk(r.drv, t, 1, c.d) && DescOk(r.drv, t, 2, c.s);
  }

  /** A requester that is done frees its own three descriptors, and no other changes hands or contents. */
  lemma FinishFreesOwn(s: State, run: seq<Step>, r: State, t: nat, i: nat)
    requires Start(s) && Runs(s, run, r) && Enabled(r, Finish(t)) && i < NUM
    ensures var d, d' := r.drv, Do(r, Finish(t)).drv;
            if d.own[i].Held? && d.own[i].t == t then d'.own[i].FREE? && d'.desc[i] == CLEAR
            else d'.own[i] == d.own[i] && d'.desc[i] == d.desc[i]
  {
    Reached(s, run, r);
    hide StageOk, AvailOk, UsedOk, HeadOk;
    var c := r.drv.pcs[t].c;
    assert LinksAt(r.drv, t) && PcShape(r.drv, t);
    FollowsPath(r.drv.desc, c);
    hide Chained, Followed;
    if r.drv.own[i].Held? && r.drv.own[i].t == t {
      assert DescOk(r.drv, t, r.drv.own[i].k, i);
    } else {
      assert DescOk(r.drv, t, 0, i) && DescOk(r.drv, t, 1, i) && DescOk(r.drv, t, 2, i);
    }
  }

  /** The avail slot about to be written holds no entry the device has yet to take. */
  lemma AvailSlotFree(s: State, run: seq<Step>, r: State, t: nat, n: nat)
    requires Start(s) && Runs(s, run, r) && Enabled(r, Fill(t)) && r.hist.taken <= n < |r.hist.sub|
    ensures n % NUM != r.avail.idx % NUM
  {
    Reached(s, run, r);
    Low16Slot(|r.hist.sub|);
    assert PcShape(r.drv, t) && Headed(r.drv, t);
    AvailRoom(r, t);
    SlotsApart(n, |r.hist.sub|);
  }

  /** The used slot about to be written holds no entry the handler has yet to see. */
  lemma UsedSlotFree(s: State, run: seq<Step>, r: State, h: nat, m: nat)
    requires Start(s) && Runs(s, run, r) && Enabled(r, DevDone(h)) && r.hist.seen <= m < |r.hist.cmp|
    ensures m % NUM != r.used.idx % NUM
  {
    Reached(s, run, r);
    Low16Slot(|r.hist.cmp|);
    assert HeadOk(r, h);
    DescOf(r, h);
    var t := r.drv.own[h].t;
    WaitingShape(r, t);
    assert StageOk(r, t);
    UsedRoom(r, t);
    SlotsApart(m, |r.hist.cmp|);
  }

  /** Though they wrap, two indices differ exactly when there are entries between them. */
  lemma IndicesTell(s: State, run: seq<Step>, r: State)
    requires Start(s) && Runs(s, run, r)
    ensures r.dev.idx != r.avail.idx <==> r.hist.taken < |r.hist.sub|
    ensures r.seenIdx != r.used.idx <==> r.hist.seen < |r.hist.cmp|
  {
    Reached(s, run, r);
    BothFew(r);
    Low16Differ(r.hist.taken, |r.hist.sub|);
    Low16Differ(r.hist.seen, |r.hist.cmp|);
  }

  lemma Low16Differ(m: nat, n: nat)
    requires m <= n <= m + NUM
    ensures Low16(m) != Low16(n) <==> m < n
  {
  }

  lemma BothFew(s: State)
    requires Inv(s)
    ensures |s.hist.sub| - s.hist.taken <= NUM && |s.hist.cmp| - s.hist.seen <= NUM
  {
    hide DriverOk, StageOk, Headed;
    var a, b := s.hist.sub[s.hist.taken..], s.hist.cmp[s.hist.seen..];
    forall j | 0 <= j < |a| ensures Headed(s.drv, a[j]) {
      assert AvailOk(s, s.hist.taken + j);
      WaitingShape(s, a[j]);
    }
    forall j | 0 <= j < |b| ensures Headed(s.drv, b[j]) {
      assert UsedOk(s, s.hist.seen + j);
      WaitingShape(s, b[j]);
    }
    forall i, j | 0 <= i < j < |a| ensures a[i] != a[j] {
      assert AvailOk(s, s.hist.taken + i) && AvailOk(s, s.hist.taken + j);
    }
    forall i, j | 0 <= i < j < |b| ensures b[i] != b[j] {
      assert UsedOk(s, s.hist.seen + i) && UsedOk(s, s.hist.seen + j);
    }
    FewChains(s.drv, a);
    FewChains(s.drv, b);
  }

  /** Over any run each requester's flag has been cleared once for each request it published, but for the
      one still out, whose flag is up. */
  lemma ClearedOncePerRequest(s: State, run: seq<Step>, r: State, t: nat)
    requires Start(s) && Runs(s, run, r) && t < |r.drv.pcs|
    ensures t < |r.hist.submitted| && t < |r.hist.cleared| && t < |r.hist.stage|
    ensures r.hist.submitted[t] == r.hist.cleared[t] +
              (if r.drv.pcs[t].Waiting? && r.hist.stage[t] != Done then 1 else 0)
    ensures r.drv.pcs[t].Waiting? ==>
              r.drv.pcs[t].b < |r.drv.disk| && (r.drv.disk[r.drv.pcs[t].b] <==> r.hist.stage[t] != Done)
  {
    Reached(s, run, r);
    assert StageOk(r, t);
  }

  /** A completion clears the flag of its own request's buffer, which was up, and of no other; the handler's
      panic cannot happen. */
  lemma CompletionIsOwn(s: State, run: seq<Step>, r: State)
    requires Start(s) && Runs(s, run, r) && Enabled(r, IntrOne)
    ensures !HandlerBad(r) && r.hist.seen < |r.hist.cmp|
    ensures var t := r.hist.cmp[r.hist.seen];
            && t < |r.drv.pcs| && r.drv.pcs[t].Waiting? && r.drv.pcs[t].b < |r.drv.disk| && r.drv.disk[r.drv.pcs[t].b]
            && Do(r, IntrOne).drv.disk == r.drv.disk[r.drv.pcs[t].b := false]
            && Do(r, IntrOne).hist.cleared == Bump(r.hist.cleared, t)
  {
    Reached(s, run, r);
    var t := NextCompletion(r);
  }

  /** No wakeup is lost, kills included: a requester asleep on its buffer has its flag up and its request still
      on its way; one asleep for descriptors finds fewer than three free, and, while the lock is free, another
      requester has a request out and will free its own. */
  lemma NoLostWakeup(s: State, run: seq<Step>, r: State, t: nat) returns (u: nat)
    requires Start(s) && Runs(s, run, r) && t < |r.drv.pcs| && Asleep(r.drv, t)
    ensures r.drv.pcs[t].Waiting? ==>
              && r.drv.pcs[t].b < |r.drv.disk| && r.drv.disk[r.drv.pcs[t].b]
              && t < |r.hist.stage| && r.hist.stage[t] != Done
    ensures r.drv.pcs[t].Want? ==> FewFree(r.drv.own)
    ensures r.drv.pcs[t].Want? && r.drv.lock == Nobody ==> u < |r.drv.pcs| && u != t && r.drv.pcs[u].Waiting?
    ensures r.drv.pcs[t].Want? || r.drv.pcs[t].Waiting?
  {
    Reached(s, run, r);
    hide AvailOk, UsedOk, HeadOk;
    assert RestAt(r.drv, t) && StageOk(r, t);
    u := 0;
    if r.drv.pcs[t].Want? {
      assert !(r.drv.own[0].FREE? && r.drv.own[1].FREE? && r.drv.own[2].FREE?);
      var i := if !r.drv.own[0].FREE? then 0 else if !r.drv.own[1].FREE? then 1 else 2;
      u := r.drv.own[i].t;
      assert DescOk(r.drv, u, r.drv.own[i].k, i) && LockAt(r.drv, u);
    }
  }
}
