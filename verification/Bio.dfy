/** kernel/bio.c: the buffer cache as a doubly linked ring around a sentinel, ordered by last use.
    A `struct buf *` is an index: 0 is &bcache.head, k > 0 is &bcache.buf[k - 1]. */
module Bio {
  import opened Machine

  datatype Buf = Buf(dev: nat, blockno: nat, valid: bool, refcnt: nat, prev: nat, next: nat)

  const HEAD: nat := 0

  /** The neighbour at place i of the ring, the sentinel sitting on both ends. */
  function At(ring: seq<nat>, i: int): nat {
    if 0 <= i < |ring| then ring[i] else HEAD
  }

  ghost predicate LinkOk(bufs: seq<Buf>, ring: seq<nat>, i: int)
    requires 0 <= i < |ring| && ring[i] < |bufs|
  {
    bufs[ring[i]].next == At(ring, i + 1) && bufs[ring[i]].prev == At(ring, i - 1)
  }

  /** prev and next thread `ring` both ways, from head.next to head.prev. */
  ghost predicate Threads(bufs: seq<Buf>, ring: seq<nat>) {
    && 0 < |bufs|
    && (forall i :: 0 <= i < |ring| ==> HEAD < ring[i] < |bufs|)
    && Distinct(ring)
    && bufs[HEAD].next == At(ring, 0) && bufs[HEAD].prev == At(ring, |ring| - 1)
    && (forall i :: 0 <= i < |ring| ==> LinkOk(bufs, ring, i))
  }

  /** The ring is one circular permutation of all the buffers. */
  ghost predicate Linked(bufs: seq<Buf>, ring: seq<nat>) {
    Threads(bufs, ring) && forall b :: HEAD < b < |bufs| ==> b in ring
  }

  predicate Holds(b: Buf, dev: nat, blockno: nat) {
    b.dev == dev && b.blockno == blockno
  }

  /** At most one buffer holds a given block of a real device. */
  ghost predicate Unique(bufs: seq<Buf>) {
    forall b, c :: HEAD < b < c < |bufs| && bufs[b].dev != 0 ==> !Holds(bufs[c], bufs[b].dev, bufs[b].blockno)
  }

  /** Unreferenced buffers stand in the order their counts reached zero, latest first. */
  ghost predicate Lru(bufs: seq<Buf>, ring: seq<nat>, idle: seq<nat>, clock: nat)
    requires Linked(bufs, ring) && |idle| == |bufs|
  {
    && (forall i, j {:trigger bufs[ring[i]], bufs[ring[j]]} ::
        0 <= i < j < |ring| && bufs[ring[i]].refcnt == 0 && bufs[ring[j]].refcnt == 0 ==> idle[ring[i]] > idle[ring[j]])
    && (forall b :: HEAD < b < |bufs| && bufs[b].refcnt == 0 ==> idle[b] < clock)
  }

  // ----- Link surgery, on values -----

  ghost predicate OnlyLinksDiffer(bufs: seq<Buf>, bufs': seq<Buf>) {
    |bufs'| == |bufs| && forall b :: 0 <= b < |bufs| ==>
      bufs'[b] == bufs[b].(prev := bufs'[b].prev, next := bufs'[b].next)
  }

  function Without(ring: seq<nat>, k: nat): seq<nat>
    requires k < |ring|
  {
    ring[..k] + ring[k + 1..]
  }

  function SetNext(bufs: seq<Buf>, b: nat, x: nat): seq<Buf>
    requires b < |bufs|
  {
    bufs[b := bufs[b].(next := x)]
  }

  function SetPrev(bufs: seq<Buf>, b: nat, x: nat): seq<Buf>
    requires b < |bufs|
  {
    bufs[b := bufs[b].(prev := x)]
  }

  /** b is bridged over: its neighbours point at each other. */
  function Unlink(bufs: seq<Buf>, b: nat): (r: seq<Buf>)
    requires b < |bufs| && bufs[b].next < |bufs| && bufs[b].prev < |bufs|
    ensures |r| == |bufs|
  {
    SetNext(SetPrev(bufs, bufs[b].next, bufs[b].prev), bufs[b].prev, bufs[b].next)
  }

  /** b goes in between the head and what was first. */
  function Push(bufs: seq<Buf>, b: nat): (r: seq<Buf>)
    requires b < |bufs| && bufs[HEAD].next < |bufs|
    ensures |r| == |bufs|
  {
    SetNext(SetPrev(SetPrev(SetNext(bufs, b, bufs[HEAD].next), b, HEAD), bufs[HEAD].next, b), HEAD, b)
  }

  lemma SurgeryOnlyLinks(bufs: seq<Buf>, b: nat)
    requires b < |bufs|
    ensures bufs[b].next < |bufs| && bufs[b].prev < |bufs| ==> OnlyLinksDiffer(bufs, Unlink(bufs, b))
    ensures bufs[HEAD].next < |bufs| ==> OnlyLinksDiffer(bufs, Push(bufs, b))
  {
  }

  lemma UnlinkedLinks(bufs: seq<Buf>, ring: seq<nat>, k: nat, i: nat)
    requires Threads(bufs, ring) && k < |ring| && i < |Without(ring, k)|
    requires bufs[ring[k]].next == At(ring, k + 1) < |bufs| && bufs[ring[k]].prev == At(ring, k - 1) < |bufs|
    ensures Without(ring, k)[i] < |bufs| && LinkOk(Unlink(bufs, ring[k]), Without(ring, k), i)
  {
    var j := if i < k then i else i + 1;
    assert Without(ring, k)[i] == ring[j];
    assert LinkOk(bufs, ring, j);
  }

  lemma UnlinkedHead(bufs: seq<Buf>, ring: seq<nat>, k: nat)
    requires 0 < |bufs| && k < |ring| && Distinct(ring) && (forall i :: 0 <= i < |ring| ==> HEAD < ring[i] < |bufs|)
    requires bufs[HEAD].next == At(ring, 0) && bufs[HEAD].prev == At(ring, |ring| - 1)
    requires bufs[ring[k]].next == At(ring, k + 1) < |bufs| && bufs[ring[k]].prev == At(ring, k - 1) < |bufs|
    ensures var r, cut := Unlink(bufs, ring[k]), Without(ring, k);
            && r[HEAD].next == At(cut, 0) && r[HEAD].prev == At(cut, |cut| - 1)
            && Distinct(cut) && (forall i :: 0 <= i < |cut| ==> HEAD < cut[i] < |bufs|)
  {
  }

  lemma Unlinks(bufs: seq<Buf>, ring: seq<nat>, k: nat)
    requires Threads(bufs, ring) && k < |ring|
    ensures var b := ring[k];
            && bufs[b].next < |bufs| && bufs[b].prev < |bufs|
            && Threads(Unlink(bufs, b), Without(ring, k))
  {
    var cut := Without(ring, k);
    assert LinkOk(bufs, ring, k);
    var r := Unlink(bufs, ring[k]);
    hide LinkOk, Distinct, Unlink, Without;
    UnlinkedHead(bufs, ring, k);
    forall i | 0 <= i < |cut| ensures cut[i] < |bufs| && LinkOk(r, cut, i) {
      UnlinkedLinks(bufs, ring, k, i);
    }
  }

  lemma PushesFront(bufs: seq<Buf>, ring: seq<nat>, b: nat)
    requires Threads(bufs, ring) && HEAD < b < |bufs| && b !in ring
    ensures bufs[HEAD].next < |bufs|
    ensures Threads(Push(bufs, b), [b] + ring)
  {
    var r := Push(bufs, b);
    var ring' := [b] + ring;
    forall i | 0 <= i < |ring'| ensures LinkOk(r, ring', i) {
      if i > 0 {
        assert ring'[i] == ring[i - 1];
        assert LinkOk(bufs, ring, i - 1);
      }
    }
  }

  lemma WithoutMembers(ring: seq<nat>, k: nat)
    requires Distinct(ring) && k < |ring|
    ensures ring[k] !in Without(ring, k)
    ensures forall x :: x in ring && x != ring[k] ==> x in Without(ring, k)
  {
    forall x | x in ring && x != ring[k] ensures x in Without(ring, k) {
      var i :| 0 <= i < |ring| && ring[i] == x;
      assert Without(ring, k)[if i < k then i else i - 1] == x;
    }
  }

  lemma SameLinks(bufs: seq<Buf>, bufs': seq<Buf>, ring: seq<nat>)
    requires Threads(bufs, ring) && |bufs'| == |bufs|
    requires forall b :: 0 <= b < |bufs| ==> bufs'[b].prev == bufs[b].prev && bufs'[b].next == bufs[b].next
    ensures Threads(bufs', ring)
  {
    forall i | 0 <= i < |ring| ensures LinkOk(bufs', ring, i) {
      assert LinkOk(bufs, ring, i);
    }
  }

  // Taking or sharing a reference, without touching the links, keeps the ring and its order.
  lemma ReferencedKeepsOrder(bufs: seq<Buf>, ring: seq<nat>, idle: seq<nat>, clock: nat, b: nat, taken: Buf)
    requires Linked(bufs, ring) && |idle| == |bufs| && Lru(bufs, ring, idle, clock) && HEAD < b < |bufs|
    requires taken.prev == bufs[b].prev && taken.next == bufs[b].next && taken.refcnt > 0
    ensures Linked(bufs[b := taken], ring) && Lru(bufs[b := taken], ring, idle, clock)
  {
    hide Distinct;
    var r := bufs[b := taken];
    SameLinks(bufs, r, ring);
    assert forall i :: 0 <= i < |ring| && r[ring[i]].refcnt == 0 ==> bufs[ring[i]].refcnt == 0;
  }

  // The buffer whose count just reached zero goes first and gets the latest time.
  lemma MovedToFront(bufs: seq<Buf>, bufs': seq<Buf>, ring: seq<nat>, k: nat, idle: seq<nat>, clock: nat)
    requires Linked(bufs, ring) && |idle| == |bufs| && Lru(bufs, ring, idle, clock) && k < |ring|
    requires |bufs'| == |bufs| && Threads(bufs', [ring[k]] + Without(ring, k))
    requires forall b :: HEAD < b < |bufs| && b != ring[k] ==> bufs'[b].refcnt == bufs[b].refcnt
    ensures Linked(bufs', [ring[k]] + Without(ring, k))
    ensures Lru(bufs', [ring[k]] + Without(ring, k), idle[ring[k] := clock], clock + 1)
  {
    var cut := Without(ring, k);
    var ring' := [ring[k]] + cut;
    var idle' := idle[ring[k] := clock];
    WithoutMembers(ring, k);
    forall i, j | 0 <= i < j < |ring'| && bufs'[ring'[i]].refcnt == 0 && bufs'[ring'[j]].refcnt == 0
      ensures idle'[ring'[i]] > idle'[ring'[j]]
    {
      var q := if j - 1 < k then j - 1 else j;
      assert ring'[j] == cut[j - 1] == ring[q] && bufs[ring[q]].refcnt == 0;
      if i > 0 {
        var p := if i - 1 < k then i - 1 else i;
        assert ring'[i] == cut[i - 1] == ring[p] && bufs[ring[p]].refcnt == 0;
      }
    }
  }

  // brelse's surgery as a whole.
  lemma Requeues(bufs: seq<Buf>, ring: seq<nat>, k: nat)
    requires Threads(bufs, ring) && k < |ring|
    ensures var b := ring[k];
            && bufs[b].next < |bufs| && bufs[b].prev < |bufs| && Unlink(bufs, b)[HEAD].next < |bufs|
            && Threads(Push(Unlink(bufs, b), b), [b] + Without(ring, k))
            && OnlyLinksDiffer(bufs, Push(Unlink(bufs, b), b))
  {
    hide Unlink, Push, Distinct;
    var b := ring[k];
    Unlinks(bufs, ring, k);
    SurgeryOnlyLinks(bufs, b);
    SurgeryOnlyLinks(Unlink(bufs, b), b);
    WithoutMembers(ring, k);
    PushesFront(Unlink(bufs, b), Without(ring, k), b);
  }

  class Bcache {
    var bufs: seq<Buf>
    ghost var ring: seq<nat>
    ghost var idle: seq<nat>     // when each count last reached zero
    ghost var clock: nat

    ghost predicate Valid()
      reads this
    {
      Linked(bufs, ring) && Unique(bufs) && |idle| == |bufs| && Lru(bufs, ring, idle, clock)
    }

    /** binit: every buffer is pushed at the front of an empty ring. */
    constructor (nbuf: nat)
      ensures Valid() && |bufs| == nbuf + 1
      ensures forall b :: HEAD < b < |bufs| ==> bufs[b].dev == 0 && !bufs[b].valid && bufs[b].refcnt == 0
    {
      hide Push;
      var all := seq(nbuf + 1, _ => Buf(0, 0, false, 0, HEAD, HEAD));
      ghost var order: seq<nat> := [];
      for b := 1 to nbuf + 1
        invariant |all| == nbuf + 1 && Threads(all, order)
        invariant |order| == b - 1 && forall i :: 0 <= i < b - 1 ==> order[i] == b - 1 - i
        invariant forall x :: HEAD < x <= nbuf ==> all[x].dev == 0 && !all[x].valid && all[x].refcnt == 0
      {
        PushesFront(all, order, b);
        SurgeryOnlyLinks(all, b);
        all := Push(all, b);
        order := [b] + order;
      }
      bufs := all;
      ring := order;
      idle := seq(nbuf + 1, i => i);
      clock := nbuf + 1;
      forall b | HEAD < b <= nbuf ensures b in order {
        assert order[nbuf - b] == b;
      }
    }

    /** bget's first loop, from the most recently used end. */
    method Lookup(dev: nat, blockno: nat) returns (b: nat)
      requires Valid()
      ensures b < |bufs|
      ensures if b == HEAD then forall x :: HEAD < x < |bufs| ==> !Holds(bufs[x], dev, blockno)
              else Holds(bufs[b], dev, blockno)
    {
      hide Distinct, Lru, Unique;
      b := bufs[HEAD].next;
      ghost var i := 0;
      while b != HEAD && !(bufs[b].dev == dev && bufs[b].blockno == blockno)
        invariant 0 <= i <= |ring| && b == At(ring, i)
        invariant forall k :: 0 <= k < i ==> !Holds(bufs[ring[k]], dev, blockno)
        decreases |ring| - i
      {
        assert LinkOk(bufs, ring, i);
        b := bufs[b].next;
        i := i + 1;
      }
      forall x | HEAD < x < |bufs| && b == HEAD ensures !Holds(bufs[x], dev, blockno) {
        assert x in ring;
      }
    }

    /** bget's second loop, from the least recently used end: the buffer idle for longest. */
    method Victim() returns (b: nat)
      requires Valid()
      ensures b < |bufs|
      ensures if b == HEAD then forall x :: HEAD < x < |bufs| ==> bufs[x].refcnt != 0
              else bufs[b].refcnt == 0 && forall x :: HEAD < x < |bufs| && x != b && bufs[x].refcnt == 0 ==>
                idle[b] < idle[x]
    {
      hide Distinct, Unique;
      b := bufs[HEAD].prev;
      ghost var i := |ring|;
      while b != HEAD && bufs[b].refcnt != 0
        invariant 0 <= i <= |ring| && b == At(ring, i - 1)
        invariant forall k :: i <= k < |ring| ==> bufs[ring[k]].refcnt != 0
        decreases i
      {
        assert LinkOk(bufs, ring, i - 1);
        b := bufs[b].prev;
        i := i - 1;
      }
      forall x | HEAD < x < |bufs| && x != b && bufs[x].refcnt == 0 ensures b != HEAD && idle[b] < idle[x] {
        assert x in ring;
        var k :| 0 <= k < |ring| && ring[k] == x;
        assert bufs[ring[k]].refcnt == 0 && bufs[ring[i - 1]].refcnt == 0;
      }
    }

    /** bget up to the release of bcache.lock; returning HEAD stands for the panic. */
    method Bget(dev: nat, blockno: nat) returns (b: nat)
      requires Valid()
      modifies this`bufs
      ensures Valid() && b < |bufs| == |old(bufs)|
      ensures b != HEAD ==>
                bufs == old(bufs)[b := bufs[b]] && Holds(bufs[b], dev, blockno) &&
                  bufs[b].refcnt == old(bufs)[b].refcnt + 1
      // cached: that buffer, contents untouched
      ensures (exists x :: HEAD < x < |bufs| && Holds(old(bufs)[x], dev, blockno)) ==>
                b != HEAD && Holds(old(bufs)[b], dev, blockno) && bufs[b].valid == old(bufs)[b].valid
      // not cached: the buffer that has been idle for longest, contents dropped; or panic
      ensures (forall x :: HEAD < x < |bufs| ==> !Holds(old(bufs)[x], dev, blockno)) ==>
                if exists x :: HEAD < x < |bufs| && old(bufs)[x].refcnt == 0 then
                  && b != HEAD && old(bufs)[b].refcnt == 0 && !bufs[b].valid
                  && forall x :: HEAD < x < |bufs| && old(bufs)[x].refcnt == 0 && x != b ==> idle[b] < idle[x]
                else b == HEAD && bufs == old(bufs)
    {
      hide Linked, Lru;
      b := Lookup(dev, blockno);
      if b != HEAD {
        ReferencedKeepsOrder(bufs, ring, idle, clock, b, bufs[b].(refcnt := bufs[b].refcnt + 1));
        bufs := bufs[b := bufs[b].(refcnt := bufs[b].refcnt + 1)];
      } else {
        b := Victim();
        if b != HEAD {
          ghost var taken := bufs[b].(dev := dev, blockno := blockno, valid := false, refcnt := 1);
          ReferencedKeepsOrder(bufs, ring, idle, clock, b, taken);
          bufs := bufs[b := bufs[b].(dev := dev, blockno := blockno, valid := false, refcnt := 1)];
        }
      }
    }

    /** brelse after releasesleep: the last reference moves the buffer to the front of the ring. */
    method Brelse(b: nat)
      requires Valid() && HEAD < b < |bufs| && bufs[b].refcnt > 0
      modifies this
      ensures Valid() && OnlyLinksDiffer(old(bufs)[b := old(bufs[b]).(refcnt := old(bufs[b]).refcnt - 1)], bufs)
      ensures if old(bufs[b]).refcnt == 1 then bufs[HEAD].next == b && idle == old(idle)[b := old(clock)]
              else ring == old(ring) && idle == old(idle)
    {
      hide Lru, Distinct, Unlink, Push, Without;
      bufs := bufs[b := bufs[b].(refcnt := bufs[b].refcnt - 1)];
      if bufs[b].refcnt == 0 {
        assert b in ring;
        ghost var k :| 0 <= k < |ring| && ring[k] == b;
        SameLinks(old(bufs), bufs, ring);
        Requeues(bufs, ring, k);
        bufs := Unlink(bufs, b);
        bufs := Push(bufs, b);
        MovedToFront(old(bufs), bufs, ring, k, idle, clock);
        ring := [b] + Without(ring, k);
        idle := idle[b := clock];
        clock := clock + 1;
      } else {
        ReferencedKeepsOrder(old(bufs), ring, idle, clock, b, bufs[b]);
      }
    }

    method Bpin(b: nat)
      requires Valid() && HEAD < b < |bufs| && bufs[b].refcnt > 0
      modifies this`bufs
      ensures Valid() && bufs == old(bufs)[b := old(bufs[b]).(refcnt := old(bufs[b]).refcnt + 1)]
    {
      hide Linked, Lru;
      ReferencedKeepsOrder(bufs, ring, idle, clock, b, bufs[b].(refcnt := bufs[b].refcnt + 1));
      bufs := bufs[b := bufs[b].(refcnt := bufs[b].refcnt + 1)];
    }

    /** bunpin does not move the buffer, so the order by idle time is sure to survive only while another reference
        is held. */
    method Bunpin(b: nat)
      requires Valid() && HEAD < b < |bufs| && bufs[b].refcnt > 0
      modifies this`bufs
      ensures bufs == old(bufs)[b := old(bufs[b]).(refcnt := old(bufs[b]).refcnt - 1)]
      ensures old(bufs[b]).refcnt > 1 ==> Valid()
    {
      hide Linked, Lru;
      if bufs[b].refcnt > 1 {
        ReferencedKeepsOrder(bufs, ring, idle, clock, b, bufs[b].(refcnt := bufs[b].refcnt - 1));
      }
      bufs := bufs[b := bufs[b].(refcnt := bufs[b].refcnt - 1)];
    }
  }
}
