/** The descriptor bookkeeping of kernel/virtio_disk.c: alloc_desc, alloc3_desc, free_desc, free_chain. */
module Virtio {
  const NUM: nat := 8

  /** struct virtq_desc: flags says whether `next` is meant and whether the device writes. */
  datatype VDesc = VDesc(addr: nat, len: nat, hasNext: bool, devWrites: bool, next: nat)

  /** The descriptors reached from path[0] by following next, in order. */
  ghost predicate Chained(desc: seq<VDesc>, path: seq<nat>) {
    && 0 < |path| && (forall k :: 0 <= k < |path| ==> path[k] < |desc|)
    && (forall j, k :: 0 <= j < k < |path| ==> path[j] != path[k])
    && (forall k :: 0 <= k < |path| ==> LinkOk(desc, path, k))
  }

  ghost predicate LinkOk(desc: seq<VDesc>, path: seq<nat>, k: nat)
    requires k < |path| && path[k] < |desc|
  {
    desc[path[k]].hasNext == (k + 1 < |path|) && (k + 1 < |path| ==> desc[path[k]].next == path[k + 1])
  }

  class Disk {
    const free: array<bool>
    const desc: array<VDesc>

    ghost predicate Valid()
      reads this
    {
      free.Length == desc.Length == NUM
    }

    constructor ()
      ensures Valid() && fresh(free) && fresh(desc) && forall i :: 0 <= i < NUM ==> free[i]
    {
      free := new bool[NUM](_ => true);
      desc := new VDesc[NUM](_ => VDesc(0, 0, false, false, 0));
    }

    /** The lowest free descriptor, no longer free; NUM stands for -1. */
    method AllocDesc() returns (i: nat)
      requires Valid()
      modifies free
      ensures i <= NUM && forall j :: 0 <= j < i ==> !old(free[j])
      ensures i < NUM ==> old(free[i]) && free[..] == old(free[..])[i := false]
      ensures i == NUM ==> free[..] == old(free[..])
    {
      i := 0;
      while i < NUM
        invariant i <= NUM && free[..] == old(free[..]) && forall j :: 0 <= j < i ==> !free[j]
      {
        if free[i] {
          free[i] := false;
          return;
        }
        i := i + 1;
      }
    }

    /** free_desc; panics on a descriptor that is out of range or already free. */
    method FreeDesc(i: nat) returns (panics: bool)
      requires Valid()
      modifies free, desc
      ensures panics <==> i >= NUM || old(free[i])
      ensures if panics then free[..] == old(free[..]) && desc[..] == old(desc[..])
              else
                && free[..] == old(free[..])[i := true]
                && desc[..] == old(desc[..])[i := VDesc(0, 0, false, false, 0)]
    {
      if i >= NUM {
        return true;
      }
      if free[i] {
        return true;
      }
      desc[i] := VDesc(0, 0, false, false, 0);
      free[i] := true;
      panics := false;
    }

    /** Three distinct descriptors that were free, or free[] exactly as it was because there were fewer. */
    method Alloc3Desc() returns (ok: bool, idx: seq<nat>)
      requires Valid()
      modifies free, desc
      ensures ok ==>
                |idx| == 3 && idx[0] < idx[1] < idx[2] < NUM && old(free[idx[0]]) && old(free[idx[1]]) &&
                  old(free[idx[2]])
      ensures ok ==> free[..] == old(free[..])[idx[0] := false][idx[1] := false][idx[2] := false]
      ensures !ok ==> free[..] == old(free[..]) && |idx| < 3 && forall j :: 0 <= j < NUM && old(free[j]) ==> j in idx
    {
      hide Taken, Got;
      ghost var f0 := free[..];
      idx := [];
      GotNone(f0);
      while |idx| < 3
        invariant |idx| <= 3 && free[..] == Taken(f0, idx) && Got(f0, idx)
        decreases 3 - |idx|
      {
        ghost var f1 := free[..];
        var i := AllocDesc();
        assert forall j :: 0 <= j < i ==> !f1[j];
        if i == NUM {
          GotAll(f0, idx);
          GiveBack(f0, idx);
          return false, idx;
        }
        GotMore(f0, idx, i);
        idx := idx + [i];
      }
      GotThree(f0, idx);
      ok := true;
    }

    /** alloc3_desc's failure path. */
    method GiveBack(ghost f0: seq<bool>, idx: seq<nat>)
      requires Valid() && |f0| == NUM && free[..] == Taken(f0, idx) && Got(f0, idx)
      modifies free, desc
      ensures free[..] == f0
    {
      var j := 0;
      while j < |idx|
        invariant j <= |idx| && free[..] == Taken(f0, idx[j..])
      {
        TakenAt(f0, idx[j..]);
        var panics := FreeDesc(idx[j]);
        assert !panics;
        TakenLess(f0, idx[j..]);
        assert idx[j..][1..] == idx[j + 1..];
        j := j + 1;
      }
      assert idx[j..] == [];
    }

    /** free_chain frees exactly the chain; the panics of free_desc cannot happen on one that is in use. */
    method FreeChain(i: nat, ghost path: seq<nat>) returns (panics: bool)
      requires Valid() && Chained(desc[..], path) && path[0] == i && forall k :: 0 <= k < |path| ==> !free[path[k]]
      modifies free, desc
      ensures !panics && forall x :: 0 <= x < NUM ==> free[x] == (old(free[x]) || x in path)
      ensures forall x :: 0 <= x < NUM && x !in path ==> desc[x] == old(desc[x])
    {
      ghost var d0, f0 := desc[..], free[..];
      var x := i;
      ghost var k := 0;
      while true
        invariant k < |path| && x == path[k]
        invariant forall y :: 0 <= y < NUM ==> free[y] == (f0[y] || y in path[..k])
        invariant forall y :: 0 <= y < NUM && y !in path[..k] ==> desc[y] == d0[y]
        decreases |path| - k
      {
        assert LinkOk(d0, path, k) && path[k] !in path[..k];
        var flag, nxt := desc[x].hasNext, desc[x].next;
        panics := FreeDesc(x);
        assert path[..k + 1] == path[..k] + [path[k]];
        if flag {
          x, k := nxt, k + 1;
        } else {
          assert path[..k + 1] == path;
          return;
        }
      }
    }
  }

  ghost predicate Ascending(idx: seq<nat>) {
    forall j, k :: 0 <= j < k < |idx| ==> idx[j] < idx[k]
  }

  /** free[] with the descriptors of idx taken. */
  ghost function Taken(f: seq<bool>, idx: seq<nat>): (r: seq<bool>)
    ensures |r| == |f|
  {
    seq(|f|, i requires 0 <= i < |f| => f[i] && i !in idx)
  }

  lemma TakenAt(f: seq<bool>, idx: seq<nat>)
    ensures forall i :: 0 <= i < |f| ==> Taken(f, idx)[i] == (f[i] && i !in idx)
  {
  }

  /** The lowest free descriptors, in order. */
  ghost predicate Got(f: seq<bool>, idx: seq<nat>) {
    && Ascending(idx) && (forall k :: 0 <= k < |idx| ==> idx[k] < |f| && f[idx[k]])
    && (forall j :: 0 <= j < |f| && f[j] && idx != [] && j <= idx[|idx| - 1] ==> j in idx)
  }

  lemma GotNone(f: seq<bool>)
    ensures Got(f, []) && Taken(f, []) == f
  {
  }

  lemma GotMore(f: seq<bool>, idx: seq<nat>, i: nat)
    requires Got(f, idx) && i < |f| && Taken(f, idx)[i] && forall j :: 0 <= j < i ==> !Taken(f, idx)[j]
    ensures Got(f, idx + [i]) && Taken(f, idx)[i := false] == Taken(f, idx + [i])
  {
    TakenAt(f, idx);
    TakenMore(f, idx, i);
    hide Taken;
    assert idx != [] ==> idx[|idx| - 1] < i;
    forall j | 0 <= j < |f| && f[j] && j <= i ensures j in idx + [i] {
      if j < i { assert !Taken(f, idx)[j]; }
    }
  }

  lemma GotAll(f: seq<bool>, idx: seq<nat>)
    requires forall j :: 0 <= j < |f| ==> !Taken(f, idx)[j]
    ensures forall j :: 0 <= j < |f| && f[j] ==> j in idx
  {
    TakenAt(f, idx);
  }

  lemma GotThree(f: seq<bool>, idx: seq<nat>)
    requires Got(f, idx) && |idx| == 3
    ensures idx[0] < idx[1] < idx[2] < |f| && f[idx[0]] && f[idx[1]] && f[idx[2]]
    ensures Taken(f, idx) == f[idx[0] := false][idx[1] := false][idx[2] := false]
  {
    TakenThree(f, idx);
  }

  lemma TakenMore(f: seq<bool>, idx: seq<nat>, i: nat)
    requires i < |f|
    ensures Taken(f, idx)[i := false] == Taken(f, idx + [i])
  {
  }

  lemma TakenLess(f: seq<bool>, idx: seq<nat>)
    requires Ascending(idx) && 0 < |idx| && idx[0] < |f| && f[idx[0]]
    ensures Taken(f, idx)[idx[0] := true] == Taken(f, idx[1..])
  {
    forall i | 0 <= i < |f| && i != idx[0] ensures i in idx <==> i in idx[1..] {
    }
    assert idx[0] !in idx[1..];
  }

  lemma TakenThree(f: seq<bool>, idx: seq<nat>)
    requires |idx| == 3 && idx[0] < |f| && idx[1] < |f| && idx[2] < |f|
    ensures Taken(f, idx) == f[idx[0] := false][idx[1] := false][idx[2] := false]
  {
  }
}
