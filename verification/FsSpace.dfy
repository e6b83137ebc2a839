/** How many blocks a write needs, and that they are exactly what decides whether balloc panics. */
module FsSpace {
  import opened Machine
  import opened FsLayout
  import opened FsOwnership

  // ----- The positions of a file's blocks -----

  /** The file block whose number is stored at data position p. */
  function BlockNo(p: nat): nat {
    if p < NDIRECT then p else p - 1
  }

  /** The positions of the data blocks lo .. hi - 1 of file i. */
  ghost function DataPlaces(i: nat, lo: nat, hi: nat): set<Owner>
    requires lo <= hi
    decreases hi - lo
  {
    if lo == hi then {} else DataPlaces(i, lo, hi - 1) + {Owner(i, DataPos(hi - 1))}
  }

  lemma {:induction false} DataPlacesAre(i: nat, lo: nat, hi: nat)
    requires lo <= hi
    ensures forall o :: o in DataPlaces(i, lo, hi) <==> o.inum == i && o.p != NDIRECT && lo <= BlockNo(o.p) < hi
    decreases hi - lo
  {
    if lo < hi {
      DataPlacesAre(i, lo, hi - 1);
    }
  }

  /** And the indirect block's, if it lists one of them. */
  ghost function Places(i: nat, lo: nat, hi: nat): set<Owner>
    requires lo <= hi
  {
    DataPlaces(i, lo, hi) + (if lo < hi && hi > NDIRECT then {Owner(i, NDIRECT)} else {})
  }

  lemma PlacesDirect(i: nat, bn: nat)
    requires bn < NDIRECT
    ensures Places(i, bn, bn + 1) == {Owner(i, bn)}
  {
    DataPlacesAre(i, bn, bn + 1);
  }

  lemma PlacesIndirect(i: nat, j: nat)
    ensures Places(i, NDIRECT + j, NDIRECT + j + 1) == {Owner(i, NDIRECT)} + {Owner(i, NDIRECT + 1 + j)}
  {
    DataPlacesAre(i, NDIRECT + j, NDIRECT + j + 1);
  }

  lemma PlacesJoin(i: nat, lo: nat, mid: nat, mid': nat, hi: nat)
    requires lo <= mid' <= mid <= hi
    ensures Places(i, lo, mid) + Places(i, mid', hi) == Places(i, lo, hi)
  {
    DataPlacesAre(i, lo, mid);
    DataPlacesAre(i, mid', hi);
    DataPlacesAre(i, lo, hi);
  }

  // ----- What an allocation does to the owners -----

  /** Exactly these positions are filled now that were not, or, failing, some but not all of them. */
  ghost predicate Got(owner0: Owners, owner: Owners, need: set<Owner>, ok: bool) {
    if ok then owner.Values == owner0.Values + need
    else owner0.Values <= owner.Values <= owner0.Values + need && !(need <= owner.Values)
  }

  lemma PlaceTaken(sb: Super, d: Disk, inodes: Inodes, owner: Owners, i: nat, p: nat)
    requires Own(sb, d, inodes, owner, {}) && i in inodes
    ensures |inodes[i].addrs| == NDIRECT + 1 && (Owner(i, p) in owner.Values <==> Slot(d, inodes[i], p) != 0)
  {
    hide Slot, BitmapExact;
    var x := Slot(d, inodes[i], p);
    assert x != 0 ==> x in owner && owner[x] == Owner(i, p);
    if Owner(i, p) in owner.Values {
      var b :| b in owner && owner[b] == Owner(i, p);
      assert x == b;
    }
  }

  lemma GotNone(sb: Super, d: Disk, inodes: Inodes, owner: Owners, i: nat, p: nat)
    requires Own(sb, d, inodes, owner, {}) && i in inodes
    ensures |inodes[i].addrs| == NDIRECT + 1 && Got(owner, owner, {Owner(i, p)}, Slot(d, inodes[i], p) != 0)
  {
    hide Own, Slot;
    PlaceTaken(sb, d, inodes, owner, i, p);
  }

  lemma GotOne(sb: Super, d: Disk, inodes: Inodes, owner: Owners, b: nat, o: Owner)
    requires Own(sb, d, inodes, owner, {}) && b < sb.size && BitmapBlock(sb, b) < |d| && !Used(sb, d, b)
    ensures Got(owner, owner[b := o], {o}, true)
  {
    hide Slot, Used, BitmapBlock;
    assert b !in owner;
    hide Own;
    var owner' := owner[b := o];
    assert owner'[b] == o;
    forall x | x in owner.Values ensures x in owner'.Values {
      var c :| c in owner && owner[c] == x;
      assert owner'[c] == x;
    }
  }

  lemma GotTwice(owner0: Owners, owner1: Owners, owner2: Owners, need1: set<Owner>, need2: set<Owner>, ok: bool)
    requires Got(owner0, owner1, need1, true) && Got(owner1, owner2, need2, ok)
    ensures Got(owner0, owner2, need1 + need2, ok)
  {
  }

  lemma GotLess(owner0: Owners, owner: Owners, need1: set<Owner>, need: set<Owner>)
    requires Got(owner0, owner, need1, false) && need1 <= need
    ensures Got(owner0, owner, need, false)
  {
  }

  // ----- Counting -----

  lemma {:induction false} ValuesCount(owner: Owners)
    requires forall b, c :: b in owner && c in owner && owner[b] == owner[c] ==> b == c
    ensures |owner.Values| == |owner|
    decreases |owner|
  {
    if owner != map[] {
      var b :| b in owner;
      var rest := owner - {b};
      ValuesCount(rest);
      assert owner.Values == rest.Values + {owner[b]} by {
        forall x | x in owner.Values ensures x in rest.Values + {owner[b]} {
          var c :| c in owner && owner[c] == x;
          assert c != b ==> rest[c] == x;
        }
        forall x | x in rest.Values + {owner[b]} ensures x in owner.Values {
          if x != owner[b] {
            var c :| c in rest && rest[c] == x;
            assert owner[c] == x;
          }
        }
      }
      assert owner.Keys == rest.Keys + {b};
      assert owner[b] !in rest.Values;
    } else {
      assert owner.Values == {};
    }
  }

  lemma OwnersCount(sb: Super, d: Disk, inodes: Inodes, owner: Owners)
    requires Own(sb, d, inodes, owner, {})
    ensures |owner.Values| == |owner|
  {
    hide Slot, BitmapExact;
    forall b, c | b in owner && c in owner && owner[b] == owner[c] ensures b == c {
      assert Slot(d, inodes[owner[b].inum], owner[b].p) == b;
    }
    ValuesCount(owner);
  }

  lemma {:induction false} Smaller<T>(a: set<T>, b: set<T>)
    requires a <= b
    ensures |a| <= |b| && (a != b ==> |a| < |b|)
  {
    assert b == a + (b - a);
    assert |b| == |a| + |b - a|;
    assert a != b ==> b - a != {};
  }

  /** An allocation that fails only on a full disk succeeds if and only if there was a free block for each of the
      positions that was empty. */
  lemma GotIff(sb: Super, d0: Disk, inodes0: Inodes, owner0: Owners, d: Disk, inodes: Inodes, owner: Owners,
               need: set<Owner>, ok: bool)
    requires Own(sb, d0, inodes0, owner0, {}) && Own(sb, d, inodes, owner, {})
    requires Got(owner0, owner, need, ok) && (!ok ==> Full(sb, d))
    ensures ok <==> |Unused(sb, d0)| >= |need - owner0.Values|
  {
    hide Own, Full, Unused;
    UnusedCount(sb, d0, inodes0, owner0);
    UnusedCount(sb, d, inodes, owner);
    OwnersCount(sb, d0, inodes0, owner0);
    OwnersCount(sb, d, inodes, owner);
    var all := owner0.Values + need;
    assert all == owner0.Values + (need - owner0.Values);
    assert |all| == |owner0.Values| + |need - owner0.Values|;
    Smaller(owner.Values, all);
    if !ok {
      assert owner.Values != all;
      assert |Unused(sb, d)| == 0;
    }
  }

  // ----- In terms of the disk -----

  /** The blocks lo .. hi - 1 of a file that are not there. */
  function Holes(d: Disk, ip: Inode, lo: nat, hi: nat): nat
    requires lo <= hi && |ip.addrs| == NDIRECT + 1
    decreases hi - lo
  {
    if lo == hi then 0 else Holes(d, ip, lo, hi - 1) + (if Slot(d, ip, DataPos(hi - 1)) == 0 then 1 else 0)
  }

  /** The blocks it takes to have blocks lo .. hi - 1 of a file: those that are not there, and the indirect block
      if it is not there either and one of them is listed in it. */
  function Lacks(d: Disk, ip: Inode, lo: nat, hi: nat): nat
    requires lo <= hi && |ip.addrs| == NDIRECT + 1
  {
    Holes(d, ip, lo, hi) + (if lo < hi && hi > NDIRECT && ip.addrs[NDIRECT] == 0 then 1 else 0)
  }

  /** `taken` are the positions that hold a block. */
  ghost predicate Taken(d: Disk, ip: Inode, i: nat, taken: set<Owner>)
    requires |ip.addrs| == NDIRECT + 1
  {
    forall p: nat :: Owner(i, p) in taken <==> Slot(d, ip, p) != 0
  }

  lemma DataPlacesLast(i: nat, lo: nat, hi: nat)
    requires lo < hi
    ensures DataPlaces(i, lo, hi) == DataPlaces(i, lo, hi - 1) + {Owner(i, DataPos(hi - 1))}
    ensures Owner(i, DataPos(hi - 1)) !in DataPlaces(i, lo, hi - 1)
  {
    DataPlacesAre(i, lo, hi - 1);
  }

  lemma OneMore<T>(a: set<T>, x: T, v: set<T>)
    requires x !in a
    ensures |(a + {x}) - v| == |a - v| + (if x in v then 0 else 1)
  {
    assert (a + {x}) - v == if x in v then a - v else (a - v) + {x};
  }

  lemma {:induction false} HolesCount(d: Disk, ip: Inode, i: nat, taken: set<Owner>, lo: nat, hi: nat)
    requires |ip.addrs| == NDIRECT + 1 && Taken(d, ip, i, taken) && lo <= hi
    ensures |DataPlaces(i, lo, hi) - taken| == Holes(d, ip, lo, hi)
    decreases hi - lo
  {
    hide Slot;
    if lo == hi {
      assert DataPlaces(i, lo, hi) - taken == {};
    } else {
      hide DataPlaces;
      HolesCount(d, ip, i, taken, lo, hi - 1);
      DataPlacesLast(i, lo, hi);
      OneMore(DataPlaces(i, lo, hi - 1), Owner(i, DataPos(hi - 1)), taken);
    }
  }

  lemma LacksOf(d: Disk, ip: Inode, i: nat, taken: set<Owner>, lo: nat, hi: nat)
    requires |ip.addrs| == NDIRECT + 1 && Taken(d, ip, i, taken) && lo <= hi
    ensures |Places(i, lo, hi) - taken| == Lacks(d, ip, lo, hi)
  {
    hide Holes, DataPlaces;
    HolesCount(d, ip, i, taken, lo, hi);
    assert Slot(d, ip, NDIRECT) == ip.addrs[NDIRECT];
    hide Slot;
    DataPlacesAre(i, lo, hi);
    if lo < hi && hi > NDIRECT {
      OneMore(DataPlaces(i, lo, hi), Owner(i, NDIRECT), taken);
    } else {
      assert Places(i, lo, hi) == DataPlaces(i, lo, hi);
    }
  }

  lemma LacksCount(sb: Super, d: Disk, inodes: Inodes, owner: Owners, i: nat, lo: nat, hi: nat)
    requires Own(sb, d, inodes, owner, {}) && i in inodes && lo <= hi
    ensures |inodes[i].addrs| == NDIRECT + 1
    ensures |Places(i, lo, hi) - owner.Values| == Lacks(d, inodes[i], lo, hi)
  {
    hide Own, Slot, Lacks, Places;
    PlaceTaken(sb, d, inodes, owner, i, 0);
    forall p: nat ensures Owner(i, p) in owner.Values <==> Slot(d, inodes[i], p) != 0 {
      PlaceTaken(sb, d, inodes, owner, i, p);
    }
    LacksOf(d, inodes[i], i, owner.Values, lo, hi);
  }

  /** A range takes no more blocks than it spans, and the indirect block. */
  lemma {:induction false} LacksAtMost(d: Disk, ip: Inode, lo: nat, hi: nat)
    requires lo <= hi && |ip.addrs| == NDIRECT + 1
    ensures Lacks(d, ip, lo, hi) <= hi - lo + (if hi > NDIRECT && ip.addrs[NDIRECT] == 0 then 1 else 0)
    decreases hi - lo
  {
    hide Slot;
    if lo < hi {
      LacksAtMost(d, ip, lo, hi - 1);
    }
  }

  /** An allocation for blocks lo .. hi - 1 of file i, seen from outside. */
  lemma NeedIff(sb: Super, d0: Disk, inodes0: Inodes, owner0: Owners, d: Disk, inodes: Inodes, owner: Owners, i: nat,
                lo: nat, hi: nat, ok: bool)
    requires Own(sb, d0, inodes0, owner0, {}) && Own(sb, d, inodes, owner, {}) && i in inodes0 && lo <= hi
    requires Got(owner0, owner, Places(i, lo, hi), ok) && (!ok ==> Full(sb, d))
    ensures |inodes0[i].addrs| == NDIRECT + 1
    ensures ok <==> |Unused(sb, d0)| >= Lacks(d0, inodes0[i], lo, hi)
  {
    hide Own, Got, Full, Unused, Places, Lacks;
    LacksCount(sb, d0, inodes0, owner0, i, lo, hi);
    GotIff(sb, d0, inodes0, owner0, d, inodes, owner, Places(i, lo, hi), ok);
  }

  // ----- Ranges of bytes -----

  /** The first block after the n bytes at offset off. */
  function End(off: nat, n: nat): (b: nat)
    ensures off / BSIZE <= b
  {
    if n == 0 then off / BSIZE else (off + n - 1) / BSIZE + 1
  }

  /** How many of n bytes writei gets to before it stops, the one that cannot be copied included. */
  function Tried(n: nat, readable: nat): nat {
    if readable < n then readable + 1 else n
  }

  lemma EndGrows(off: nat, m: nat, n: nat)
    requires m <= n
    ensures End(off, m) <= End(off, n)
  {
  }

  lemma EndTurn(off: nat, tot: nat, m: nat)
    requires 0 < m <= BSIZE - (off + tot) % BSIZE && (tot > 0 ==> (off + tot) % BSIZE == 0)
    ensures End(off, tot) == (off + tot) / BSIZE && End(off, tot + m) == (off + tot) / BSIZE + 1
  {
  }

  lemma EndChunk(off: nat, k: nat, v: nat)
    requires v > 0
    ensures (off + k) / BSIZE <= End(off, k) <= End(off + k, v) == End(off, k + v)
  {
  }

  /** The blocks of the n bytes at offset off of file i have been allocated, or, failing, not all of them. */
  ghost predicate Filled(owner0: Owners, owner: Owners, i: nat, off: nat, n: nat, ok: bool) {
    Got(owner0, owner, Places(i, off / BSIZE, End(off, n)), ok)
  }

  /** There are as many free blocks as the n bytes at offset off lack. */
  ghost predicate Enough(sb: Super, d: Disk, ip: Inode, off: nat, n: nat)
    requires |ip.addrs| == NDIRECT + 1
  {
    |Unused(sb, d)| >= Lacks(d, ip, off / BSIZE, End(off, n))
  }

  lemma FilledIff(sb: Super, d0: Disk, inodes0: Inodes, owner0: Owners, d: Disk, inodes: Inodes, owner: Owners, i: nat,
                  off: nat, n: nat, ok: bool)
    requires Own(sb, d0, inodes0, owner0, {}) && Own(sb, d, inodes, owner, {}) && i in inodes0
    requires Filled(owner0, owner, i, off, n, ok) && (!ok ==> Full(sb, d))
    ensures |inodes0[i].addrs| == NDIRECT + 1 && (ok <==> Enough(sb, d0, inodes0[i], off, n))
  {
    hide Own, Full, Got, Places, End, Lacks, Unused;
    NeedIff(sb, d0, inodes0, owner0, d, inodes, owner, i, off / BSIZE, End(off, n), ok);
  }

  // One turn of writei's loop.
  lemma FilledTurn(owner0: Owners, owner1: Owners, owner2: Owners, i: nat, off: nat, tot: nat, m: nat, ok: bool)
    requires 0 < m <= BSIZE - (off + tot) % BSIZE && (tot > 0 ==> (off + tot) % BSIZE == 0)
    requires Filled(owner0, owner1, i, off, tot, true)
    requires Got(owner1, owner2, Places(i, (off + tot) / BSIZE, (off + tot) / BSIZE + 1), ok)
    ensures Filled(owner0, owner2, i, off, tot + m, ok)
  {
    hide Got, Places;
    EndTurn(off, tot, m);
    var lo, b := off / BSIZE, (off + tot) / BSIZE;
    GotTwice(owner0, owner1, owner2, Places(i, lo, b), Places(i, b, b + 1), ok);
    PlacesJoin(i, lo, b, b, b + 1);
  }

  // One chunk of filewrite's loop.
  lemma FilledChunk(owner0: Owners, owner1: Owners, owner2: Owners, i: nat, off: nat, k: nat, v: nat, ok: bool)
    requires v > 0 && Filled(owner0, owner1, i, off, k, true) && Filled(owner1, owner2, i, off + k, v, ok)
    ensures Filled(owner0, owner2, i, off, k + v, ok)
  {
    hide Got, Places;
    EndChunk(off, k, v);
    var lo, mid, b := off / BSIZE, End(off, k), (off + k) / BSIZE;
    GotTwice(owner0, owner1, owner2, Places(i, lo, mid), Places(i, b, End(off, k + v)), ok);
    PlacesJoin(i, lo, mid, b, End(off, k + v));
  }

  lemma FilledFarther(owner0: Owners, owner: Owners, i: nat, off: nat, m: nat, n: nat)
    requires m <= n && Filled(owner0, owner, i, off, m, false)
    ensures Filled(owner0, owner, i, off, n, false)
  {
    hide Got, Places;
    EndGrows(off, m, n);
    var lo, mid, hi := off / BSIZE, End(off, m), End(off, n);
    PlacesJoin(i, lo, mid, mid, hi);
    GotLess(owner0, owner, Places(i, lo, mid), Places(i, lo, hi));
  }

  lemma FilledNone(owner: Owners, i: nat, off: nat)
    ensures Filled(owner, owner, i, off, 0, true)
  {
  }

  // A turn that cannot be copied ends in the block of the first such byte.
  lemma FilledSame(owner0: Owners, owner: Owners, i: nat, off: nat, tot: nat, m: nat, readable: nat, ok: bool)
    requires 0 < m <= BSIZE - (off + tot) % BSIZE && (tot > 0 ==> (off + tot) % BSIZE == 0) && tot <= readable < tot + m
    requires Filled(owner0, owner, i, off, tot + m, ok)
    ensures Filled(owner0, owner, i, off, readable + 1, ok)
  {
    hide Got, Places;
    EndTurn(off, tot, m);
    EndTurn(off, tot, readable + 1 - tot);
  }
}
