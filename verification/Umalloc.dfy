/** user/umalloc.c: the allocator of section 8.7 of K&R, 2nd edition. Addresses and sizes are in units of
    Header (16 bytes). */
module Umalloc {
  /** &base; the heap lies above it. */
  const BASE: nat := 1

  /** A process has fewer than 2^32 bytes, so no address or size reaches this many units. */
  const LIMIT: nat := 0x1000_0000

  // ----- The circular list -----

  function After(ring: seq<nat>, i: nat): nat {
    if i + 1 < |ring| then ring[i + 1] else BASE
  }

  ghost predicate LinkOk(ptr: map<nat, nat>, ring: seq<nat>, i: nat)
    requires i < |ring|
  {
    ring[i] in ptr && ptr[ring[i]] == After(ring, i)
  }

  ghost predicate Sorted(ring: seq<nat>) {
    forall i, j :: 0 <= i < j < |ring| ==> ring[i] < ring[j]
  }

  /** `ring` is the free list from base on: circular and in address order. */
  ghost predicate Linked(ptr: map<nat, nat>, ring: seq<nat>) {
    && 0 < |ring| && ring[0] == BASE && Sorted(ring)
    && forall i :: 0 <= i < |ring| ==> LinkOk(ptr, ring, i)
  }

  // ----- Blocks -----

  /** `owner` gives for every unit obtained from sbrk the block it belongs to. */
  ghost predicate Owned(size: map<nat, nat>, owner: map<nat, nat>, a: nat) {
    && BASE < a && a in size && 0 < size[a] && a + size[a] <= LIMIT
    && forall u :: a <= u < a + size[a] ==> u in owner && owner[u] == a
  }

  ghost predicate UnitOk(size: map<nat, nat>, ring: seq<nat>, live: map<nat, nat>, owner: map<nat, nat>, u: nat)
    requires u in owner
  {
    var a := owner[u];
    (a in live || a in ring) && a != BASE && a in size && a <= u < a + size[a]
  }

  /** Free list entry i ends before the next one begins: no two free blocks touch. */
  ghost predicate GapOk(size: map<nat, nat>, ring: seq<nat>, i: nat)
    requires i < |ring|
  {
    ring[i] in size && (i + 1 < |ring| ==> ring[i] + size[ring[i]] < ring[i + 1])
  }

  /** The free blocks (base apart) and the live blocks split the units obtained so far among them. */
  ghost predicate Blocks(size: map<nat, nat>, ring: seq<nat>, live: map<nat, nat>, owner: map<nat, nat>) {
    && 0 < |ring| && ring[0] == BASE && Sorted(ring) && BASE in size && size[BASE] == 0
    && (forall i :: 1 <= i < |ring| ==> Owned(size, owner, ring[i]) && ring[i] !in live)
    && (forall i :: 0 <= i < |ring| ==> GapOk(size, ring, i))
    && (forall a :: a in live ==> a in size && Owned(size, owner, a) && live[a] == size[a])
    && (forall u :: u in owner ==> UnitOk(size, ring, live, owner, u))
  }

  /** Two blocks never share a unit. */
  lemma Apart(size: map<nat, nat>, owner: map<nat, nat>, a: nat, b: nat)
    requires Owned(size, owner, a) && Owned(size, owner, b) && a != b
    ensures a + size[a] <= b || b + size[b] <= a
  {
    assert owner[a] == a && owner[b] == b;
  }

  /** A unit was obtained from sbrk exactly when it lies in a free or a live block. */
  lemma Conserved(size: map<nat, nat>, ring: seq<nat>, live: map<nat, nat>, owner: map<nat, nat>, u: nat)
    requires Blocks(size, ring, live, owner)
    ensures u in owner <==>
              || (exists k :: 1 <= k < |ring| && ring[k] in size && ring[k] <= u < ring[k] + size[ring[k]])
                            || (exists a :: a in live && a <= u < a + live[a])
  {
    if u in owner {
      assert UnitOk(size, ring, live, owner, u);
      var a := owner[u];
      if a !in live {
        var k :| 0 <= k < |ring| && ring[k] == a;
      }
    }
  }

  /** The place of bp in the address order, between ring[i] and the entry after it. */
  ghost predicate Between(ring: seq<nat>, i: nat, bp: nat) {
    i < |ring| && ring[i] < bp && (i + 1 < |ring| ==> bp < ring[i + 1])
  }

  lemma Neighbours(size: map<nat, nat>, ring: seq<nat>, live: map<nat, nat>, owner: map<nat, nat>, i: nat, bp: nat)
    requires Blocks(size, ring, live, owner) && bp in live && Between(ring, i, bp)
    ensures bp in size && ring[i] in size && ring[i] + size[ring[i]] <= bp
    ensures i + 1 < |ring| ==> bp + size[bp] <= ring[i + 1]
  {
    assert GapOk(size, ring, i);
    if i > 0 {
      Apart(size, owner, ring[i], bp);
    }
    if i + 1 < |ring| {
      Apart(size, owner, ring[i + 1], bp);
    }
  }

  /** The units of block b now belong to block a. */
  ghost function Handed(owner: map<nat, nat>, b: nat, a: nat): map<nat, nat> {
    map u | u in owner :: if owner[u] == b then a else owner[u]
  }

  function Cut(ring: seq<nat>, k: nat): seq<nat>
    requires k < |ring|
  {
    ring[..k] + ring[k + 1..]
  }

  lemma CutSorted(ring: seq<nat>, k: nat)
    requires Sorted(ring) && 0 < k < |ring|
    ensures Sorted(Cut(ring, k)) && |Cut(ring, k)| == |ring| - 1 && Cut(ring, k)[0] == ring[0]
  {
  }

  lemma CutAt(ring: seq<nat>, k: nat, m: nat)
    requires Sorted(ring) && k < |ring| && m < |ring| - 1
    ensures |Cut(ring, k)| == |ring| - 1 && Cut(ring, k)[m] == ring[if m < k then m else m + 1] != ring[k]
  {
  }

  // The gaps left when entry k is taken out and no other entry grows.
  lemma CutGaps(size: map<nat, nat>, size': map<nat, nat>, ring: seq<nat>, k: nat)
    requires Sorted(ring) && 0 < k < |ring| && (forall m :: 0 <= m < |ring| ==> GapOk(size, ring, m))
    requires forall m :: 0 <= m < |ring| && m != k && ring[m] in size ==>
               ring[m] in size' && size'[ring[m]] == size[ring[m]]
    ensures forall m :: 0 <= m < |Cut(ring, k)| ==> GapOk(size', Cut(ring, k), m)
  {
    CutSorted(ring, k);
    forall m | 0 <= m < |Cut(ring, k)| ensures GapOk(size', Cut(ring, k), m) {
      assert GapOk(size, ring, if m < k then m else m + 1) && GapOk(size, ring, k);
    }
  }

  // Block a takes over the units of block b right above it.
  lemma MergeOwned(size: map<nat, nat>, owner: map<nat, nat>, a: nat, b: nat, x: nat)
    requires Owned(size, owner, a) && Owned(size, owner, b) && Owned(size, owner, x) && a + size[a] == b && x != b
    ensures Owned(size[a := size[a] + size[b]], Handed(owner, b, a), x)
  {
  }

  lemma MergeUnit(size: map<nat, nat>, ring: seq<nat>, live: map<nat, nat>, owner: map<nat, nat>, a: nat, b: nat,
                  ring': seq<nat>, live': map<nat, nat>, u: nat)
    requires u in owner && UnitOk(size, ring, live, owner, u) && a in size && b in size && a + size[a] == b && BASE < a
    requires a in live' || a in ring'
    requires forall x :: x != b && (x in live || x in ring) ==> x in live' || x in ring'
    ensures UnitOk(size[a := size[a] + size[b]], ring', live', Handed(owner, b, a), u)
  {
  }

  // bp absorbs the free block right above it.
  lemma AbsorbNext(size: map<nat, nat>, ring: seq<nat>, live: map<nat, nat>, owner: map<nat, nat>, i: nat, bp: nat)
    requires Blocks(size, ring, live, owner) && bp in live && Between(ring, i, bp) && i + 1 < |ring|
    requires bp in size && bp + size[bp] == ring[i + 1] && ring[i + 1] in size
    ensures var next := ring[i + 1];
            var total := size[bp] + size[next];
            Blocks(size[bp := total], Cut(ring, i + 1), live[bp := total], Handed(owner, next, bp))
  {
    hide Owned, UnitOk, GapOk, Cut, Handed;
    var next := ring[i + 1];
    var total := size[bp] + size[next];
    var size', ring', live', owner' := size[bp := total], Cut(ring, i + 1), live[bp := total], Handed(owner, next, bp);
    CutSorted(ring, i + 1);
    CutGaps(size, size', ring, i + 1);
    forall k | 1 <= k < |ring'| ensures Owned(size', owner', ring'[k]) && ring'[k] !in live' {
      CutAt(ring, i + 1, k);
      MergeOwned(size, owner, bp, next, ring'[k]);
    }
    forall a | a in live' ensures a in size' && Owned(size', owner', a) && live'[a] == size'[a] {
      assert Owned(size, owner, a) && Owned(size, owner, ring[i + 1]);
      MergeOwned(size, owner, bp, next, a);
    }
    HandedUnits(owner, next, bp);
    forall x ensures x != next && x in ring ==> x in ring' {
      StillIn(ring, i + 1, x);
    }
    forall u | u in owner' ensures UnitOk(size', ring', live', owner', u) {
      MergeUnit(size, ring, live, owner, bp, next, ring', live', u);
    }
  }

  lemma HandedUnits(owner: map<nat, nat>, b: nat, a: nat)
    ensures Handed(owner, b, a).Keys == owner.Keys
  {
  }

  lemma StillIn(ring: seq<nat>, k: nat, a: nat)
    requires k < |ring|
    ensures a in ring && a != ring[k] ==> a in Cut(ring, k)
  {
    if a in ring && a != ring[k] {
      var m :| 0 <= m < |ring| && ring[m] == a;
      assert Cut(ring, k)[if m < k then m else m - 1] == a;
    }
  }

  // Entry i may grow, short of the next one; the others may only shrink.
  lemma GapsKept(size: map<nat, nat>, size': map<nat, nat>, ring: seq<nat>, i: nat)
    requires i < |ring| && forall m :: 0 <= m < |ring| ==> GapOk(size, ring, m)
    requires forall m :: 0 <= m < |ring| && m != i && ring[m] in size ==>
               ring[m] in size' && size'[ring[m]] <= size[ring[m]]
    requires ring[i] in size' && (i + 1 < |ring| ==> ring[i] + size'[ring[i]] < ring[i + 1])
    ensures forall m :: 0 <= m < |ring| ==> GapOk(size', ring, m)
  {
    forall m | 0 <= m < |ring| ensures GapOk(size', ring, m) {
      assert GapOk(size, ring, m);
    }
  }

  // The free block right below bp absorbs it.
  lemma MergeIntoPrev(size: map<nat, nat>, ring: seq<nat>, live: map<nat, nat>, owner: map<nat, nat>, i: nat, bp: nat)
    requires Blocks(size, ring, live, owner) && bp in live && Between(ring, i, bp)
    requires bp in size && ring[i] in size && ring[i] + size[ring[i]] == bp
    requires i + 1 < |ring| ==> bp + size[bp] < ring[i + 1]
    ensures i > 0 && Blocks(size[ring[i] := size[ring[i]] + size[bp]], ring, live - {bp}, Handed(owner, bp, ring[i]))
  {
    var p := ring[i];
    var size', live', owner' := size[p := size[p] + size[bp]], live - {bp}, Handed(owner, bp, p);
    hide Owned, UnitOk, Handed, Sorted, GapOk;
    GapsKept(size, size', ring, i);
    forall k | 1 <= k < |ring| ensures Owned(size', owner', ring[k]) && ring[k] !in live' {
      MergeOwned(size, owner, p, bp, ring[k]);
    }
    forall a | a in live' ensures a in size' && Owned(size', owner', a) && live'[a] == size'[a] {
      MergeOwned(size, owner, p, bp, a);
    }
    HandedUnits(owner, bp, p);
    forall u | u in owner' ensures UnitOk(size', ring, live', owner', u) {
      MergeUnit(size, ring, live, owner, p, bp, ring, live', u);
    }
  }

  function Put(ring: seq<nat>, k: nat, x: nat): seq<nat>
    requires k <= |ring|
  {
    ring[..k] + [x] + ring[k..]
  }

  lemma PutAt(ring: seq<nat>, k: nat, x: nat, m: nat)
    requires k <= |ring| && m <= |ring|
    ensures |Put(ring, k, x)| == |ring| + 1
    ensures Put(ring, k, x)[m] == if m < k then ring[m] else if m == k then x else ring[m - 1]
  {
  }

  lemma PutSorted(ring: seq<nat>, i: nat, x: nat)
    requires Sorted(ring) && Between(ring, i, x)
    ensures Sorted(Put(ring, i + 1, x)) && Put(ring, i + 1, x)[0] == ring[0]
    ensures x in Put(ring, i + 1, x) && forall a :: a in ring ==> a in Put(ring, i + 1, x)
  {
    assert Put(ring, i + 1, x)[i + 1] == x;
    forall a | a in ring ensures a in Put(ring, i + 1, x) {
      var m :| 0 <= m < |ring| && ring[m] == a;
      PutAt(ring, i + 1, x, if m <= i then m else m + 1);
    }
  }

  // bp joins the free list.
  lemma Enlist(size: map<nat, nat>, ring: seq<nat>, live: map<nat, nat>, owner: map<nat, nat>, i: nat, bp: nat)
    requires Blocks(size, ring, live, owner) && bp in live && Between(ring, i, bp)
    requires bp in size && ring[i] in size && ring[i] + size[ring[i]] < bp
    requires i + 1 < |ring| ==> bp + size[bp] < ring[i + 1]
    ensures Blocks(size, Put(ring, i + 1, bp), live - {bp}, owner)
  {
    hide Put, Owned;
    var ring', live' := Put(ring, i + 1, bp), live - {bp};
    PutSorted(ring, i, bp);
    PutAt(ring, i + 1, bp, 0);
    forall k | 0 <= k < |ring'| ensures GapOk(size, ring', k) {
      PutAt(ring, i + 1, bp, k);
      if k + 1 < |ring'| { PutAt(ring, i + 1, bp, k + 1); }
      if k != i + 1 { assert GapOk(size, ring, if k <= i then k else k - 1); }
    }
    hide GapOk;
    forall k | 1 <= k < |ring'| ensures Owned(size, owner, ring'[k]) && ring'[k] !in live' {
      PutAt(ring, i + 1, bp, k);
    }
    forall u | u in owner ensures UnitOk(size, ring', live', owner, u) {
      assert UnitOk(size, ring, live, owner, u);
    }
  }

  // An exact fit leaves the free list.
  lemma Unlist(size: map<nat, nat>, ring: seq<nat>, live: map<nat, nat>, owner: map<nat, nat>, k: nat)
    requires Blocks(size, ring, live, owner) && 0 < k < |ring| && ring[k] in size
    ensures Blocks(size, Cut(ring, k), live[ring[k] := size[ring[k]]], owner)
  {
    hide Owned, GapOk, Cut;
    var ring', live' := Cut(ring, k), live[ring[k] := size[ring[k]]];
    CutSorted(ring, k);
    CutGaps(size, size, ring, k);
    forall m | 1 <= m < |ring'| ensures Owned(size, owner, ring'[m]) && ring'[m] !in live' {
      CutAt(ring, k, m);
    }
    assert Owned(size, owner, ring[k]);
    forall u | u in owner ensures UnitOk(size, ring', live', owner, u) {
      assert UnitOk(size, ring, live, owner, u);
      StillIn(ring, k, owner[u]);
    }
  }

  /** The last n units of block p become block q. */
  ghost function SplitUnits(owner: map<nat, nat>, q: nat, n: nat): map<nat, nat> {
    map u | u in owner :: if q <= u < q + n then q else owner[u]
  }

  lemma SplitOwned(size: map<nat, nat>, owner: map<nat, nat>, p: nat, n: nat, x: nat)
    requires Owned(size, owner, p) && Owned(size, owner, x) && 0 < n < size[p]
    ensures var q := p + size[p] - n;
            var size' := size[p := size[p] - n][q := n];
            && Owned(size', SplitUnits(owner, q, n), x) && Owned(size', SplitUnits(owner, q, n), q)
  {
    assert owner[x] == x;
    if x != p {
      Apart(size, owner, x, p);
    }
  }

  lemma SplitFresh(size: map<nat, nat>, ring: seq<nat>, live: map<nat, nat>, owner: map<nat, nat>, k: nat, n: nat)
    requires Blocks(size, ring, live, owner) && 0 < k < |ring| && ring[k] in size && 0 < n < size[ring[k]]
    ensures var q := ring[k] + size[ring[k]] - n;
            BASE < ring[k] < q && q !in live && q !in ring && Owned(size, owner, ring[k])
  {
    var p := ring[k];
    var q := p + size[p] - n;
    assert Owned(size, owner, p) && owner[q] == p;
    assert q in live ==> Owned(size, owner, q);
    forall m | 1 <= m < |ring| ensures ring[m] != q {
      assert Owned(size, owner, ring[m]) && owner[ring[m]] == ring[m];
    }
  }

  lemma SplitGaps(size: map<nat, nat>, size': map<nat, nat>, ring: seq<nat>, k: nat, n: nat)
    requires k < |ring| && (forall m :: 0 <= m < |ring| ==> GapOk(size, ring, m)) && ring[k] in size
    requires 0 < n < size[ring[k]]
    requires ring[k] + size[ring[k]] - n !in ring
    requires size' == size[ring[k] := size[ring[k]] - n][ring[k] + size[ring[k]] - n := n]
    ensures forall m :: 0 <= m < |ring| ==> GapOk(size', ring, m)
  {
    forall m | 0 <= m < |ring| ensures GapOk(size', ring, m) {
      assert GapOk(size, ring, m);
    }
  }

  lemma SplitKeys(owner: map<nat, nat>, q: nat, n: nat)
    ensures SplitUnits(owner, q, n).Keys == owner.Keys
  {
  }

  lemma SplitUnit(size: map<nat, nat>, ring: seq<nat>, live: map<nat, nat>, owner: map<nat, nat>, k: nat, n: nat,
                  u: nat)
    requires 0 < k < |ring| && Owned(size, owner, ring[k]) && 0 < n < size[ring[k]] && u in owner
    requires UnitOk(size, ring, live, owner, u)
    requires ring[k] + size[ring[k]] - n !in live && ring[k] + size[ring[k]] - n !in ring
    ensures var p := ring[k];
            var q := p + size[p] - n;
            UnitOk(size[p := size[p] - n][q := n], ring, live[q := n], SplitUnits(owner, q, n), u)
  {
  }

  lemma SplitRingOwned(size: map<nat, nat>, ring: seq<nat>, live: map<nat, nat>, owner: map<nat, nat>, k: nat, n: nat,
                       size': map<nat, nat>, owner': map<nat, nat>)
    requires Blocks(size, ring, live, owner) && 0 < k < |ring| && ring[k] in size && 0 < n < size[ring[k]]
    requires size' == size[ring[k] := size[ring[k]] - n][ring[k] + size[ring[k]] - n := n]
    requires owner' == SplitUnits(owner, ring[k] + size[ring[k]] - n, n)
    ensures forall m :: 1 <= m < |ring| ==> Owned(size', owner', ring[m])
    ensures Owned(size', owner', ring[k] + size[ring[k]] - n)
  {
    hide Owned, UnitOk, SplitUnits, Sorted, GapOk;
    SplitFresh(size, ring, live, owner, k, n);
    forall m | 1 <= m < |ring| ensures Owned(size', owner', ring[m]) {
      SplitOwned(size, owner, ring[k], n, ring[m]);
    }
    SplitOwned(size, owner, ring[k], n, ring[k]);
  }

  lemma SplitLiveOwned(size: map<nat, nat>, ring: seq<nat>, live: map<nat, nat>, owner: map<nat, nat>, k: nat, n: nat,
                       size': map<nat, nat>, owner': map<nat, nat>)
    requires Blocks(size, ring, live, owner) && 0 < k < |ring| && ring[k] in size && 0 < n < size[ring[k]]
    requires size' == size[ring[k] := size[ring[k]] - n][ring[k] + size[ring[k]] - n := n]
    requires owner' == SplitUnits(owner, ring[k] + size[ring[k]] - n, n)
    ensures forall a :: a in live ==> a in size' && Owned(size', owner', a) && live[a] == size'[a]
  {
    hide Owned, UnitOk, SplitUnits, Sorted, GapOk;
    SplitFresh(size, ring, live, owner, k, n);
    forall a | a in live ensures a in size' && Owned(size', owner', a) && live[a] == size'[a] {
      SplitOwned(size, owner, ring[k], n, a);
    }
  }

  // The tail of a larger block is handed out.
  lemma SplitOff(size: map<nat, nat>, ring: seq<nat>, live: map<nat, nat>, owner: map<nat, nat>, k: nat, n: nat)
    requires Blocks(size, ring, live, owner) && 0 < k < |ring| && ring[k] in size && 0 < n < size[ring[k]]
    ensures var p := ring[k];
            var q := p + size[p] - n;
            Blocks(size[p := size[p] - n][q := n], ring, live[q := n], SplitUnits(owner, q, n))
  {
    hide Owned, UnitOk, SplitUnits, Sorted, GapOk;
    var p := ring[k];
    var q := p + size[p] - n;
    var size', owner' := size[p := size[p] - n][q := n], SplitUnits(owner, q, n);
    SplitFresh(size, ring, live, owner, k, n);
    SplitGaps(size, size', ring, k, n);
    SplitRingOwned(size, ring, live, owner, k, n, size', owner');
    SplitLiveOwned(size, ring, live, owner, k, n, size', owner');
    SplitKeys(owner, q, n);
    forall u | u in owner' ensures UnitOk(size', ring, live[q := n], owner', u) {
      SplitUnit(size, ring, live, owner, k, n, u);
    }
  }

  /** sbrk gives nu units at hp. */
  ghost function Obtained(owner: map<nat, nat>, hp: nat, nu: nat): (r: map<nat, nat>)
    ensures forall u :: u in r <==> u in owner || hp <= u < hp + nu
    ensures forall u :: u in r ==> r[u] == if hp <= u < hp + nu then hp else owner[u]
  {
    if nu == 0 then owner else Obtained(owner, hp, nu - 1)[hp + nu - 1 := hp]
  }

  lemma GrowOwned(size: map<nat, nat>, owner: map<nat, nat>, hp: nat, nu: nat, a: nat)
    requires Owned(size, owner, a) && 0 < nu && forall u :: hp <= u < hp + nu ==> u !in owner
    ensures a != hp && Owned(size[hp := nu], Obtained(owner, hp, nu), a)
  {
    hide Obtained;
    assert a in owner;
  }

  // morecore: the new region is made to look like a live block.
  lemma Grow(size: map<nat, nat>, ring: seq<nat>, live: map<nat, nat>, owner: map<nat, nat>, hp: nat, nu: nat)
    requires Blocks(size, ring, live, owner) && BASE < hp && 0 < nu && hp + nu <= LIMIT
    requires forall u :: hp <= u < hp + nu ==> u !in owner
    ensures hp !in live && hp !in ring && Blocks(size[hp := nu], ring, live[hp := nu], Obtained(owner, hp, nu))
  {
    var size', live', owner' := size[hp := nu], live[hp := nu], Obtained(owner, hp, nu);
    hide GapOk, Obtained, UnitOk, Sorted;
    assert Owned(size', owner', hp);
    hide Owned;
    forall m | 1 <= m < |ring| ensures ring[m] != hp && Owned(size', owner', ring[m]) {
      GrowOwned(size, owner, hp, nu, ring[m]);
    }
    forall a | a in live ensures a != hp && Owned(size', owner', a) {
      GrowOwned(size, owner, hp, nu, a);
    }
    GrowGaps(size, size', ring);
    forall u | u in owner' ensures UnitOk(size', ring, live', owner', u) {
      GrowUnit(size, ring, live, owner, hp, nu, u);
    }
  }

  lemma GrowGaps(size: map<nat, nat>, size': map<nat, nat>, ring: seq<nat>)
    requires (forall m :: 0 <= m < |ring| ==> GapOk(size, ring, m))
    requires forall m :: 0 <= m < |ring| && ring[m] in size ==> ring[m] in size' && size'[ring[m]] == size[ring[m]]
    ensures forall m :: 0 <= m < |ring| ==> GapOk(size', ring, m)
  {
    forall m | 0 <= m < |ring| ensures GapOk(size', ring, m) {
      assert GapOk(size, ring, m);
    }
  }

  lemma GrowUnit(size: map<nat, nat>, ring: seq<nat>, live: map<nat, nat>, owner: map<nat, nat>, hp: nat, nu: nat,
                 u: nat)
    requires BASE < hp && hp !in live && hp !in ring && (u in owner ==> UnitOk(size, ring, live, owner, u))
    requires u in Obtained(owner, hp, nu)
    ensures UnitOk(size[hp := nu], ring, live[hp := nu], Obtained(owner, hp, nu), u)
  {
    hide Obtained;
  }

  // ----- Link surgery -----

  lemma LinkPut(ptr: map<nat, nat>, ring: seq<nat>, i: nat, bp: nat)
    requires Linked(ptr, ring) && Between(ring, i, bp)
    ensures Linked(ptr[bp := After(ring, i)][ring[i] := bp], Put(ring, i + 1, bp))
  {
    hide Put;
    var ptr', ring' := ptr[bp := After(ring, i)][ring[i] := bp], Put(ring, i + 1, bp);
    PutSorted(ring, i, bp);
    PutAt(ring, i + 1, bp, 0);
    forall k | 0 <= k < |ring'| ensures LinkOk(ptr', ring', k) {
      PutAt(ring, i + 1, bp, k);
      if k + 1 < |ring'| { PutAt(ring, i + 1, bp, k + 1); }
      if k != i + 1 { assert LinkOk(ptr, ring, if k <= i then k else k - 1); }
    }
  }

  lemma LinkCut(ptr: map<nat, nat>, ring: seq<nat>, k: nat)
    requires Linked(ptr, ring) && 0 < k < |ring|
    ensures ring[k] in ptr && Linked(ptr[ring[k - 1] := ptr[ring[k]]], Cut(ring, k))
  {
    hide Cut;
    assert LinkOk(ptr, ring, k);
    var ptr', ring' := ptr[ring[k - 1] := ptr[ring[k]]], Cut(ring, k);
    CutSorted(ring, k);
    forall m | 0 <= m < |ring'| ensures LinkOk(ptr', ring', m) {
      CutAt(ring, k, m);
      if m + 1 < |ring'| { CutAt(ring, k, m + 1); }
      assert LinkOk(ptr, ring, if m < k then m else m + 1);
    }
  }

  // Where an address outside the list points does not matter.
  lemma LinkExtra(ptr: map<nat, nat>, ring: seq<nat>, b: nat, x: nat)
    requires Linked(ptr, ring) && b !in ring
    ensures Linked(ptr[b := x], ring)
  {
    var ptr' := ptr[b := x];
    forall m | 0 <= m < |ring| ensures LinkOk(ptr', ring, m) {
      assert LinkOk(ptr, ring, m);
    }
  }

  lemma PlaceExists(ring: seq<nat>, bp: nat) returns (t: nat)
    requires 0 < |ring| && ring[0] < bp && bp !in ring
    ensures Between(ring, t, bp)
  {
    t := 0;
    while t + 1 < |ring| && ring[t + 1] < bp
      invariant t < |ring| && ring[t] < bp
    {
      t := t + 1;
    }
  }

  /** free's list and block changes, for the place it found: the new free list. */
  ghost function Freed(size: map<nat, nat>, ring: seq<nat>, i: nat, bp: nat): seq<nat>
    requires Between(ring, i, bp) && bp in size && ring[i] in size
  {
    var up := i + 1 < |ring| && bp + size[bp] == ring[i + 1];
    var rest := if up then Cut(ring, i + 1) else ring;
    if ring[i] + size[ring[i]] == bp then rest else Put(rest, i + 1, bp)
  }

  /** The units keep their places; those of merged blocks change hands. */
  ghost function FreedUnits(size: map<nat, nat>, ring: seq<nat>, owner: map<nat, nat>, i: nat, bp: nat): map<nat, nat>
    requires Between(ring, i, bp) && bp in size && ring[i] in size
  {
    var up := i + 1 < |ring| && bp + size[bp] == ring[i + 1];
    var mine := if up then Handed(owner, ring[i + 1], bp) else owner;
    if ring[i] + size[ring[i]] == bp then Handed(mine, bp, ring[i]) else mine
  }

  // The two assignments that link the freed block in: the links of the new free list.
  lemma FreeLinks(ptr: map<nat, nat>, size: map<nat, nat>, ring: seq<nat>, i: nat, bp: nat)
    requires Linked(ptr, ring) && Between(ring, i, bp) && bp in size && ring[i] in size && bp !in ring
    ensures LinkOk(ptr, ring, i) && (i + 1 < |ring| ==> LinkOk(ptr, ring, i + 1))
    ensures var up := i + 1 < |ring| && bp + size[bp] == ring[i + 1];
            var mine := if up then ptr[ring[i + 1]] else ptr[ring[i]];
            var down := ring[i] + size[ring[i]] == bp;
            Linked(ptr[bp := mine][ring[i] := if down then mine else bp], Freed(size, ring, i, bp))
  {
    hide Cut, Put;
    assert LinkOk(ptr, ring, i) && (i + 1 < |ring| ==> LinkOk(ptr, ring, i + 1));
    var up := i + 1 < |ring| && bp + size[bp] == ring[i + 1];
    var mine := if up then ptr[ring[i + 1]] else ptr[ring[i]];
    var ptr1: map<nat, nat> := if up then ptr[ring[i] := mine] else ptr;
    var ring1 := if up then Cut(ring, i + 1) else ring;
    if up {
      LinkCut(ptr, ring, i + 1);
      CutPlace(ring, i, bp);
    }
    assert LinkOk(ptr1, ring1, i);
    if ring[i] + size[ring[i]] == bp {
      LinkExtra(ptr1, ring1, bp, mine);
      assert ptr1[bp := mine] == ptr[bp := mine][ring[i] := mine];
    } else {
      LinkPut(ptr1, ring1, i, bp);
      var ptr2: map<nat, nat> := ptr1[bp := mine];
      assert ptr2[ring[i] := bp] == ptr[bp := mine][ring[i] := bp];
    }
  }

  lemma CutPlace(ring: seq<nat>, i: nat, bp: nat)
    requires Sorted(ring) && Between(ring, i, bp) && i + 1 < |ring| && bp !in ring
    ensures Between(Cut(ring, i + 1), i, bp) && Cut(ring, i + 1)[i] == ring[i] && bp !in Cut(ring, i + 1)
  {
  }

  // The sizes free leaves: bp grown by the block above, p grown by bp.
  ghost function FreedSize(size: map<nat, nat>, ring: seq<nat>, i: nat, bp: nat): map<nat, nat>
    requires Between(ring, i, bp) && bp in size && ring[i] in size && (i + 1 < |ring| ==> ring[i + 1] in size)
  {
    var up := i + 1 < |ring| && bp + size[bp] == ring[i + 1];
    var size1: map<nat, nat> := if up then size[bp := size[bp] + size[ring[i + 1]]] else size;
    if ring[i] + size[ring[i]] == bp then size1[ring[i] := size[ring[i]] + size1[bp]] else size1
  }

  lemma FreeBlocks(size: map<nat, nat>, ring: seq<nat>, live: map<nat, nat>, owner: map<nat, nat>, i: nat, bp: nat)
    requires Blocks(size, ring, live, owner) && bp in live && Between(ring, i, bp)
    ensures bp in size && ring[i] in size && bp !in ring && (i + 1 < |ring| ==> ring[i + 1] in size)
    ensures Blocks(FreedSize(size, ring, i, bp), Freed(size, ring, i, bp), live - {bp},
                   FreedUnits(size, ring, owner, i, bp))
  {
    hide Owned, UnitOk, Cut, Put, Handed;
    Neighbours(size, ring, live, owner, i, bp);
    assert GapOk(size, ring, i) && (i + 1 < |ring| ==> GapOk(size, ring, i + 1));
    var up := i + 1 < |ring| && bp + size[bp] == ring[i + 1];
    if up {
      AbsorbNext(size, ring, live, owner, i, bp);
      CutPlace(ring, i, bp);
      var total := size[bp] + size[ring[i + 1]];
      var size1, ring1, live1, owner1 := size[bp := total], Cut(ring, i + 1), live[bp := total],
        Handed(owner, ring[i + 1], bp);
      CutAbove(size, ring, i);
      hide GapOk, Sorted;
      FreeBelow(size1, ring1, live1, owner1, i, bp);
      assert live1 - {bp} == live - {bp};
    } else {
      hide GapOk, Sorted;
      FreeBelow(size, ring, live, owner, i, bp);
    }
  }

  lemma CutAbove(size: map<nat, nat>, ring: seq<nat>, i: nat)
    requires Sorted(ring) && i + 1 < |ring| && GapOk(size, ring, i + 1)
    ensures |Cut(ring, i + 1)| == |ring| - 1
    ensures (i + 1 < |ring| - 1 ==> ring[i + 1] + size[ring[i + 1]] < Cut(ring, i + 1)[i + 1])
  {
  }

  lemma FreeBelow(size: map<nat, nat>, ring: seq<nat>, live: map<nat, nat>, owner: map<nat, nat>, i: nat, bp: nat)
    requires Blocks(size, ring, live, owner) && bp in live && bp in size && Between(ring, i, bp) && ring[i] in size
    requires i + 1 < |ring| ==> bp + size[bp] < ring[i + 1]
    ensures var p := ring[i];
            if p + size[p] == bp then Blocks(size[p := size[p] + size[bp]], ring, live - {bp}, Handed(owner, bp, p))
            else Blocks(size, Put(ring, i + 1, bp), live - {bp}, owner)
  {
    hide Blocks, Cut, Put, Handed;
    Neighbours(size, ring, live, owner, i, bp);
    if ring[i] + size[ring[i]] == bp {
      MergeIntoPrev(size, ring, live, owner, i, bp);
    } else {
      Enlist(size, ring, live, owner, i, bp);
    }
  }

  lemma FreedShape(size: map<nat, nat>, ring: seq<nat>, i: nat, bp: nat) returns (k: nat)
    requires Sorted(ring) && Between(ring, i, bp) && bp in size && ring[i] in size
    requires (i + 1 < |ring| ==> ring[i + 1] in size) && bp !in ring
    ensures ring[i] in Freed(size, ring, i, bp)
    ensures k < |Freed(size, ring, i, bp)| && Freed(size, ring, i, bp)[k] in FreedSize(size, ring, i, bp)
    ensures FreedSize(size, ring, i, bp)[Freed(size, ring, i, bp)[k]] >= size[bp]
  {
    var r := Freed(size, ring, i, bp);
    assert r[i] == ring[i];
    k := if ring[i] + size[ring[i]] == bp then i else i + 1;
  }

  lemma FreedKeys(size: map<nat, nat>, ring: seq<nat>, owner: map<nat, nat>, i: nat, bp: nat)
    requires Between(ring, i, bp) && bp in size && ring[i] in size
    ensures FreedUnits(size, ring, owner, i, bp).Keys == owner.Keys
  {
  }

  // ----- The search of malloc -----

  /** The free list as malloc visits it: from the entry after freep round to freep. */
  ghost function Rotated(ring: seq<nat>, f: nat): (r: seq<nat>)
    requires f < |ring|
    ensures |r| == |ring| && r[|ring| - 1] == ring[f]
  {
    ring[f + 1..] + ring[..f + 1]
  }

  lemma RotatedAt(ptr: map<nat, nat>, ring: seq<nat>, f: nat, t: nat) returns (k: nat)
    requires Linked(ptr, ring) && f < |ring| && t < |ring|
    ensures k < |ring| && Rotated(ring, f)[t] == ring[k] && ring[k] in ptr
    ensures t + 1 < |ring| ==> ptr[ring[k]] == Rotated(ring, f)[t + 1]
    ensures ptr[ring[k]] == After(ring, k)
    ensures k > 0 ==> ring[k - 1] == if t == 0 then ring[f] else Rotated(ring, f)[t - 1]
  {
    k := if f + 1 + t < |ring| then f + 1 + t else t - (|ring| - f - 1);
    assert LinkOk(ptr, ring, k);
  }

  lemma AllVisited(ring: seq<nat>, f: nat, a: nat)
    requires f < |ring| && a in ring
    ensures a in Rotated(ring, f)
  {
    var k :| 0 <= k < |ring| && ring[k] == a;
    assert Rotated(ring, f)[if k > f then k - f - 1 else |ring| - f - 1 + k] == a;
  }

  lemma FirstVisited(ring: seq<nat>, f: nat)
    requires f < |ring| && ring[0] == BASE
    ensures Rotated(ring, f)[0] == After(ring, f)
  {
  }

  lemma VisitedOnce(ring: seq<nat>, f: nat, t: nat)
    requires Sorted(ring) && f < |ring| && t < |ring| && Rotated(ring, f)[t] == ring[f]
    ensures t == |ring| - 1
  {
  }

  lemma CutMember(ring: seq<nat>, k: nat)
    requires 0 < k < |ring|
    ensures ring[k - 1] in Cut(ring, k)
  {
    assert Cut(ring, k)[k - 1] == ring[k - 1];
  }

  lemma RingSizes(size: map<nat, nat>, ring: seq<nat>, live: map<nat, nat>, owner: map<nat, nat>)
    requires Blocks(size, ring, live, owner)
    ensures (forall m :: 0 <= m < |ring| ==> ring[m] in size && 0 < ring[m] && (m > 0 ==> BASE < ring[m]))
    ensures size[BASE] == 0
  {
    forall m | 0 <= m < |ring| ensures ring[m] in size && 0 < ring[m] && (m > 0 ==> BASE < ring[m]) {
      assert GapOk(size, ring, m);
    }
  }

  lemma LiveApart(size: map<nat, nat>, ring: seq<nat>, live: map<nat, nat>, owner: map<nat, nat>, b: nat)
    requires Blocks(size, ring, live, owner) && b in live
    ensures forall u :: b <= u < b + live[b] ==> u in owner
    ensures forall a :: a in live && a != b ==> a + live[a] <= b || b + live[b] <= a
  {
    forall a | a in live && a != b ensures a + live[a] <= b || b + live[b] <= a {
      Apart(size, owner, a, b);
    }
  }

  // The list with base alone.
  lemma Fresh(ptr: map<nat, nat>, size: map<nat, nat>, live: map<nat, nat>, owner: map<nat, nat>)
    requires live == map[] && owner == map[] && BASE in ptr && ptr[BASE] == BASE && BASE in size && size[BASE] == 0
    ensures Linked(ptr, [BASE]) && Blocks(size, [BASE], live, owner)
  {
  }

  /** A header unit, and no more units than it takes to hold nbytes. */
  function Units(nbytes: nat): (n: nat)
    ensures nbytes + 16 <= 16 * n < nbytes + 32
  {
    (nbytes + 15) / 16 + 1
  }

  /** What morecore asks of sbrk. */
  function Ask(nunits: nat): (n: nat)
    ensures nunits <= n && 4096 <= n && (n == nunits || n == 4096)
  {
    if nunits < 4096 then 4096 else nunits
  }

  /** sbrk, if it succeeds, gives memory above base that it has not given before, and its argument was not
      cut down to an int. */
  ghost predicate FreshRegion(owner: map<nat, nat>, brk: nat, nu: nat) {
    brk != 0 ==> BASE < brk && brk + nu <= LIMIT && nu * 16 < 0x8000_0000 && forall u :: brk <= u < brk + nu ==>
      u !in owner
  }

  class Allocator {
    var ptr: map<nat, nat>
    var size: map<nat, nat>
    var freep: nat
    ghost var ring: seq<nat>
    ghost var live: map<nat, nat>
    ghost var owner: map<nat, nat>

    /** Once malloc has set up base. */
    ghost predicate Ready()
      reads this
    {
      Linked(ptr, ring) && Blocks(size, ring, live, owner) && freep in ring
    }

    ghost predicate Valid()
      reads this
    {
      if freep == 0 then live == map[] && owner == map[] else Ready()
    }

    constructor ()
      ensures Valid() && freep == 0
    {
      freep, ptr, size := 0, map[], map[];
      ring, live, owner := [], map[], map[];
    }

    /** free's loop: the entry of the list that bp belongs after, the greatest below it. */
    method FindPlace(bp: nat) returns (p: nat, ghost i: nat)
      requires Ready() && bp in live
      ensures p in ring && p < bp && forall q :: q in ring && q < bp ==> q <= p
      ensures Between(ring, i, bp) && p == ring[i]
    {
      hide Owned, UnitOk, GapOk, Blocks;
      BlockFacts(size, ring, live, owner, bp);
      ghost var t := PlaceExists(ring, bp);
      p := freep;
      i :| 0 <= i < |ring| && ring[i] == p;
      assert LinkOk(ptr, ring, i);
      while !(bp > p && bp < ptr[p])
        invariant i < |ring| && p == ring[i] && LinkOk(ptr, ring, i)
        decreases if i <= t then t - i else |ring| - i + t
      {
        if p >= ptr[p] && (bp > p || bp < ptr[p]) {
          break;
        }
        assert i != t;
        p := ptr[p];
        i := if i + 1 < |ring| then i + 1 else 0;
        assert LinkOk(ptr, ring, i);
      }
    }

    /** free: the block stops being live, and not a unit is lost or gained. */
    method Free(ap: nat)
      requires Valid() && ap > 0 && ap - 1 in live
      modifies this
      ensures Ready() && live == old(live) - {ap - 1} && owner.Keys == old(owner).Keys
      // some free block now holds at least the units given back
      ensures exists k :: 0 <= k < |ring| && ring[k] in size && size[ring[k]] >= old(live)[ap - 1]
    {
      hide Owned, UnitOk, GapOk, Blocks, Linked, Freed, FreedUnits;
      var bp := ap - 1;
      BlockFacts(size, ring, live, owner, bp);
      ghost var i;
      var p;
      p, i := FindPlace(bp);
      FreeBlocks(size, ring, live, owner, i, bp);
      FreeLinks(ptr, size, ring, i, bp);
      FreedKeys(size, ring, owner, i, bp);
      ghost var size0 := size;
      ghost var k := FreedShape(size, ring, i, bp);
      var next := ptr[p];
      if bp + size[bp] == next {
        size := size[bp := size[bp] + size[next]];
        ptr := ptr[bp := ptr[next]];
      } else {
        ptr := ptr[bp := next];
      }
      if p + size[p] == bp {
        size := size[p := size[p] + size[bp]];
        ptr := ptr[p := ptr[bp]];
      } else {
        ptr := ptr[p := bp];
      }
      freep := p;
      assert size == FreedSize(size0, ring, i, bp);
      owner, live := FreedUnits(size0, ring, owner, i, bp), live - {bp};
      ring := Freed(size0, ring, i, bp);
    }

    /** malloc's loop up to a fit, or once round the list. */
    method Scan(nunits: nat) returns (found: bool, prevp: nat, p: nat, ghost k: nat)
      requires Ready() && nunits > 0
      ensures found ==>
                0 < k < |ring| && p == ring[k] && prevp == ring[k - 1] && p in ptr && p in size && size[p] >= nunits
      ensures !found ==> forall m :: 0 <= m < |ring| ==> ring[m] in size && size[ring[m]] < nunits
    {
      hide Blocks, Rotated, Sorted, After;
      RingSizes(size, ring, live, owner);
      ghost var f :| 0 <= f < |ring| && ring[f] == freep;
      assert LinkOk(ptr, ring, f);
      ghost var t := 0;
      prevp := freep;
      p := ptr[prevp];
      ghost var j := RotatedAt(ptr, ring, f, 0);
      FirstVisited(ring, f);
      while true
        invariant 0 <= t < |ring| && p == Rotated(ring, f)[t]
        invariant prevp == (if t == 0 then ring[f] else Rotated(ring, f)[t - 1])
        invariant forall m :: 0 <= m < t ==> Rotated(ring, f)[m] in size && size[Rotated(ring, f)[m]] < nunits
        decreases |ring| - t
      {
        j := RotatedAt(ptr, ring, f, t);
        if size[p] >= nunits {
          return true, prevp, p, j;
        }
        if p == freep {
          VisitedOnce(ring, f, t);
          forall m | 0 <= m < |ring| ensures ring[m] in size && size[ring[m]] < nunits {
            AllVisited(ring, f, ring[m]);
          }
          return false, prevp, p, 0;
        }
        prevp, p := p, ptr[p];
        t := t + 1;
      }
    }

    /** morecore. `brk` is what sbrk returned, in units; 0 stands for failure. */
    method Morecore(nunits: nat, brk: nat) returns (ok: bool)
      requires Ready() && nunits > 0 && FreshRegion(owner, brk, Ask(nunits))
      modifies this
      ensures ok == (brk != 0) && Ready() && live == old(live)
      ensures ok ==> owner.Keys == Obtained(old(owner), brk, Ask(nunits)).Keys
      ensures ok ==> exists m :: 0 <= m < |ring| && ring[m] in size && size[ring[m]] >= nunits
      ensures !ok ==> unchanged(this)
    {
      hide Owned, UnitOk, GapOk, Blocks, Linked, Obtained;
      var nu := if nunits < 4096 then 4096 else nunits;
      if brk == 0 {
        return false;
      }
      Grow(size, ring, live, owner, brk, nu);
      size := size[brk := nu];
      live, owner := live[brk := nu], Obtained(owner, brk, nu);
      RingSizes(size, ring, live, owner);
      Free(brk + 1);
      return true;
    }

    /** malloc; `brk` is what sbrk would return, 0 for failure. A pointer is null when 0. */
    method Malloc(nbytes: nat, brk: nat) returns (ap: nat)
      requires Valid() && nbytes < 0x1_0000_0000 && FreshRegion(owner, brk, Ask(Units(nbytes)))
      modifies this
      ensures Ready()
      // the block is new, holds its header and nbytes with less than a unit to spare, and is made of units that no
      // live block had
      ensures ap != 0 ==> ap - 1 in live && nbytes + 16 <= 16 * live[ap - 1] < nbytes + 32
      ensures ap != 0 ==> ap > BASE && live == old(live)[ap - 1 := Units(nbytes)] && ap - 1 !in old(live)
      ensures ap != 0 ==> forall u :: ap - 1 <= u < ap - 1 + Units(nbytes) ==> u in owner
      ensures ap != 0 ==> forall a :: a in old(live) ==> a + old(live)[a] <= ap - 1 || ap - 1 + Units(nbytes) <= a
      // no unit is lost, and new ones come only from sbrk, when nothing fits
      ensures owner.Keys == old(owner).Keys ||
              (owner.Keys == Obtained(old(owner), brk, Ask(Units(nbytes))).Keys && brk != 0 &&
               !old(Fits(Units(nbytes))))
      ensures ap == 0 <==> brk == 0 && !old(Fits(Units(nbytes)))
      ensures ap == 0 ==> live == old(live)
    {
      hide Owned, UnitOk, GapOk, Blocks, Linked, Obtained;
      var nunits := (nbytes + 15) / 16 + 1;
      if freep == 0 {
        freep := BASE;
        ptr := ptr[BASE := BASE];
        size := size[BASE := 0];
        ring := [BASE];
        Fresh(ptr, size, live, owner);
      }
      var found, prevp, p;
      ghost var k;
      found, prevp, p, k := Scan(nunits);
      if !found {
        var ok := Morecore(nunits, brk);
        if !ok {
          return 0;
        }
        found, prevp, p, k := Scan(nunits);
      }
      ap := Take(nunits, prevp, p, k);
      LiveApart(size, ring, live, owner, ap - 1);
      assert forall a :: a in old(live) ==> a in live && a != ap - 1;
    }

    /** malloc's fit: all of the block, or its tail. */
    method Take(nunits: nat, prevp: nat, p: nat, ghost k: nat) returns (ap: nat)
      requires Ready() && 0 < k < |ring| && p == ring[k] && prevp == ring[k - 1] && p in size && 0 < nunits <= size[p]
      modifies this
      ensures Ready() && ap > BASE && live == old(live)[ap - 1 := nunits] && ap - 1 !in old(live)
      ensures owner.Keys == old(owner).Keys
    {
      hide Owned, UnitOk, GapOk, Linked, Cut, SplitUnits, Sorted;
      RingSizes(size, ring, live, owner);
      if size[p] == nunits {
        LinkCut(ptr, ring, k);
        Unlist(size, ring, live, owner, k);
        CutMember(ring, k);
        ptr := ptr[prevp := ptr[p]];
        ap := p + 1;
        live, ring := live[p := nunits], Cut(ring, k);
      } else {
        SplitFresh(size, ring, live, owner, k, nunits);
        SplitOff(size, ring, live, owner, k, nunits);
        ghost var q := p + size[p] - nunits;
        SplitKeys(owner, q, nunits);
        size := size[p := size[p] - nunits];
        ap := p + size[p] + 1;
        size := size[ap - 1 := nunits];
        live, owner := live[q := nunits], SplitUnits(owner, q, nunits);
      }
      freep := prevp;
    }

    ghost predicate Fits(nunits: nat)
      reads this
    {
      freep != 0 && exists m :: 0 <= m < |ring| && ring[m] in size && size[ring[m]] >= nunits
    }
  }

  lemma BlockFacts(size: map<nat, nat>, ring: seq<nat>, live: map<nat, nat>, owner: map<nat, nat>, bp: nat)
    requires Blocks(size, ring, live, owner) && bp in live
    ensures BASE < bp && bp !in ring && bp in size && live[bp] == size[bp] > 0 && Sorted(ring)
    ensures forall a :: a in ring ==> a in size
  {
    forall k | 0 <= k < |ring| ensures ring[k] in size {
      assert GapOk(size, ring, k);
    }
    assert Owned(size, owner, bp);
  }
}
