/** Growing user memory page by page, as uvmalloc and uvmcopy do: what has been done after some pages, and
    what undoing it restores.

    Everything is about snapshots of memory and of one page table; the loops are in VmUser. */
module VmFill {
  import opened VmTree
  import opened Vm

  /** What a page is to hold and how it is to be mapped. */
  datatype Want = Want(perm: Pte, bytes: Page)

  /** A snapshot: free pages, tables, one tree, data pages. */
  datatype Snap = Snap(free: set<nat>, tables: Tables, at: map<Node, nat>, data: map<nat, Page>)

  ghost predicate Sound(s: Snap) {
    Tree(s.tables, s.at) && s.free !! s.tables.Keys && s.free !! s.data.Keys && s.tables.Keys !! s.data.Keys
  }

  ghost function Entry(s: Snap, v: nat): Pte
    requires Sound(s)
  {
    Flat(s.tables, s.at, v)
  }

  ghost function Backing(s: Snap, lo: nat, n: nat): set<nat>
    requires Sound(s)
  {
    Phys(s.tables, s.at, lo, lo + n)
  }

  /** The pages, apart from what the entries say: interior tables and the `got` data pages came from the
      free pages, and the rest of memory is untouched. */
  ghost predicate Spent(a: Snap, b: Snap, got: set<nat>) {
    && Extends(a.at, b.at) && b.tables.Keys == a.tables.Keys + b.at.Values && OthersSame(a.tables, b.tables, a.at)
    && b.free + b.at.Values + got == a.free + a.at.Values && b.free <= a.free && got <= a.free && got !! b.free &&
      got !! b.at.Values
    && b.data.Keys == a.data.Keys + got && forall q :: q in a.data ==> b.data[q] == a.data[q]
  }

  ghost predicate PageOk(s: Snap, v: nat, w: Want)
    requires Sound(s)
  {
    var e := Entry(s, v);
    e == LeafFor(w.perm, e.ppn) && e.ppn in s.data && s.data[e.ppn] == w.bytes
  }

  /** From a to b, pages lo .. have been filled as wanted, each with a page of its own, and no other entry
      has changed. */
  ghost predicate Filled(a: Snap, b: Snap, lo: nat, want: seq<Want>) {
    && Sound(a) && Sound(b) && Spent(a, b, Backing(b, lo, |want|))
    && (forall k :: 0 <= k < |want| ==> PageOk(b, lo + k, want[k]))
    && (forall v: nat, w: nat :: lo <= v < w < lo + |want| ==> Entry(b, v).ppn != Entry(b, w).ppn)
    && (forall v: nat :: !(lo <= v < lo + |want|) ==> Entry(b, v) == Entry(a, v))
  }

  lemma FilledNone(a: Snap, lo: nat)
    requires Sound(a)
    ensures Filled(a, a, lo, [])
  {
    hide Flat;
    PhysNone(a.tables, a.at, lo);
    TreeValues(a.tables, a.at);
    hide Tree;
  }

  lemma SpentSets(A: set<nat>, B: set<nat>, C: set<nat>, F0: set<nat>, F1: set<nat>, F2: set<nat>, got: set<nat>,
                  p: nat)
    requires F1 + B + got == F0 + A && F1 <= F0 && got <= F0 && got !! F1 && got !! B && p in F1 && F1 !! B
    requires F2 + C == (F1 - {p}) + B && F2 <= F1 - {p} && F2 !! C && A <= B <= C
    ensures F2 + C + (got + {p}) == F0 + A && F2 <= F0 && got + {p} <= F0 && (got + {p}) !! F2 && (got + {p}) !! C
    ensures p !in C
  {
  }

  // kalloc, fill, mappages: one more page.
  lemma SpentNext(a: Snap, b: Snap, got: set<nat>, p: nat, bytes: Page, free: set<nat>, tables: Tables, at: map<Node,
                  nat>)
    requires Sound(a) && Sound(b) && Spent(a, b, got) && p in b.free
    requires Grew(b.free - {p}, b.tables, b.at, free, tables, at)
    ensures Spent(a, Snap(free, tables, at, b.data[p := bytes]), got + {p})
  {
    hide Tree;
    ExtendsValues(a.at, b.at);
    ExtendsValues(b.at, at);
    TreeValues(b.tables, b.at);
    TreeValues(a.tables, a.at);
    SpentSets(a.at.Values, b.at.Values, at.Values, a.free, b.free, free, got, p);
    forall q | q in a.tables && q !in a.at.Values ensures q in tables && tables[q] == a.tables[q] {
      NotGained(a, b, got, q);
    }
  }

  lemma NotGained(a: Snap, b: Snap, got: set<nat>, q: nat)
    requires Sound(a) && Spent(a, b, got) && q in a.tables && q !in a.at.Values
    ensures q !in b.at.Values
  {
    assert q !in a.free;
  }

  lemma FilledNext(a: Snap, b: Snap, lo: nat, want: seq<Want>, p: nat, w: Want, c: Snap)
    requires Filled(a, b, lo, want) && p in b.free && Grew(b.free - {p}, b.tables, b.at, c.free, c.tables, c.at)
    requires c.data == b.data[p := w.bytes]
    requires Sound(c) && forall v: nat :: Entry(c, v) == if v == lo + |want| then LeafFor(w.perm, p) else Entry(b, v)
    ensures Filled(a, c, lo, want + [w])
  {
    hide Sound, Entry, Backing, Grew, Spent;
    MappedNext(b, c, lo, |want|, p);
    assert Spent(a, c, Backing(c, lo, |want| + 1)) by {
      SpentNext(a, b, Backing(b, lo, |want|), p, w.bytes, c.free, c.tables, c.at);
    }
    assert forall v: nat :: lo <= v < lo + |want| ==> Entry(b, v).ppn != p by {
      forall v: nat | lo <= v < lo + |want| ensures Entry(b, v).ppn != p {
        assert PageOk(b, lo + (v - lo), want[v - lo]);
        FreeNotData(b, p);
      }
    }
    forall k | 0 <= k < |want| + 1 ensures PageOk(c, lo + k, (want + [w])[k]) {
      if k < |want| {
        assert PageOk(b, lo + k, want[k]);
      }
    }
  }

  lemma FreeNotData(b: Snap, p: nat)
    requires Sound(b) && p in b.free
    ensures p !in b.data
  {
  }

  lemma MappedNext(b: Snap, c: Snap, lo: nat, n: nat, p: nat)
    requires Sound(b) && Sound(c) && Entry(c, lo + n).ppn == p && forall v: nat :: v != lo + n ==>
               Entry(c, v) == Entry(b, v)
    ensures Backing(c, lo, n + 1) == Backing(b, lo, n) + {p}
  {
    hide Flat, Tree;
    PhysNext(c.tables, c.at, lo, lo + n);
    MappedSame(b, c, lo, n);
  }

  lemma MappedSame(b: Snap, c: Snap, lo: nat, n: nat)
    requires Sound(b) && Sound(c) && forall v: nat :: lo <= v < lo + n ==> Entry(c, v) == Entry(b, v)
    ensures Backing(c, lo, n) == Backing(b, lo, n)
  {
    hide Flat, Tree;
    assert forall v: nat :: lo <= v < lo + n ==>
             Flat(c.tables, c.at, v) == Entry(c, v) && Flat(b.tables, b.at, v) == Entry(b, v);
  }

  // A page that could not be mapped leaves interior tables behind, nothing else.
  lemma FilledGrew(a: Snap, b: Snap, lo: nat, want: seq<Want>, c: Snap)
    requires Filled(a, b, lo, want) && Grew(b.free, b.tables, b.at, c.free, c.tables, c.at) && c.data == b.data
    requires Sound(c) && forall v: nat :: Entry(c, v) == Entry(b, v)
    ensures Filled(a, c, lo, want)
  {
    hide Sound, Entry, Backing;
    MappedSame(b, c, lo, |want|);
    SpentGrew(a, b, Backing(b, lo, |want|), c);
    hide Spent, Grew;
    forall k | 0 <= k < |want| ensures PageOk(c, lo + k, want[k]) {
      assert PageOk(b, lo + k, want[k]);
    }
  }

  lemma GrewSets(A: set<nat>, B: set<nat>, C: set<nat>, F0: set<nat>, F1: set<nat>, F2: set<nat>, got: set<nat>)
    requires F1 + B + got == F0 + A && F1 <= F0 && got <= F0 && got !! F1 && got !! B && F1 !! B
    requires F2 + C == F1 + B && F2 <= F1 && F2 !! C && A <= B <= C
    ensures F2 + C + got == F0 + A && F2 <= F0 && got !! F2 && got !! C
  {
  }

  lemma SpentGrew(a: Snap, b: Snap, got: set<nat>, c: Snap)
    requires Sound(a) && Sound(b) && Spent(a, b, got) && Grew(b.free, b.tables, b.at, c.free, c.tables, c.at)
    requires c.data == b.data
    ensures Spent(a, c, got)
  {
    hide Tree;
    ExtendsValues(a.at, b.at);
    ExtendsValues(b.at, c.at);
    TreeValues(b.tables, b.at);
    TreeValues(a.tables, a.at);
    GrewSets(a.at.Values, b.at.Values, c.at.Values, a.free, b.free, c.free, got);
    forall q | q in a.tables && q !in a.at.Values ensures q in c.tables && c.tables[q] == a.tables[q] {
      NotGained(a, b, got, q);
    }
  }

  /** Back to where we were, except that interior tables may have been added. */
  ghost predicate Restored(a: Snap, b: Snap) {
    && Sound(a) && Sound(b) && (forall v: nat :: Entry(b, v) == Entry(a, v)) && b.data == a.data
    && Extends(a.at, b.at) && b.tables.Keys == a.tables.Keys + b.at.Values && OthersSame(a.tables, b.tables, a.at)
    && b.free + b.at.Values == a.free + a.at.Values && b.free <= a.free
  }

  // Unmapping and freeing what was filled restores everything.
  lemma Undo(a: Snap, b: Snap, lo: nat, want: seq<Want>, c: Snap)
    requires Filled(a, b, lo, want) && Sound(c) && c.at == b.at && c.tables.Keys == b.tables.Keys
    requires OthersSame(b.tables, c.tables, b.at)
    requires forall v: nat :: lo <= v < lo + |want| ==> Entry(a, v) == NONE
    requires forall v: nat :: Entry(c, v) == if lo <= v < lo + |want| then NONE else Entry(b, v)
    requires c.free == b.free + Backing(b, lo, |want|) && c.data == b.data - Backing(b, lo, |want|)
    ensures Restored(a, c)
  {
    hide Entry, Backing;
    UndoPages(a, b, Backing(b, lo, |want|), c);
    hide Sound, Spent, Extends, OthersSame, PageOk;
    forall v: nat ensures Entry(c, v) == Entry(a, v) {
    }
  }

  lemma UndoPages(a: Snap, b: Snap, got: set<nat>, c: Snap)
    requires Sound(a) && Sound(b) && Spent(a, b, got) && c.at == b.at && c.tables.Keys == b.tables.Keys
    requires OthersSame(b.tables, c.tables, b.at)
    requires c.free == b.free + got && c.data == b.data - got
    ensures c.data == a.data && Extends(a.at, c.at) && c.tables.Keys == a.tables.Keys + c.at.Values
    ensures OthersSame(a.tables, c.tables, a.at)
    ensures c.free + c.at.Values == a.free + a.at.Values && c.free <= a.free
  {
    hide Tree;
    assert got !! a.data.Keys;
    forall q | q in a.tables && q !in a.at.Values ensures q in c.tables && c.tables[q] == a.tables[q] {
      NotGained(a, b, got, q);
    }
  }

  // ----- How many pages filling takes -----

  /** The pages it takes to fill them, the tables among `have` being there. */
  ghost function Pages(have: set<Node>, lo: nat, n: nat): nat {
    n + Lacking(have, lo, n)
  }

  /** At most two tables for each. */
  lemma {:induction false} PagesAtMost(have: set<Node>, lo: nat, n: nat)
    ensures Pages(have, lo, n) <= 3 * n
  {
    if n > 0 {
      PagesAtMost(have, lo, n - 1);
      var old', new' := Ways(lo, n - 1) - have, Way(lo + n - 1) - have;
      assert Ways(lo, n) - have == old' + new';
      UnionCount(old', new');
      AtMost(new' - old', Way(lo + n - 1));
    }
  }

  lemma PagesGrow(have: set<Node>, lo: nat, k: nat, n: nat)
    requires k <= n
    ensures Pages(have, lo, k) <= Pages(have, lo, n)
  {
    LackingGrows(have, lo, k, n);
  }

  lemma PagesNone(have: set<Node>, lo: nat)
    ensures Pages(have, lo, 0) == 0
  {
    assert Ways(lo, 0) - have == {};
  }

  lemma PagesNext(have: set<Node>, lo: nat, k: nat)
    ensures Pages(have, lo, k + 1) == Pages(have, lo, k) + 1 + Missing(have + Ways(lo, k), lo + k)
  {
    LackingNext(have, lo, k);
  }

  lemma PhysFreshAt(b: Snap, lo: nat, w: nat)
    requires Sound(b) && lo <= w && forall v: nat :: lo <= v < w ==> Entry(b, v).ppn != Entry(b, w).ppn
    ensures Entry(b, w).ppn !in Phys(b.tables, b.at, lo, w)
  {
    hide Flat, Tree;
    forall v: nat | lo <= v < w ensures Flat(b.tables, b.at, v).ppn != Entry(b, w).ppn {
      assert Entry(b, v).ppn != Entry(b, w).ppn;
    }
  }

  lemma {:induction false} BackingCount(b: Snap, lo: nat, n: nat)
    requires Sound(b) && forall v: nat, w: nat :: lo <= v < w < lo + n ==> Entry(b, v).ppn != Entry(b, w).ppn
    ensures |Backing(b, lo, n)| == n
  {
    hide Flat, Tree;
    if n == 0 {
      PhysNone(b.tables, b.at, lo);
    } else {
      BackingCount(b, lo, n - 1);
      PhysNext(b.tables, b.at, lo, lo + n - 1);
      assert Backing(b, lo, n) == Backing(b, lo, n - 1) + {Entry(b, lo + n - 1).ppn};
      var p := Entry(b, lo + n - 1).ppn;
      PhysFreshAt(b, lo, lo + n - 1);
    }
  }

  // Free pages, tables and filled pages add up.
  lemma FilledCount(a: Snap, b: Snap, lo: nat, want: seq<Want>)
    requires Filled(a, b, lo, want)
    ensures |b.free| + |b.at| + |want| == |a.free| + |a.at| && a.at.Keys <= b.at.Keys
  {
    BackingCount(b, lo, |want|);
    hide Backing, Entry;
    TreeValues(a.tables, a.at);
    TreeValues(b.tables, b.at);
    ValuesCount(a.at);
    ValuesCount(b.at);
    hide Tree;
    var got := Backing(b, lo, |want|);
    assert |b.free + b.at.Values + got| == |b.free| + |b.at.Values| + |got|;
    assert |a.free + a.at.Values| == |a.free| + |a.at.Values|;
  }

  // Filled up to here, there were enough pages for that much.
  lemma FilledEnough(a: Snap, b: Snap, lo: nat, want: seq<Want>)
    requires Filled(a, b, lo, want) && Covers(a.at, b.at, lo, |want|)
    ensures |a.free| == |b.free| + Pages(a.at.Keys, lo, |want|)
  {
    hide Filled;
    FilledCount(a, b, lo, want);
    UnionCount(a.at.Keys, Ways(lo, |want|));
    assert |a.at.Keys| == |a.at| && |b.at.Keys| == |b.at|;
  }

  // And if the next page cannot be filled, not for all of it.
  lemma FilledShort(a: Snap, b: Snap, lo: nat, want: seq<Want>, n: nat, v: nat)
    requires Filled(a, b, lo, want) && Covers(a.at, b.at, lo, |want|) && |want| < n && v == lo + |want|
    requires |b.free| < 1 + Missing(b.at.Keys, v)
    ensures |a.free| < Pages(a.at.Keys, lo, n)
  {
    hide Filled, Pages, Missing;
    FilledEnough(a, b, lo, want);
    PagesNext(a.at.Keys, lo, |want|);
    PagesGrow(a.at.Keys, lo, |want| + 1, n);
  }
}
