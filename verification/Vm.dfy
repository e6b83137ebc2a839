/** kernel/kalloc.c and kernel/vm.c: physical pages, walking and building page tables, user memory. A page
    is free, a page table, or data; memory just obtained from kalloc is none of these until it is filled. */
module Vm {
  import opened Machine
  import opened VmTree

  const PGSIZE: nat := 4096

  type Page = p: seq<byte> | |p| == PGSIZE witness seq(PGSIZE, _ => 0)

  function ZeroPage(): Page {
    seq(PGSIZE, _ => 0)
  }

  ghost function Elems(s: seq<nat>): set<nat> {
    set p | p in s
  }

  ghost predicate Extends(at: map<Node, nat>, at': map<Node, nat>) {
    forall n :: n in at ==> n in at' && at'[n] == at[n]
  }

  /** The tree may have gained interior tables, taken from the free pages; other trees have not changed. */
  ghost predicate Grew(free: set<nat>, tables: Tables, at: map<Node, nat>, free': set<nat>, tables': Tables,
                       at': map<Node, nat>) {
    && Tree(tables, at) && Tree(tables', at') && Extends(at, at')
    && tables'.Keys == tables.Keys + at'.Values && free' + at'.Values == free + at.Values
    && free' !! at'.Values && free' <= free
    && (forall q :: q in tables && q !in at.Values ==> q in tables' && tables'[q] == tables[q])
  }

  lemma GrewTrans(free: set<nat>, tables: Tables, at: map<Node, nat>, free1: set<nat>, tables1: Tables, at1: map<Node,
                  nat>,
                  free2: set<nat>, tables2: Tables, at2: map<Node, nat>)
    requires Grew(free, tables, at, free1, tables1, at1) && Grew(free1, tables1, at1, free2, tables2, at2)
    requires free !! tables.Keys
    ensures Grew(free, tables, at, free2, tables2, at2)
  {
    hide Tree, Flat;
    ExtendsValues(at, at1);
    ExtendsValues(at1, at2);
    ExtendsValues(at, at2);
    forall q | q in tables && q !in at.Values ensures q in tables2 && tables2[q] == tables[q] {
      assert q !in at1.Values;
    }
  }

  lemma ExtendsValues(at: map<Node, nat>, at': map<Node, nat>)
    requires Extends(at, at')
    ensures at.Values <= at'.Values
  {
    forall q | q in at.Values ensures q in at'.Values {
      var n :| n in at && at[n] == q;
      assert at'[n] == q;
    }
  }

  // ----- Counting pages -----

  /** The tables below the root that lead to a page. */
  ghost function Way(vpn: nat): set<Node> {
    {Node(0, Pre(vpn, 0)), Node(1, Pre(vpn, 1))}
  }

  /** How many of them are not there yet. */
  ghost function Missing(have: set<Node>, vpn: nat): nat {
    |Way(vpn) - have|
  }

  /** The tree has got all of them, and no other table. */
  ghost predicate Reaches(at: map<Node, nat>, at': map<Node, nat>, vpn: nat) {
    at'.Keys == at.Keys + Way(vpn)
  }

  /** The tables that lead to pages lo .. lo + n - 1. */
  ghost function Ways(lo: nat, n: nat): set<Node> {
    if n == 0 then {} else Ways(lo, n - 1) + Way(lo + n - 1)
  }

  /** How many of them are not there yet. */
  ghost function Lacking(have: set<Node>, lo: nat, n: nat): nat {
    |Ways(lo, n) - have|
  }

  lemma LackingNext(have: set<Node>, lo: nat, k: nat)
    ensures Lacking(have, lo, k + 1) == Lacking(have, lo, k) + Missing(have + Ways(lo, k), lo + k)
  {
    var old', new' := Ways(lo, k) - have, Way(lo + k) - (have + Ways(lo, k));
    assert Ways(lo, k + 1) - have == old' + new';
    assert |old' + new'| == |old'| + |new'|;
  }

  lemma {:induction false} LackingGrows(have: set<Node>, lo: nat, k: nat, n: nat)
    requires k <= n
    ensures Lacking(have, lo, k) <= Lacking(have, lo, n)
    decreases n
  {
    if k < n {
      LackingGrows(have, lo, k, n - 1);
      AtMost(Ways(lo, n - 1) - have, Ways(lo, n) - have);
    }
  }

  /** The tree has got exactly the tables that lead to pages lo .. lo + n - 1. */
  ghost predicate Covers(at0: map<Node, nat>, at: map<Node, nat>, lo: nat, n: nat) {
    at.Keys == at0.Keys + Ways(lo, n)
  }

  lemma CoversNone(at: map<Node, nat>, lo: nat)
    ensures Covers(at, at, lo, 0) && Lacking(at.Keys, lo, 0) == 0
  {
    assert Ways(lo, 0) - at.Keys == {};
  }

  lemma CoversNext(at0: map<Node, nat>, at1: map<Node, nat>, at2: map<Node, nat>, lo: nat, k: nat, v: nat)
    requires Covers(at0, at1, lo, k) && v == lo + k && Reaches(at1, at2, v)
    ensures Covers(at0, at2, lo, k + 1)
  {
  }

  lemma {:induction false} ValuesCount(at: map<Node, nat>)
    requires forall m, n :: m in at && n in at && at[m] == at[n] ==> m == n
    ensures |at.Values| == |at|
    decreases |at|
  {
    if at != map[] {
      var n :| n in at;
      var rest := at - {n};
      ValuesCount(rest);
      assert rest.Keys == at.Keys - {n};
      assert at == rest[n := at[n]];
      AddedValue(rest, n, at[n]);
    }
  }

  lemma {:induction false} ElemsCount(s: seq<nat>)
    requires Distinct(s)
    ensures |Elems(s)| == |s|
  {
    if s != [] {
      ElemsCount(s[1..]);
      assert Elems(s) == {s[0]} + Elems(s[1..]);
    }
  }

  lemma UnionCount<T>(a: set<T>, b: set<T>)
    ensures |a + b| == |a| + |b - a|
  {
    assert a + b == a + (b - a);
  }

  // Pages only move between the free ones and the tree.
  lemma GrewCount(free: set<nat>, tables: Tables, at: map<Node, nat>, free': set<nat>, tables': Tables, at': map<Node,
                  nat>)
    requires Grew(free, tables, at, free', tables', at') && free !! tables.Keys
    ensures |free'| + |at'| == |free| + |at| && at.Keys <= at'.Keys
  {
    TreeValues(tables, at);
    ValuesCount(at);
    ValuesCount(at');
    hide Tree;
    assert |free' + at'.Values| == |free'| + |at'.Values|;
    assert |free + at.Values| == |free| + |at.Values|;
  }

  // walk is through, or has used up the free pages.
  lemma WalkCount(f0: seq<nat>, t0: Tables, at: map<Node, nat>, f: seq<nat>, t: Tables, at': map<Node, nat>, vpn: nat)
    requires Distinct(f0) && Distinct(f) && Grew(Elems(f0), t0, at, Elems(f), t, at') && Elems(f0) !! t0.Keys
    requires at'.Keys <= at.Keys + Way(vpn)
    ensures Way(vpn) <= at'.Keys ==> |f0| >= Missing(at.Keys, vpn) && at'.Keys == at.Keys + Way(vpn)
    ensures f == [] && !(Way(vpn) <= at'.Keys) ==> |f0| < Missing(at.Keys, vpn)
  {
    ElemsCount(f0);
    ElemsCount(f);
    GrewCount(Elems(f0), t0, at, Elems(f), t, at');
    hide Grew, Elems, Way, Distinct;
    UnionCount(at.Keys, Way(vpn));
    assert |at.Keys| == |at| && |at'.Keys| == |at'|;
    if Way(vpn) <= at'.Keys {
      assert at'.Keys == at.Keys + Way(vpn);
    } else {
      var n :| n in Way(vpn) && n !in at'.Keys;
      Fewer(at'.Keys, at.Keys + Way(vpn), n);
    }
  }

  lemma {:induction false} Fewer<T>(a: set<T>, b: set<T>, x: T)
    requires a <= b && x in b && x !in a
    ensures |a| < |b|
  {
    assert a <= b - {x};
    AtMost(a, b - {x});
  }

  lemma {:induction false} AtMost<T>(a: set<T>, b: set<T>)
    requires a <= b
    ensures |a| <= |b|
    decreases |a|
  {
    if a != {} {
      var x :| x in a;
      AtMost(a - {x}, b - {x});
    }
  }

  // One level down: the entry on the way to vpn.
  lemma OnTheWay(tables: Tables, at: map<Node, nat>, vpn: nat, l: nat)
    requires Tree(tables, at) && 0 < l <= 2 && Node(l, Pre(vpn, l)) in at
    ensures var n := Node(l, Pre(vpn, l));
            && at[n] in tables && Px(vpn, l) < ENTRIES && Child(n, Px(vpn, l)) == Node(l - 1, Pre(vpn, l - 1))
            && EntryOk(tables[at[n]][Px(vpn, l)], at, Node(l - 1, Pre(vpn, l - 1)))
  {
    hide Pre, Px;
    Digits(vpn, l);
    assert NodeOk(tables, at, Node(l, Pre(vpn, l)));
  }

  lemma AboveIn(tables: Tables, at: map<Node, nat>, n: Node)
    requires Tree(tables, at) && n.l < 2
    ensures n in at ==> Parent(n) in at
  {
    assert n in at ==> NodeOk(tables, at, n);
  }

  lemma MissingBelow(tables: Tables, at: map<Node, nat>, vpn: nat)
    requires Tree(tables, at) && Node(1, Pre(vpn, 1)) !in at
    ensures Node(0, Pre(vpn, 0)) !in at
  {
    hide Px, NodeOk;
    Digits(vpn, 1);
    AboveIn(tables, at, Node(0, Pre(vpn, 0)));
  }

  lemma TopDigit(vpn: nat, tables: Tables, at: map<Node, nat>)
    requires vpn < MAXVPN && Tree(tables, at)
    ensures Node(2, Pre(vpn, 2)) == ROOT && ROOT in at
  {
    Digits(vpn, 2);
  }

  // If the last table is there, so are those above it.
  lemma WayIn(tables: Tables, at: map<Node, nat>, vpn: nat, level: nat)
    requires Tree(tables, at) && 0 < level <= 2 && vpn < MAXVPN
    ensures Node(0, Pre(vpn, 0)) in at ==> Node(level - 1, Pre(vpn, level - 1)) in at
  {
    if Node(1, Pre(vpn, 1)) !in at {
      MissingBelow(tables, at, vpn);
    }
  }

  // ----- Leaf entries -----

  function LeafFor(perm: Pte, ppn: nat): Pte {
    perm.(ppn := ppn, v := true)
  }

  /** Pages lo .. hi - 1 are mapped to consecutive pages from ppn on; the others as before. */
  ghost predicate Overlaid(tables: Tables, at: map<Node, nat>, tables': Tables, at': map<Node, nat>, lo: nat, hi: nat,
                           ppn: nat, perm: Pte) {
    && Tree(tables, at) && Tree(tables', at')
    && forall v: nat ::
      Flat(tables', at', v) == if lo <= v < hi then LeafFor(perm, ppn + (v - lo)) else Flat(tables, at, v)
  }

  function Put(tables: Tables, page: nat, i: nat, pte: Pte): Tables
    requires page in tables && i < ENTRIES
  {
    tables[page := tables[page][i := pte]]
  }

  // Storing an entry keeps the tree and the pages.
  lemma PutGrew(free: set<nat>, tables: Tables, at: map<Node, nat>, vpn: nat, pte: Pte)
    requires Tree(tables, at) && Node(0, vpn / ENTRIES) in at && free !! tables.Keys
    ensures var p := at[Node(0, vpn / ENTRIES)];
            && p in tables && Put(tables, p, vpn % ENTRIES, pte).Keys == tables.Keys
            && Grew(free, tables, at, free, Put(tables, p, vpn % ENTRIES, pte), at)
            && forall v: nat ::
              Flat(Put(tables, p, vpn % ENTRIES, pte), at, v) == if v == vpn then pte else Flat(tables, at, v)
  {
    hide Flat;
    SetLeaf(tables, at, vpn, pte);
    TreeValues(tables, at);
    hide Tree;
    assert at[Node(0, vpn / ENTRIES)] in at.Values;
  }

  lemma MapStep(t0: Tables, at0: map<Node, nat>, t1: Tables, at1: map<Node, nat>, t2: Tables, at2: map<Node, nat>,
                lo: nat, a: nat, b: nat, ppn: nat, perm: Pte)
    requires Overlaid(t0, at0, t1, at1, lo, a, ppn, perm) && Tree(t2, at2) && lo <= a <= b <= a + 1
    requires forall v: nat :: Flat(t2, at2, v) == if a <= v < b then LeafFor(perm, ppn + (v - lo)) else Flat(t1, at1, v)
    ensures Overlaid(t0, at0, t2, at2, lo, b, ppn, perm)
  {
    hide Flat, Tree, LeafFor;
  }

  datatype MapResult = Mapped | NoMemory | Remap

  // Mapped up to a, the tree has taken exactly the tables it lacked.
  lemma CoversCount(f0: seq<nat>, t0: Tables, at0: map<Node, nat>, f: seq<nat>, t: Tables, at: map<Node, nat>, lo: nat,
                    n: nat)
    requires Distinct(f0) && Distinct(f) && Grew(Elems(f0), t0, at0, Elems(f), t, at) && Elems(f0) !! t0.Keys
    requires Covers(at0, at, lo, n)
    ensures |f0| == |f| + Lacking(at0.Keys, lo, n)
  {
    ElemsCount(f0);
    ElemsCount(f);
    GrewCount(Elems(f0), t0, at0, Elems(f), t, at);
    hide Grew;
    UnionCount(at0.Keys, Ways(lo, n));
    assert |at0.Keys| == |at0| && |at.Keys| == |at|;
  }

  /** Page v is the first of those from lo on that is mapped, and there are tables for the ones before it. */
  ghost predicate FirstTaken(tables: Tables, at: map<Node, nat>, nfree: nat, lo: nat, v: nat)
    requires Tree(tables, at)
  {
    && lo <= v && Flat(tables, at, v).v && (forall u: nat :: lo <= u < v ==> !Flat(tables, at, u).v)
    && nfree >= Lacking(at.Keys, lo, v - lo)
  }

  /** What mappages' free pages decide, seen from the turn it ends with. */
  lemma MapOutcome(nfree: nat, tables: Tables, at: map<Node, nat>, at1: map<Node, nat>, nfree1: nat, lo: nat, a: nat,
                   hi: nat, r: MapResult)
    requires Tree(tables, at) && lo <= a < hi && Covers(at, at1, lo, a - lo)
    requires nfree == nfree1 + Lacking(at.Keys, lo, a - lo) && (forall v: nat :: lo <= v < a ==> !Flat(tables, at, v).v)
    requires (r.NoMemory? <==> nfree1 < Missing(at1.Keys, a)) && (r.Remap? <==> Flat(tables, at, a).v)
    requires r.Mapped? ==> a + 1 == hi
    ensures r.Mapped? <==>
              nfree >= Lacking(at.Keys, lo, hi - lo) && forall v: nat :: lo <= v < hi ==> !Flat(tables, at, v).v
    ensures r.Remap? <==> exists v: nat :: v < hi && FirstTaken(tables, at, nfree, lo, v)
  {
    hide Flat, Tree, Missing, Lacking, Ways;
    LackingNext(at.Keys, lo, a - lo);
    LackingGrows(at.Keys, lo, a - lo + 1, hi - lo);
    if r.Remap? {
      assert FirstTaken(tables, at, nfree, lo, a);
    } else if exists v: nat :: v < hi && FirstTaken(tables, at, nfree, lo, v) {
      var v: nat :| v < hi && FirstTaken(tables, at, nfree, lo, v);
      assert v > a;
      LackingGrows(at.Keys, lo, a - lo + 1, v - lo);
    }
  }

  /** Pages lo .. hi - 1 are unmapped; the others as before. */
  ghost predicate Cleared(tables: Tables, tables': Tables, at: map<Node, nat>, lo: nat, hi: nat) {
    && Tree(tables, at) && Tree(tables', at)
    && forall v: nat :: Flat(tables', at, v) == if lo <= v < hi then NONE else Flat(tables, at, v)
  }

  /** The pages that virtual pages lo .. hi - 1 are mapped to. */
  ghost function Phys(tables: Tables, at: map<Node, nat>, lo: nat, hi: nat): set<nat>
    requires Tree(tables, at)
  {
    set v: nat | lo <= v < hi :: Flat(tables, at, v).ppn
  }

  ghost predicate Present(tables: Tables, at: map<Node, nat>, v: nat)
    requires Tree(tables, at)
  {
    Flat(tables, at, v).v && Flagged(Flat(tables, at, v))
  }

  /** The tables of other trees. */
  ghost predicate OthersSame(tables: Tables, tables': Tables, at: map<Node, nat>) {
    forall q :: q in tables && q !in at.Values ==> q in tables' && tables'[q] == tables[q]
  }

  /** The pages mapped by lo .. hi - 1 are data pages, each mapped once. */
  ghost predicate OwnPages(tables: Tables, at: map<Node, nat>, data: set<nat>, lo: nat, hi: nat)
    requires Tree(tables, at)
  {
    && (forall v: nat :: lo <= v < hi && Present(tables, at, v) ==> Flat(tables, at, v).ppn in data)
    && (forall v: nat, w: nat :: lo <= v < w < hi && Present(tables, at, v) && Present(tables, at, w) ==>
        Flat(tables, at, v).ppn != Flat(tables, at, w).ppn)
  }

  class Memory {
    var free: seq<nat>
    var tables: Tables
    var data: map<nat, Page>

    ghost predicate Valid()
      reads this
    {
      Distinct(free) && Elems(free) !! tables.Keys && Elems(free) !! data.Keys && tables.Keys !! data.Keys
    }

    method Kalloc() returns (ok: bool, p: nat)
      requires Valid()
      modifies this`free
      ensures Valid() && (ok <==> old(free) != [])
      ensures ok ==> p in old(free) && p !in free && Elems(free) == Elems(old(free)) - {p} && |free| == |old(free)| - 1
      ensures !ok ==> free == old(free)
    {
      if free == [] {
        return false, 0;
      }
      ok, p := true, free[0];
      free := free[1..];
      assert Elems(old(free)) == {p} + Elems(free);
    }

    method Kfree(p: nat)
      requires Valid() && p !in free
      modifies this
      ensures Valid() && Elems(free) == Elems(old(free)) + {p} && tables == old(tables) - {p} && data == old(data) - {p}
    {
      free := [p] + free;
      tables, data := tables - {p}, data - {p};
      assert Elems(free) == Elems(old(free)) + {p};
    }

    ghost predicate Space(root: nat, at: map<Node, nat>)
      reads this
    {
      Tree(tables, at) && at[ROOT] == root
    }

    /** One turn of walk's loop. */
    method Descend(page: nat, vpn: nat, level: nat, alloc: bool, ghost at: map<Node, nat>)
      returns (ok: bool, next: nat, ghost at': map<Node, nat>)
      requires Valid() && Tree(tables, at) && vpn < MAXVPN && 0 < level <= 2
      requires Node(level, Pre(vpn, level)) in at && page == at[Node(level, Pre(vpn, level))]
      modifies this`free, this`tables
      ensures Valid() && Grew(Elems(old(free)), old(tables), at, Elems(free), tables, at')
      ensures SameFlat(old(tables), at, tables, at')
      ensures ok ==> Node(level - 1, Pre(vpn, level - 1)) in at' && next == at'[Node(level - 1, Pre(vpn, level - 1))]
      ensures at'.Keys == if ok then at.Keys + {Node(level - 1, Pre(vpn, level - 1))} else at.Keys
      ensures !ok ==>
                unchanged(this) && at' == at && Node(level - 1, Pre(vpn, level - 1)) !in at && (alloc ==> free == [])
      ensures !alloc || Node(level - 1, Pre(vpn, level - 1)) in at ==> unchanged(this) && at' == at
    {
      hide Pre, Px;
      OnTheWay(tables, at, vpn, level);
      GrewNone(Elems(free), tables, at);
      var pte := tables[page][Px(vpn, level)];
      at' := at;
      if pte.v {
        return true, pte.ppn, at;
      }
      if !alloc {
        return false, 0, at;
      }
      ghost var f0, t0 := free, tables;
      ok, next := Kalloc();
      if !ok {
        return false, 0, at;
      }
      NotATable(tables, at, next);
      HangGrew(Elems(f0), tables, at, Node(level, Pre(vpn, level)), Px(vpn, level), next);
      tables := tables[next := Blank()];
      tables := tables[page := tables[page][Px(vpn, level) := NONE.(ppn := next, v := true)]];
      at' := at[Node(level - 1, Pre(vpn, level - 1)) := next];
      assert tables == Hung(t0, at, Node(level, Pre(vpn, level)), Px(vpn, level), next);
    }

    /** walk: the page holding the entry for vpn. */
    method Walk(root: nat, vpn: nat, alloc: bool, ghost at: map<Node, nat>)
      returns (ok: bool, page: nat, ghost at': map<Node, nat>)
      requires Valid() && Space(root, at) && vpn < MAXVPN
      modifies this`free, this`tables
      ensures Valid() && Space(root, at') && Grew(Elems(old(free)), old(tables), at, Elems(free), tables, at')
      ensures SameFlat(old(tables), at, tables, at')
      ensures ok <==> Node(0, vpn / ENTRIES) in at'
      ensures ok ==> page == at'[Node(0, vpn / ENTRIES)]
      ensures !alloc || Node(0, vpn / ENTRIES) in at ==> unchanged(this) && at' == at
      // allocating, it fails exactly when there are fewer free pages than tables missing
      ensures alloc ==> (ok <==> |old(free)| >= Missing(at.Keys, vpn)) && (!ok ==> free == [])
      ensures alloc && ok ==> Reaches(at, at', vpn)
    {
      hide Flat, Tree, Px, Missing;
      GrewNone(Elems(free), tables, at);
      TopDigit(vpn, tables, at);
      page, at' := root, at;
      ghost var f0, t0 := free, tables;
      var level := 2;
      while level > 0
        invariant 0 <= level <= 2 && Valid() && Tree(tables, at') && Grew(Elems(f0), t0, at, Elems(free), tables, at')
        invariant SameFlat(t0, at, tables, at')
        invariant Node(level, Pre(vpn, level)) in at' && page == at'[Node(level, Pre(vpn, level))]
        invariant !alloc || Node(0, Pre(vpn, 0)) in at ==> unchanged(this) && at' == at
        invariant at'.Keys <= at.Keys + Way(vpn) && (level <= 1 ==> Node(1, Pre(vpn, 1)) in at')
      {
        ghost var f1, t1, at1 := free, tables, at';
        WayIn(tables, at', vpn, level);
        ok, page, at' := Descend(page, vpn, level, alloc, at');
        GrewTrans(Elems(f0), t0, at, Elems(f1), t1, at1, Elems(free), tables, at');
        if !ok {
          WayIn(tables, at', vpn, level);
          WalkCount(f0, t0, at, free, tables, at', vpn);
          return;
        }
        level := level - 1;
      }
      WalkCount(f0, t0, at, free, tables, at', vpn);
      ok := true;
    }

    /** One turn of mappages' loop. */
    method MapOne(root: nat, a: nat, pte: Pte, ghost at: map<Node, nat>)
      returns (r: MapResult, ghost at': map<Node, nat>)
      requires Valid() && Space(root, at) && a < MAXVPN
      modifies this`free, this`tables
      ensures Valid() && Space(root, at') && Grew(Elems(old(free)), old(tables), at, Elems(free), tables, at')
      ensures r.NoMemory? <==> |old(free)| < Missing(at.Keys, a)
      ensures r.Remap? <==> Flat(old(tables), at, a).v
      ensures !r.NoMemory? ==> Reaches(at, at', a)
      ensures r.NoMemory? ==> free == []
      ensures forall v: nat :: Flat(tables, at', v) == if v == a && r.Mapped? then pte else Flat(old(tables), at, v)
    {
      hide Flat, Tree, Reaches, Missing;
      ghost var f0, t0 := free, tables;
      var ok, page;
      ok, page, at' := Walk(root, a, true, at);
      FlatIs(tables, at', a);
      FlatIs(t0, at, a);
      if !ok {
        return NoMemory, at';
      }
      if tables[page][a % ENTRIES].v {
        return Remap, at';
      }
      ghost var t2 := tables;
      PutGrew(Elems(free), tables, at', a, pte);
      tables := Put(tables, page, a % ENTRIES, pte);
      GrewTrans(Elems(f0), t0, at, Elems(free), t2, at', Elems(free), tables, at');
      r := Mapped;
    }

    /** mappages on the pages from va's to the last byte's. */
    method Mappages(root: nat, va: nat, size: nat, ppn: nat, perm: Pte, ghost at: map<Node, nat>)
      returns (r: MapResult, ghost at': map<Node, nat>)
      requires Valid() && Space(root, at) && size > 0 && va + size <= MAXVPN * PGSIZE
      modifies this`free, this`tables
      ensures Valid() && Space(root, at') && Grew(Elems(old(free)), old(tables), at, Elems(free), tables, at')
      ensures var lo, hi := va / PGSIZE, (va + size - 1) / PGSIZE + 1;
              match r
              case Mapped => Overlaid(old(tables), at, tables, at', lo, hi, ppn, perm)
              case NoMemory =>
                free == [] && exists m :: lo <= m < hi && Overlaid(old(tables), at, tables, at', lo, m, ppn, perm)
              case Remap => exists m :: lo <= m < hi && Overlaid(old(tables), at, tables, at', lo, m, ppn, perm)
      // which of the three, the tables missing and the free pages decide
      ensures var lo, hi := va / PGSIZE, (va + size - 1) / PGSIZE + 1;
              && (r.Mapped? <==>
                    && |old(free)| >= Lacking(at.Keys, lo, hi - lo)
                    && forall v: nat :: lo <= v < hi ==> !Flat(old(tables), at, v).v)
              && (r.Remap? <==> exists v: nat :: v < hi && FirstTaken(old(tables), at, |old(free)|, lo, v))
    {
      hide Flat, Tree, LeafFor, Reaches, Missing, Covers, Lacking, FirstTaken;
      ghost var f0, t0 := free, tables;
      GrewNone(Elems(free), tables, at);
      at' := at;
      CoversNone(at, va / PGSIZE);
      var lo, last := va / PGSIZE, (va + size - 1) / PGSIZE;
      RangeInside(va, size);
      var a := lo;
      while true
        invariant lo <= a <= last && Valid() && Space(root, at') && Grew(Elems(f0), t0, at, Elems(free), tables, at')
        invariant Overlaid(t0, at, tables, at', lo, a, ppn, perm) && forall v: nat :: lo <= v < a ==> !Flat(t0, at, v).v
        invariant Covers(at, at', lo, a - lo)
        decreases last - a
      {
        ghost var f1, t1, at1 := free, tables, at';
        assert Flat(tables, at', a) == Flat(t0, at, a);
        CoversCount(f0, t0, at, f1, t1, at1, lo, a - lo);
        r, at' := MapOne(root, a, LeafFor(perm, ppn + (a - lo)), at');
        GrewTrans(Elems(f0), t0, at, Elems(f1), t1, at1, Elems(free), tables, at');
        MapStep(t0, at, t1, at1, tables, at', lo, a, if r.Mapped? then a + 1 else a, ppn, perm);
        if !r.Mapped? || a == last {
          MapOutcome(|f0|, t0, at, at1, |f1|, lo, a, last + 1, r);
          return;
        }
        CoversNext(at, at1, at', lo, a - lo, a);
        a := a + 1;
      }
    }

    /** One turn of uvmunmap's loop; the three panics are one outcome. */
    method UnmapOne(root: nat, a: nat, dofree: bool, ghost at: map<Node, nat>) returns (panics: bool)
      requires Valid() && Space(root, at) && a < MAXVPN
      requires dofree && Present(tables, at, a) ==> Flat(tables, at, a).ppn in data
      modifies this
      ensures panics <==> !Present(old(tables), at, a)
      ensures !panics ==>
                Valid() && Space(root, at) && tables.Keys == old(tables).Keys && OthersSame(old(tables), tables, at)
      ensures !panics ==> forall v: nat :: Flat(tables, at, v) == if v == a then NONE else Flat(old(tables), at, v)
      ensures !panics ==> Elems(free) == Elems(old(free)) + (if dofree then {Flat(old(tables), at, a).ppn} else {})
      ensures !panics ==> data == (if dofree then old(data) - {Flat(old(tables), at, a).ppn} else old(data))
    {
      hide Flat, Tree;
      var ok, page;
      ghost var at';
      ok, page, at' := Walk(root, a, false, at);
      FlatIs(tables, at, a);
      if !ok || !tables[page][a % ENTRIES].v || !Flagged(tables[page][a % ENTRIES]) {
        return true;
      }
      PutGrew(Elems(free), tables, at, a, NONE);
      ghost var t1 := tables;
      if dofree {
        Kfree(tables[page][a % ENTRIES].ppn);
        assert tables == t1;
      }
      tables := Put(tables, page, a % ENTRIES, NONE);
      panics := false;
    }

    /** uvmunmap. With `dofree` the pages go back to kalloc. */
    method Uvmunmap(root: nat, lo: nat, npages: nat, dofree: bool, ghost at: map<Node, nat>) returns (panics: bool)
      requires Valid() && Space(root, at) && lo + npages <= MAXVPN
      requires dofree ==> OwnPages(tables, at, data.Keys, lo, lo + npages)
      modifies this
      ensures panics <==> exists v: nat :: lo <= v < lo + npages && !Present(old(tables), at, v)
      ensures !panics ==>
                Valid() && Cleared(old(tables), tables, at, lo, lo + npages) && Space(root, at) &&
                  tables.Keys == old(tables).Keys
      ensures !panics ==> OthersSame(old(tables), tables, at)
      ensures !panics ==>
                Elems(free) == Elems(old(free)) + (if dofree then Phys(old(tables), at, lo, lo + npages) else {})
      ensures !panics ==> data == (if dofree then old(data) - Phys(old(tables), at, lo, lo + npages) else old(data))
    {
      hide Flat, Tree, Phys, OwnPages;
      ghost var f0, t0, d0 := free, tables, data;
      PhysNone(t0, at, lo);
      var a := lo;
      while a < lo + npages
        invariant lo <= a <= lo + npages && Valid() && Space(root, at) && Cleared(t0, tables, at, lo, a)
        invariant tables.Keys == t0.Keys
        invariant forall v: nat :: lo <= v < a ==> Present(t0, at, v)
        invariant Elems(free) == Elems(f0) + (if dofree then Phys(t0, at, lo, a) else {})
        invariant data == if dofree then d0 - Phys(t0, at, lo, a) else d0
        invariant OthersSame(t0, tables, at)
      {
        PhysNext(t0, at, lo, a);
        if dofree { PhysFresh(t0, at, d0.Keys, lo, lo + npages, a); }
        ghost var t1 := tables;
        assert Flat(tables, at, a) == Flat(t0, at, a);
        panics := UnmapOne(root, a, dofree, at);
        if panics {
          assert !Present(t0, at, a);
          return;
        }
        ClearStep(t0, t1, tables, at, lo, a);
        a := a + 1;
      }
      panics := false;
    }

    /** freewalk on the subtree at node n: every table page of it is freed, once, and nothing else. */
    method Freewalk(page: nat, ghost n: Node, ghost at: map<Node, nat>)
      returns (panics: bool, ghost at': map<Node, nat>)
      requires Valid() && Tree(tables, at) && n in at && page == at[n] && ClearLeaves(tables, at)
      modifies this
      ensures !panics && Valid() && Without(at, n, at') && data == old(data)
      ensures tables.Keys == old(tables).Keys - (at.Values - at'.Values)
      ensures Elems(free) == Elems(old(free)) + (at.Values - at'.Values)
      ensures forall q :: q in tables ==> tables[q] == old(tables)[q]
      decreases n.l, 1
    {
      hide Tree, ClearLeaves, Without, Trimmed, Elems;
      ghost var f0, t0, cur := free, tables, at;
      TrimmedNone(at, n);
      panics := false;
      for i := 0 to ENTRIES
        invariant Valid() && Tree(tables, cur) && ClearLeaves(tables, cur) && n in cur && page == cur[n]
        invariant data == old(data) && !panics
        invariant Trimmed(at, n, cur) && (n.l > 0 ==> forall j :: 0 <= j < i ==> Child(n, j) !in cur)
        invariant tables.Keys == t0.Keys - (at.Values - cur.Values)
        invariant Elems(free) == Elems(f0) + (at.Values - cur.Values)
        invariant forall q :: q in tables && q != page ==> tables[q] == t0[q]
      {
        TrimmedValues(at, n, cur);
        panics, cur := FreeEntry(page, i, n, at, cur);
      }
      TrimmedValues(at, n, cur);
      TreeValues(tables, cur);
      at' := cur - {n};
      TrimLast(tables, at, n, cur);
      assert page in cur.Values;
      InElems(free, page);
      Kfree(page);
    }

    /** One turn of freewalk's loop. */
    method FreeEntry(page: nat, i: nat, ghost n: Node, ghost at: map<Node, nat>, ghost cur: map<Node, nat>)
      returns (panics: bool, ghost cur': map<Node, nat>)
      requires Valid() && Tree(tables, cur) && n in cur && page == cur[n] && ClearLeaves(tables, cur) && i < ENTRIES
      requires Trimmed(at, n, cur)
      modifies this
      ensures !panics && Valid() && Tree(tables, cur') && ClearLeaves(tables, cur') && n in cur' && page == cur'[n]
      ensures data == old(data)
      ensures Trimmed(at, n, cur') && (n.l > 0 ==> Child(n, i) !in cur') && (forall m :: m in cur' ==> m in cur)
      ensures cur'.Values <= cur.Values
      ensures tables.Keys == old(tables).Keys - (cur.Values - cur'.Values)
      ensures Elems(free) == Elems(old(free)) + (cur.Values - cur'.Values)
      ensures forall q :: q in tables && q != page ==> tables[q] == old(tables)[q]
      decreases n.l, 0
    {
      hide Tree, ClearLeaves, Without, Trimmed, Elems;
      EntryAt(tables, cur, n, i);
      panics, cur' := false, cur;
      var pte := tables[page][i];
      if pte.v && !Leaf(pte) {
        ghost var t1 := tables;
        panics, cur' := Freewalk(pte.ppn, Child(n, i), cur);
        TrimMore(at, n, cur, i, cur');
        PruneStep(t1, cur, n, i, tables, cur');
        tables := Put(tables, page, i, NONE);
      } else if pte.v {
        panics := true;
      }
    }
  }

  lemma GrewNone(free: set<nat>, tables: Tables, at: map<Node, nat>)
    requires Tree(tables, at) && free !! tables.Keys
    ensures Grew(free, tables, at, free, tables, at)
  {
    hide Flat;
    TreeValues(tables, at);
  }

  lemma TreeValues(tables: Tables, at: map<Node, nat>)
    requires Tree(tables, at)
    ensures at.Values <= tables.Keys
  {
    forall q | q in at.Values ensures q in tables {
      var n :| n in at && at[n] == q;
      assert NodeOk(tables, at, n);
    }
  }

  lemma NotATable(tables: Tables, at: map<Node, nat>, p: nat)
    requires Tree(tables, at) && p !in tables
    ensures p !in at.Values
  {
    TreeValues(tables, at);
  }

  lemma AddedValue(at: map<Node, nat>, c: Node, p: nat)
    requires c !in at
    ensures at[c := p].Values == at.Values + {p}
  {
    assert at[c := p][c] == p;
    ExtendsValues(at, at[c := p]);
  }

  lemma HangGrew(free: set<nat>, tables: Tables, at: map<Node, nat>, n: Node, i: nat, p: nat)
    requires Tree(tables, at) && n in at && n.l > 0 && i < ENTRIES && Child(n, i) !in at && p in free
    requires free !! tables.Keys
    ensures at[n] in tables && Grew(free, tables, at, free - {p}, Hung(tables, at, n, i, p), at[Child(n, i) := p])
    ensures SameFlat(tables, at, Hung(tables, at, n, i, p), at[Child(n, i) := p])
  {
    hide Flat;
    TreeValues(tables, at);
    AddNode(tables, at, n, i, p);
    AddedValue(at, Child(n, i), p);
    hide Tree, Blank;
    assert at[n] in at.Values;
    assert Hung(tables, at, n, i, p).Keys == tables.Keys + {p};
  }

  lemma RangeInside(va: nat, size: nat)
    requires size > 0 && va + size <= MAXVPN * PGSIZE
    ensures va / PGSIZE <= (va + size - 1) / PGSIZE < MAXVPN
  {
  }

  lemma FlatIs(tables: Tables, at: map<Node, nat>, v: nat)
    requires Tree(tables, at)
    ensures var n := Node(0, v / ENTRIES);
            if n in at then at[n] in tables && Flat(tables, at, v) == tables[at[n]][v % ENTRIES]
            else Flat(tables, at, v) == NONE
  {
    assert Node(0, v / ENTRIES) in at ==> NodeOk(tables, at, Node(0, v / ENTRIES));
  }

  lemma ClearStep(t0: Tables, t1: Tables, t2: Tables, at: map<Node, nat>, lo: nat, a: nat)
    requires Cleared(t0, t1, at, lo, a) && Tree(t2, at) && lo <= a
    requires forall v: nat :: Flat(t2, at, v) == if v == a then NONE else Flat(t1, at, v)
    ensures Cleared(t0, t2, at, lo, a + 1)
  {
    hide Flat, Tree;
  }

  lemma PhysNone(tables: Tables, at: map<Node, nat>, lo: nat)
    requires Tree(tables, at)
    ensures Phys(tables, at, lo, lo) == {}
  {
  }

  lemma PhysFresh(tables: Tables, at: map<Node, nat>, data: set<nat>, lo: nat, hi: nat, a: nat)
    requires Tree(tables, at) && OwnPages(tables, at, data, lo, hi) && lo <= a < hi && forall v: nat :: lo <= v < a ==>
               Present(tables, at, v)
    ensures Present(tables, at, a) ==>
              Flat(tables, at, a).ppn in data && Flat(tables, at, a).ppn !in Phys(tables, at, lo, a)
  {
    hide Flat, Tree;
  }

  lemma PhysNext(tables: Tables, at: map<Node, nat>, lo: nat, a: nat)
    requires Tree(tables, at) && lo <= a
    ensures Phys(tables, at, lo, a + 1) == Phys(tables, at, lo, a) + {Flat(tables, at, a).ppn}
  {
    hide Flat, Tree;
  }

  // ----- freewalk -----

  /** Part of what is strictly below n has been cut off. */
  ghost predicate Trimmed(at: map<Node, nat>, n: Node, cur: map<Node, nat>) {
    && (forall m :: m in cur ==> m in at && cur[m] == at[m])
    && (forall m :: m in at && m !in cur ==> Under(m, n) && m != n)
  }

  lemma TrimmedValues(at: map<Node, nat>, n: Node, cur: map<Node, nat>)
    requires Trimmed(at, n, cur)
    ensures cur.Values <= at.Values
  {
    ExtendsValues(cur, at);
  }

  lemma EntryAt(tables: Tables, at: map<Node, nat>, n: Node, i: nat)
    requires Tree(tables, at) && n in at && i < ENTRIES && ClearLeaves(tables, at)
    ensures at[n] in tables && (n.l == 0 ==> !tables[at[n]][i].v)
    ensures (n.l > 0 ==> EntryOk(tables[at[n]][i], at, Child(n, i)))
  {
    assert NodeOk(tables, at, n);
  }

  lemma ChildUnder(n: Node, i: nat, m: Node)
    requires n.l > 0 && i < ENTRIES && Under(m, Child(n, i))
    ensures Under(m, n) && m != n
  {
    ChildParent(n, i);
    UnderTrans(m, Child(n, i), n);
    UnderLower(m, Child(n, i));
  }

  lemma TrimMore(at: map<Node, nat>, n: Node, cur1: map<Node, nat>, i: nat, cur: map<Node, nat>)
    requires Trimmed(at, n, cur1) && n in cur1 && n.l > 0 && i < ENTRIES && Without(cur1, Child(n, i), cur)
    ensures Trimmed(at, n, cur) && n in cur && cur[n] == cur1[n] && Child(n, i) !in cur
    ensures cur.Values <= cur1.Values && forall m :: m in cur ==> m in cur1
  {
    forall m ensures Under(m, Child(n, i)) ==> Under(m, n) && m != n {
      if Under(m, Child(n, i)) { ChildUnder(n, i, m); }
    }
    ExtendsValues(cur, cur1);
  }

  lemma KeptPage(t: Tables, at: map<Node, nat>, c: Node, at': map<Node, nat>, m: Node)
    requires Tree(t, at) && Without(at, c, at') && m in at'
    ensures at[m] in t && at[m] !in at.Values - at'.Values
  {
    assert NodeOk(t, at, m) && at'[m] == at[m];
  }

  lemma PruneStep(t: Tables, at: map<Node, nat>, n: Node, i: nat, t': Tables, at': map<Node, nat>)
    requires Tree(t, at) && ClearLeaves(t, at) && n in at && n.l > 0 && i < ENTRIES && Without(at, Child(n, i), at')
    requires n in at'
    requires t'.Keys == t.Keys - (at.Values - at'.Values) && forall q :: q in t' ==> t'[q] == t[q]
    ensures at[n] in t' && Tree(Put(t', at[n], i, NONE), at') && ClearLeaves(Put(t', at[n], i, NONE), at')
  {
    hide Tree;
    forall m | m in at' ensures at[m] in t && at[m] in t' {
      KeptPage(t, at, Child(n, i), at', m);
    }
    var t2 := Put(t', at[n], i, NONE);
    forall m | m in at' ensures t2[at[m]] == if m == n then t[at[n]][i := NONE] else t[at[m]] {
      if m != n { OnePlace(t, at, m, n); }
    }
    PruneTree(t, at, n, i, t2, at');
  }

  lemma OnePlace(t: Tables, at: map<Node, nat>, m: Node, n: Node)
    requires Tree(t, at) && m in at && n in at && m != n
    ensures at[m] != at[n]
  {
  }

  lemma TrimLast(t: Tables, at: map<Node, nat>, n: Node, cur: map<Node, nat>)
    requires Tree(t, cur) && Trimmed(at, n, cur) && n in cur
    requires (n.l > 0 ==> forall j :: 0 <= j < ENTRIES ==> Child(n, j) !in cur)
    ensures Without(at, n, cur - {n}) && (cur - {n}).Values == cur.Values - {cur[n]}
  {
    hide Tree;
    forall m | m in cur && Under(m, n) ensures m == n {
      Childless(t, cur, n, m);
    }
    var at' := cur - {n};
    forall q | q in cur.Values && q != cur[n] ensures q in at'.Values {
      var m :| m in cur && cur[m] == q;
      assert at'[m] == q;
    }
    forall m | m in at' ensures cur[m] != cur[n] {
      OnePlace(t, cur, m, n);
    }
  }

  lemma TrimmedNone(at: map<Node, nat>, n: Node)
    ensures Trimmed(at, n, at)
  {
  }

  lemma InElems(s: seq<nat>, p: nat)
    ensures p in Elems(s) <==> p in s
  {
  }
}
