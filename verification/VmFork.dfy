/** The pages of fork: allocproc, proc_pagetable, uvmcopy and freeproc of kernel/proc.c and kernel/vm.c. */
module VmFork {
  import opened VmTree
  import opened Vm
  import opened VmFill
  import opened VmUser

  const TRAMPOLINE: nat := MAXVPN - 1
  const TRAPFRAME: nat := MAXVPN - 2

  const READ_EXEC: Pte := Pte(0, true, true, false, true, false)
  const READ_WRITE: Pte := Pte(0, true, true, true, false, false)

  // ----- Giving a page table back -----

  lemma NoLeaves(tables: Tables, at: map<Node, nat>)
    requires Tree(tables, at) && forall v: nat :: !Flat(tables, at, v).v
    ensures ClearLeaves(tables, at)
  {
    hide NodeOk;
    forall n, j | n in at && n.l == 0 && at[n] in tables && 0 <= j < ENTRIES ensures !tables[at[n]][j].v {
      var v := n.pre * ENTRIES + j;
      assert v / ENTRIES == n.pre && v % ENTRIES == j;
      assert n == Node(0, v / ENTRIES);
      assert !Flat(tables, at, v).v;
    }
  }

  lemma NothingLeft(tables: Tables, at: map<Node, nat>, at': map<Node, nat>)
    requires Tree(tables, at) && Without(at, ROOT, at')
    ensures at' == map[]
  {
    forall n ensures n !in at' {
      if n in at { AllUnderRoot(tables, at, n); }
    }
  }

  /** uvmfree: user pages 0 .. PGROUNDUP(sz) and every table page are free again. */
  method Uvmfree(m: Memory, root: nat, sz: nat, ghost at: map<Node, nat>) returns (panics: bool)
    requires m.Valid() && m.Space(root, at) && Up(sz) <= MAXVPN && OwnPages(m.tables, at, m.data.Keys, 0, Up(sz))
    requires forall v: nat :: if v < Up(sz) then Present(m.tables, at, v) else !Flat(m.tables, at, v).v
    modifies m
    ensures !panics && m.Valid() && m.tables.Keys == old(m.tables).Keys - at.Values
    ensures forall q :: q in m.tables ==> m.tables[q] == old(m.tables)[q]
    ensures Elems(m.free) == Elems(old(m.free)) + Phys(old(m.tables), at, 0, Up(sz)) + at.Values
    ensures m.data == old(m.data) - Phys(old(m.tables), at, 0, Up(sz))
  {
    hide Flat, Tree, Phys, Elems, OwnPages, ClearLeaves, Without;
    ghost var t0 := m.tables;
    PhysNone(m.tables, at, 0);
    TreeValues(m.tables, at);
    panics := false;
    if sz > 0 {
      panics := m.Uvmunmap(root, 0, Up(sz), true, at);
    }
    NoLeaves(m.tables, at);
    TopDigit(0, m.tables, at);
    ghost var t1, at' := m.tables, at;
    panics, at' := m.Freewalk(root, ROOT, at);
    NothingLeft(t1, at, at');
    assert at'.Values == {};
  }

  // ----- A page table made of free pages -----

  /** Since free pages f, tables t and data d, one tree has been built out of free pages. */
  ghost predicate Born(f: set<nat>, t: Tables, d: map<nat, Page>, s: Snap) {
    && Sound(s) && s.tables.Keys == t.Keys + s.at.Values && t.Keys !! s.at.Values &&
      (forall q :: q in t ==> s.tables[q] == t[q])
    && s.free + s.at.Values == f && s.free !! s.at.Values && s.data == d
  }

  lemma BornGrew(f: set<nat>, t: Tables, d: map<nat, Page>, s: Snap, s': Snap)
    requires Born(f, t, d, s) && f !! t.Keys && Grew(s.free, s.tables, s.at, s'.free, s'.tables, s'.at) && s'.data == d
    requires Sound(s')
    ensures Born(f, t, d, s')
  {
    hide Tree;
    ExtendsValues(s.at, s'.at);
    assert s'.at.Values <= f;
  }

  lemma BornRestored(f: set<nat>, t: Tables, d: map<nat, Page>, s: Snap, s': Snap)
    requires Born(f, t, d, s) && f !! t.Keys && Restored(s, s')
    ensures Born(f, t, d, s')
  {
    hide Tree, Entry;
    ExtendsValues(s.at, s'.at);
    TreeValues(s'.tables, s'.at);
    assert s'.at.Values <= f;
  }

  lemma NewTree(t: Tables, at: map<Node, nat>, root: nat)
    requires root in t && t[root] == Blank() && at == map[ROOT := root]
    ensures Tree(t, at) && forall v: nat :: Flat(t, at, v) == NONE
  {
    assert NodeOk(t, at, ROOT);
    assert Tree(t, at);
  }

  /** uvmcreate */
  method Uvmcreate(m: Memory) returns (ok: bool, root: nat, ghost at: map<Node, nat>)
    requires m.Valid()
    modifies m
    ensures ok ==> m.Valid() && m.Space(root, at) && Born(Elems(old(m.free)), old(m.tables), old(m.data), Now(m, at))
    ensures ok ==> forall v: nat :: Flat(m.tables, at, v) == NONE
    ensures !ok ==> m.free == old(m.free) && m.tables == old(m.tables) && m.data == old(m.data) && m.Valid()
    ensures (ok <==> old(m.free) != []) && (ok ==> at.Keys == {ROOT})
  {
    hide Flat, Blank, Elems, Tree;
    at := map[];
    ghost var f0 := m.free;
    ok, root := m.Kalloc();
    if !ok {
      return;
    }
    InElems(f0, root);
    InElems(m.free, root);
    m.tables := m.tables[root := Blank()];
    at := map[ROOT := root];
    NewTree(m.tables, at, root);
    assert at[ROOT] == root;
    assert at.Values == {root};
  }

  /** A tree with no entry but perhaps those of the trampoline and the trapframe is given back whole. */
  method Discard(m: Memory, root: nat, ghost at: map<Node, nat>, ghost f: set<nat>, ghost t: Tables, ghost d: map<nat,
                 Page>)
    requires m.Valid() && m.Space(root, at) && Born(f, t, d, Now(m, at)) && forall v: nat :: !Flat(m.tables, at, v).v
    modifies m
    ensures m.Valid() && Elems(m.free) == f && m.tables == t && m.data == d
  {
    hide Flat, Elems, Tree;
    PhysNone(m.tables, at, 0);
    hide Phys;
    var panics := Uvmfree(m, root, 0, at);
    assert m.tables == t;
  }

  /** A single mapping outside user memory. */
  method MapFixed(m: Memory, root: nat, v: nat, pte: Pte, ghost at: map<Node, nat>, ghost f: set<nat>, ghost t: Tables,
                  ghost d: map<nat, Page>)
    returns (ok: bool, ghost at': map<Node, nat>)
    requires m.Valid() && m.Space(root, at) && v < MAXVPN && Born(f, t, d, Now(m, at)) && f !! t.Keys
    requires !Flat(m.tables, at, v).v
    modifies m
    ensures m.Valid() && m.Space(root, at') && Born(f, t, d, Now(m, at'))
    ensures forall x: nat :: Flat(m.tables, at', x) == if ok && x == v then pte else Flat(old(m.tables), at, x)
    ensures (ok <==> |old(m.free)| >= Missing(at.Keys, v)) && (ok ==> Reaches(at, at', v))
  {
    hide Flat, Elems, Tree, Born, Grew, Missing, Reaches;
    ghost var s := Now(m, at);
    SoundBorn(f, t, d, s);
    var r;
    r, at' := m.MapOne(root, v, pte, at);
    SoundNow(m, at');
    BornGrew(f, t, d, s, Now(m, at'));
    ok := r.Mapped?;
  }

  lemma SoundBorn(f: set<nat>, t: Tables, d: map<nat, Page>, s: Snap)
    requires Born(f, t, d, s)
    ensures Sound(s) && s.data == d
  {
  }

  /** One page is unmapped and not freed. */
  method UnmapFixed(m: Memory, root: nat, v: nat, ghost at: map<Node, nat>, ghost f: set<nat>, ghost t: Tables,
                    ghost d: map<nat, Page>)
    requires m.Valid() && m.Space(root, at) && v < MAXVPN && Born(f, t, d, Now(m, at)) && Present(m.tables, at, v)
    modifies m
    ensures m.Valid() && m.Space(root, at) && Born(f, t, d, Now(m, at))
    ensures forall x: nat :: Flat(m.tables, at, x) == if x == v then NONE else Flat(old(m.tables), at, x)
  {
    hide Flat, Elems, Tree, Phys;
    var panics := m.Uvmunmap(root, v, 1, false, at);
  }

  /** The tables of a process that has the two fixed mappings and no memory. */
  ghost function FixedTables(): set<Node> {
    {ROOT} + Way(TRAPFRAME)
  }

  lemma BornCount(f: set<nat>, t: Tables, d: map<nat, Page>, m: Memory, at: map<Node, nat>)
    requires Born(f, t, d, Now(m, at)) && m.Valid()
    ensures |m.free| + |at| == |f|
  {
    ElemsCount(m.free);
    ValuesCount(at);
    hide Tree, Elems;
    assert |Elems(m.free) + at.Values| == |Elems(m.free)| + |at.Values|;
  }

  lemma TopWays()
    ensures Way(TRAMPOLINE) == Way(TRAPFRAME) && |Way(TRAPFRAME)| == 2 && ROOT !in Way(TRAPFRAME)
  {
    assert Pre(TRAMPOLINE, 0) == Pre(TRAPFRAME, 0) && Pre(TRAMPOLINE, 1) == Pre(TRAPFRAME, 1);
  }

  lemma FirstFixed(at: map<Node, nat>)
    requires at.Keys == {ROOT}
    ensures Missing(at.Keys, TRAMPOLINE) == 2 && |at| == 1
  {
    TopWays();
    hide Way;
    assert Way(TRAMPOLINE) - at.Keys == Way(TRAMPOLINE);
    assert |at.Keys| == |at|;
  }

  lemma SecondFixed(at0: map<Node, nat>, at1: map<Node, nat>)
    requires Reaches(at0, at1, TRAMPOLINE)
    ensures Missing(at1.Keys, TRAPFRAME) == 0
  {
    TopWays();
    hide Way;
    assert Way(TRAPFRAME) - at1.Keys == {};
  }

  lemma BothFixed(at0: map<Node, nat>, at1: map<Node, nat>, at: map<Node, nat>)
    requires at0.Keys == {ROOT} && Reaches(at0, at1, TRAMPOLINE) && Reaches(at1, at, TRAPFRAME)
    ensures at.Keys == FixedTables() && |at| == 3
  {
    TopWays();
    hide Way;
    assert |{ROOT} + Way(TRAPFRAME)| == 3;
    assert |at.Keys| == |at|;
  }

  /** proc_pagetable: the two fixed mappings and nothing else, or no trace at all. */
  method ProcPagetable(m: Memory, trampoline: nat, trapframe: nat)
    returns (ok: bool, root: nat, ghost at: map<Node, nat>)
    requires m.Valid()
    modifies m
    ensures m.Valid() && m.data == old(m.data)
    ensures ok ==> m.Space(root, at) && Born(Elems(old(m.free)), old(m.tables), old(m.data), Now(m, at))
    ensures ok ==> forall v: nat :: Flat(m.tables, at, v) == Fixed(trampoline, trapframe, v)
    ensures !ok ==> Elems(m.free) == Elems(old(m.free)) && m.tables == old(m.tables) && m.data == old(m.data)
    // the root and the two tables below it that both mappings share
    ensures (ok <==> |old(m.free)| >= 3) && (ok ==> at.Keys == FixedTables())
  {
    hide Flat, Tree, Born, LeafFor, Missing, Reaches, FixedTables;
    ghost var f, t, d := Elems(m.free), m.tables, m.data;
    ghost var f0 := m.free;
    ElemsCount(f0);
    assert f !! t.Keys;
    hide Elems;
    ok, root, at := Uvmcreate(m);
    if !ok {
      return;
    }
    BornCount(f, t, d, m, at);
    FirstFixed(at);
    ghost var at0 := at;
    ok, at := MapFixed(m, root, TRAMPOLINE, LeafFor(READ_EXEC, trampoline), at, f, t, d);
    if !ok {
      Discard(m, root, at, f, t, d);
      return;
    }
    ghost var at1, free1 := at, m.free;
    ok, at := MapFixed(m, root, TRAPFRAME, LeafFor(READ_WRITE, trapframe), at, f, t, d);
    if !ok {
      FixedPresent(trampoline, trapframe);
      UnmapFixed(m, root, TRAMPOLINE, at, f, t, d);
      Discard(m, root, at, f, t, d);
      if |f0| >= 3 {
        SecondFixed(at0, at1);
        assert false;
      }
      return;
    }
    BothFixed(at0, at1, at);
    SoundBorn(f, t, d, Now(m, at));
  }

  ghost function Fixed(trampoline: nat, trapframe: nat, v: nat): Pte {
    if v == TRAMPOLINE then LeafFor(READ_EXEC, trampoline)
    else if v == TRAPFRAME then LeafFor(READ_WRITE, trapframe) else NONE
  }

  /** The two fixed pages are the last two below MAXVA, and the user can touch neither: code the kernel runs, and
      the registers it saves. */
  lemma FixedIs(trampoline: nat, trapframe: nat, v: nat)
    ensures Fixed(trampoline, trapframe, v) ==
            if v == MAXVPN - 1 then Pte(trampoline, true, true, false, true, false)
            else if v == MAXVPN - 2 then Pte(trapframe, true, true, true, false, false)
            else Pte(0, false, false, false, false, false)
  {
  }

  lemma FixedPresent(trampoline: nat, trapframe: nat)
    ensures LeafFor(READ_EXEC, trampoline).v && Flagged(LeafFor(READ_EXEC, trampoline))
    ensures LeafFor(READ_WRITE, trapframe).v && Flagged(LeafFor(READ_WRITE, trapframe))
  {
  }

  lemma FixedCount(at: map<Node, nat>)
    requires at.Keys == FixedTables()
    ensures |at| == 3
  {
    TopWays();
    hide Way;
    assert |{ROOT} + Way(TRAPFRAME)| == 3;
    assert |at.Keys| == |at|;
  }

  // ----- fork -----

  /** Everything freeproc finds when uvmcopy has failed: the child's tree with its two fixed mappings. */
  method Freeproc(m: Memory, root: nat, tf: nat, trampoline: nat, ghost at: map<Node, nat>, ghost f: set<nat>,
                  ghost t: Tables, ghost d: map<nat, Page>)
    requires m.Valid() && m.Space(root, at) && tf in d && tf !in f && Born(f, t, d, Now(m, at))
    requires forall v: nat :: Flat(m.tables, at, v) == Fixed(trampoline, tf, v)
    modifies m
    ensures m.Valid() && Elems(m.free) == f + {tf} && m.tables == t && m.data == d - {tf}
  {
    hide Flat, Tree, Elems, LeafFor;
    ghost var t1 := m.tables;
    InElems(m.free, tf);
    m.Kfree(tf);
    InElems(m.free, tf);
    assert m.tables == t1;
    SoundNow(m, at);
    BornFreed(f, t, d, m, at, tf);
    hide Born;
    FixedPresent(trampoline, tf);
    UnmapFixed(m, root, TRAMPOLINE, at, f + {tf}, t, d - {tf});
    UnmapFixed(m, root, TRAPFRAME, at, f + {tf}, t, d - {tf});
    Discard(m, root, at, f + {tf}, t, d - {tf});
  }

  lemma BornFreed(f: set<nat>, t: Tables, d: map<nat, Page>, m: Memory, at: map<Node, nat>, tf: nat)
    requires tf !in f && tf !in m.tables && Sound(Now(m, at)) && tf in m.free
    requires Elems(m.free) - {tf} + at.Values == f && (Elems(m.free) - {tf}) !! at.Values
    requires m.tables.Keys == t.Keys + at.Values && t.Keys !! at.Values
    requires (forall q :: q in t ==> m.tables[q] == t[q]) && m.data == d - {tf}
    ensures Born(f + {tf}, t, d - {tf}, Now(m, at))
  {
    hide Tree;
  }

  lemma ParentStays(f: set<nat>, t: Tables, d: map<nat, Page>, s: Snap, pat: map<Node, nat>)
    requires Born(f, t, d, s) && Tree(t, pat)
    ensures SameFlat(t, pat, s.tables, pat) && pat.Values !! s.at.Values
  {
    hide Flat;
    TreeValues(t, pat);
    forall n | n in pat ensures pat[n] in s.tables && s.tables[pat[n]] == t[pat[n]] {
      assert pat[n] in pat.Values;
    }
    Elsewhere(t, s.tables, pat);
  }

  lemma CopiesSame(t: Tables, t': Tables, at: map<Node, nat>, d: map<nat, Page>, d': map<nat, Page>, n: nat)
    requires SameFlat(t, at, t', at) && (forall v: nat :: v < n ==> Present(t, at, v) && Flat(t, at, v).ppn in d)
    requires forall q :: q in d ==> q in d' && d'[q] == d[q]
    ensures (forall v: nat :: v < n ==> Present(t', at, v) && Flat(t', at, v).ppn in d')
    ensures (forall v: nat :: v < n && Flat(t', at, v).v ==> Present(t', at, v) && Flat(t', at, v).ppn in d')
    ensures Copies(t', at, d', n) == Copies(t, at, d, n)
  {
    hide Flat, Tree;
  }

  lemma FixedAway(m: Memory, at: map<Node, nat>, trampoline: nat, tf: nat, n: nat)
    requires m.Valid() && Tree(m.tables, at) && n <= TRAPFRAME && forall v: nat ::
               Flat(m.tables, at, v) == Fixed(trampoline, tf, v)
    ensures Sound(Now(m, at)) && Unmapped(Now(m, at), 0, n)
  {
    hide Flat, Tree;
  }

  /** allocproc's pages: a trapframe and a page table with the two fixed mappings, or no trace at all. */
  method Allocproc(m: Memory, trampoline: nat) returns (ok: bool, root: nat, tf: nat, ghost at: map<Node, nat>)
    requires m.Valid()
    modifies m
    ensures m.Valid()
    ensures ok ==>
              tf in old(m.free) && tf !in old(m.data) && m.Space(root, at) && m.data == old(m.data)[tf := ZeroPage()]
    ensures ok ==> Born(Elems(old(m.free)) - {tf}, old(m.tables), m.data, Now(m, at))
    ensures ok ==> forall v: nat :: Flat(m.tables, at, v) == Fixed(trampoline, tf, v)
    ensures !ok ==> Elems(m.free) == Elems(old(m.free)) && m.tables == old(m.tables) && m.data == old(m.data)
    ensures (ok <==> |old(m.free)| >= 4) && (ok ==> at.Keys == FixedTables())
  {
    hide Flat, Tree, Elems, Born, Fixed, FixedTables;
    root, at := 0, map[];
    InElems(m.free, 0);
    ghost var f0, t0, d0 := m.free, m.tables, m.data;
    ok, tf := m.Kalloc();
    if !ok {
      return;
    }
    InElems(f0, tf);
    InElems(m.free, tf);
    m.data := m.data[tf := ZeroPage()];
    ok, root, at := ProcPagetable(m, trampoline, tf);
    if !ok {
      InElems(m.free, tf);
      m.Kfree(tf);
      assert m.tables == t0 && m.data == d0;
    }
  }

  lemma ForkDone(f: set<nat>, t: Tables, d: map<nat, Page>, s: Snap, s': Snap, want: seq<Want>, trampoline: nat,
                 tf: nat)
    requires Born(f, t, d, s) && Filled(s, s', 0, want) && forall v: nat ::
               Flat(s.tables, s.at, v) == Fixed(trampoline, tf, v)
    ensures Sound(s) && Sound(s') && s'.free + s'.at.Values + Backing(s', 0, |want|) == f
    ensures forall v: nat :: Entry(s, v) == Fixed(trampoline, tf, v)
  {
    hide Flat, Tree, Fixed, Backing, PageOk;
  }

  lemma EntriesNow(m: Memory, at: map<Node, nat>, trampoline: nat, tf: nat)
    requires m.Valid() && Tree(m.tables, at) && forall v: nat :: Flat(m.tables, at, v) == Fixed(trampoline, tf, v)
    ensures Sound(Now(m, at)) && forall v: nat :: Entry(Now(m, at), v) == Fixed(trampoline, tf, v)
  {
    hide Flat, Tree;
  }

  /** fork from uvmcopy on, into the child's new page table; freeproc if that fails. */
  method ForkCopy(m: Memory, parent: nat, root: nat, tf: nat, sz: nat, trampoline: nat, ghost pat: map<Node, nat>,
                  ghost at0: map<Node, nat>, ghost f: set<nat>, ghost t0: Tables, ghost d0: map<nat, Page>)
    returns (ok: bool, ghost at: map<Node, nat>)
    requires m.Valid() && m.Space(root, at0) && Tree(t0, pat) && pat[ROOT] == parent
    requires Up(sz) <= TRAPFRAME && sz <= MAXVPN * PGSIZE
    requires forall v: nat :: v < Up(sz) ==> Present(t0, pat, v) && Flat(t0, pat, v).ppn in d0
    requires f !! t0.Keys && tf !in f && tf !in d0 && m.data == d0[tf := ZeroPage()]
    requires Born(f, t0, m.data, Now(m, at0))
    requires forall v: nat :: Flat(m.tables, at0, v) == Fixed(trampoline, tf, v)
    modifies m
    ensures m.Valid() && m.Space(parent, pat) && SameFlat(t0, pat, m.tables, pat)
    ensures !ok ==> Elems(m.free) == f + {tf} && m.tables == t0 && m.data == d0
    ensures ok ==> m.Space(root, at) && Filled(old(Now(m, at0)), Now(m, at), 0, Copies(t0, pat, d0, Up(sz)))
    ensures ok ==> Sound(Now(m, at)) && Cloned(t0, pat, d0, Now(m, at), sz)
    ensures ok ==> Elems(m.free) + at.Values + Backing(Now(m, at), 0, Up(sz)) == f
    ensures ok <==> |old(m.free)| >= Pages(at0.Keys, 0, Up(sz))
  {
    hide Flat, Tree, Elems, Filled, Born, Copies, Entry, Backing, Restored, Unmapped, Sound, Fixed, FixedTables, Pages,
      Cloned;
    ghost var d1, s := m.data, Now(m, at0);
    SameSelf(t0, pat);
    ParentStays(f, t0, d1, s, pat);
    CopiesSame(t0, m.tables, pat, d0, d1, Up(sz));
    FixedAway(m, at0, trampoline, tf, Up(sz));
    var panics;
    panics, ok, at := Uvmcopy(m, parent, root, sz, pat, at0);
    if ok {
      ForkDone(f, t0, d1, s, Now(m, at), Copies(t0, pat, d0, Up(sz)), trampoline, tf);
      FilledCloned(t0, pat, d0, s, Now(m, at), sz);
    } else {
      BornRestored(f, t0, d1, s, Now(m, at));
      RestoredEntries(s, Now(m, at), trampoline, tf);
      Freeproc(m, root, tf, trampoline, at, f, t0, d1);
      assert m.data == d0;
    }
  }

  /** fork's memory: on success the child has the parent's flags and bytes at the same addresses, each on a
      page of its own, and what it uses is exactly what kalloc gave; on failure at any kalloc the free pages
      are the same set as before. The parent is untouched either way. */
  method Fork(m: Memory, parent: nat, sz: nat, trampoline: nat, ghost pat: map<Node, nat>)
    returns (ok: bool, root: nat, tf: nat, ghost at: map<Node, nat>, ghost s: Snap)
    requires m.Valid() && m.Space(parent, pat) && Up(sz) <= TRAPFRAME && sz <= MAXVPN * PGSIZE
    requires forall v: nat :: v < Up(sz) ==> Present(m.tables, pat, v) && Flat(m.tables, pat, v).ppn in m.data
    modifies m
    ensures m.Valid() && m.Space(parent, pat) && SameFlat(old(m.tables), pat, m.tables, pat)
    ensures !ok ==> Elems(m.free) == Elems(old(m.free)) && m.tables == old(m.tables) && m.data == old(m.data)
    ensures ok ==> m.Space(root, at) && Filled(s, Now(m, at), 0, Copies(old(m.tables), pat, old(m.data), Up(sz)))
    ensures ok ==> Sound(Now(m, at)) && Cloned(old(m.tables), pat, old(m.data), Now(m, at), sz)
    ensures ok ==> forall v: nat :: Entry(s, v) == Fixed(trampoline, tf, v)
    ensures ok ==> Elems(m.free) + at.Values + Backing(Now(m, at), 0, Up(sz)) + {tf} == Elems(old(m.free))
    // it succeeds exactly when the free pages cover the trapframe, the page table and the copy
    ensures ok <==> |old(m.free)| >= 4 + Pages(FixedTables(), 0, Up(sz))
  {
    hide Flat, Tree, Elems, Filled, Born, Copies, Entry, Backing, Restored, Unmapped, Sound, Fixed, FixedTables, Pages,
      Cloned;
    ghost var f0, t0, d0 := m.free, m.tables, m.data;
    ElemsCount(f0);
    SameSelf(t0, pat);
    s := Now(m, pat);
    ok, root, tf, at := Allocproc(m, trampoline);
    if !ok {
      return;
    }
    InElems(f0, tf);
    ghost var f1 := Elems(f0) - {tf};
    s := Now(m, at);
    BornCount(f1, t0, m.data, m, at);
    FixedCount(at);
    EntriesNow(m, at, trampoline, tf);
    ok, at := ForkCopy(m, parent, root, tf, sz, trampoline, pat, at, f1, t0, d0);
  }

  lemma SameSelf(t: Tables, at: map<Node, nat>)
    requires Tree(t, at)
    ensures SameFlat(t, at, t, at)
  {
  }

  lemma RestoredEntries(s: Snap, s': Snap, trampoline: nat, tf: nat)
    requires Restored(s, s') && forall v: nat :: Flat(s.tables, s.at, v) == Fixed(trampoline, tf, v)
    ensures forall v: nat :: Flat(s'.tables, s'.at, v) == Fixed(trampoline, tf, v)
  {
    hide Flat, Tree;
    forall v: nat ensures Flat(s'.tables, s'.at, v) == Fixed(trampoline, tf, v) {
      assert Entry(s', v) == Entry(s, v);
    }
  }
}
