/** The user-memory half of kernel/vm.c, and the page bookkeeping of fork in kernel/proc.c. */
module VmUser {
  import opened VmTree
  import opened Vm
  import opened VmFill

  /** The pages sz bytes need. */
  function Up(sz: nat): (n: nat)
    ensures sz <= n * PGSIZE < sz + PGSIZE
  {
    (sz + PGSIZE - 1) / PGSIZE
  }

  const USER_RWX: Pte := Pte(0, true, true, true, true, true)

  ghost function Now(m: Memory, at: map<Node, nat>): Snap
    reads m
  {
    Snap(Elems(m.free), m.tables, at, m.data)
  }

  lemma SoundNow(m: Memory, at: map<Node, nat>)
    requires m.Valid() && Tree(m.tables, at)
    ensures Sound(Now(m, at))
  {
  }

  ghost predicate Unmapped(s: Snap, lo: nat, hi: nat)
    requires Sound(s)
  {
    forall v: nat :: lo <= v < hi ==> Entry(s, v) == NONE
  }

  /** kalloc, fill, mappages of one page, kfree if that fails. */
  method AddPage(m: Memory, root: nat, v: nat, w: Want, ghost at: map<Node, nat>)
    returns (ok: bool, ghost p: nat, ghost at': map<Node, nat>)
    requires m.Valid() && m.Space(root, at) && v < MAXVPN && !Flat(m.tables, at, v).v
    modifies m
    ensures m.Valid() && m.Space(root, at') && Sound(Now(m, at'))
    ensures ok ==>
              p in Elems(old(m.free)) &&
                Grew(Elems(old(m.free)) - {p}, old(m.tables), at, Elems(m.free), m.tables, at') &&
                  m.data == old(m.data)[p := w.bytes]
    ensures !ok ==> Grew(Elems(old(m.free)), old(m.tables), at, Elems(m.free), m.tables, at') && m.data == old(m.data)
    // it fails exactly when the free pages do not cover the page and the tables missing
    ensures ok <==> |old(m.free)| >= 1 + Missing(at.Keys, v)
    ensures ok ==> Reaches(at, at', v)
    ensures forall x: nat ::
              Flat(m.tables, at', x) == if x == v && ok then LeafFor(w.perm, p) else Flat(old(m.tables), at, x)
  {
    hide Flat, Tree, Elems, LeafFor, Reaches, Missing;
    GrewNone(Elems(m.free), m.tables, at);
    ghost var f0, t0 := m.free, m.tables;
    var mem;
    ok, mem := m.Kalloc();
    p, at' := mem, at;
    if !ok {
      return;
    }
    InElems(f0, mem);
    InElems(m.free, mem);
    m.data := m.data[mem := w.bytes];
    var r;
    r, at' := m.MapOne(root, v, LeafFor(w.perm, mem), at);
    if r.Mapped? {
      return;
    }
    GrewBack(Elems(f0), t0, at, mem, Elems(m.free), m.tables, at');
    InElems(m.free, mem);
    ghost var t1 := m.tables;
    m.Kfree(mem);
    assert m.tables == t1 && m.data == old(m.data);
    ok := false;
  }

  // The page that was not mapped goes back.
  lemma GrewBack(free: set<nat>, tables: Tables, at: map<Node, nat>, p: nat, free': set<nat>, tables': Tables,
                 at': map<Node, nat>)
    requires p in free && free !! tables.Keys && Grew(free - {p}, tables, at, free', tables', at')
    ensures Grew(free, tables, at, free' + {p}, tables', at') && p !in tables'
  {
    hide Tree;
    TreeValues(tables, at);
    assert at'.Values <= free' + at'.Values;
  }

  ghost predicate AllLeaves(want: seq<Want>) {
    forall k :: 0 <= k < |want| ==> Flagged(want[k].perm)
  }

  lemma FilledOwn(a: Snap, b: Snap, lo: nat, want: seq<Want>)
    requires Filled(a, b, lo, want) && AllLeaves(want)
    ensures OwnPages(b.tables, b.at, b.data.Keys, lo, lo + |want|)
    ensures forall v: nat :: lo <= v < lo + |want| ==> Present(b.tables, b.at, v)
  {
    hide Flat, Tree, Spent, Backing;
    forall v: nat | lo <= v < lo + |want| ensures Present(b.tables, b.at, v) && Flat(b.tables, b.at, v).ppn in b.data {
      assert PageOk(b, lo + (v - lo), want[v - lo]);
    }
    forall v: nat, w: nat | lo <= v < w < lo + |want|
      ensures Flat(b.tables, b.at, v).ppn != Flat(b.tables, b.at, w).ppn
    {
      assert Entry(b, v).ppn != Entry(b, w).ppn;
    }
  }

  /** Pages lo .. hi - 1 have been unmapped and freed. */
  ghost predicate Dropped(b: Snap, c: Snap, lo: nat, hi: nat)
    requires Tree(b.tables, b.at)
  {
    && c.at == b.at && Cleared(b.tables, c.tables, b.at, lo, hi) && c.tables.Keys == b.tables.Keys &&
      OthersSame(b.tables, c.tables, b.at)
    && c.free == b.free + Phys(b.tables, b.at, lo, hi) && c.data == b.data - Phys(b.tables, b.at, lo, hi)
  }

  lemma DroppedNone(b: Snap, lo: nat, hi: nat)
    requires Tree(b.tables, b.at) && hi <= lo
    ensures Dropped(b, b, lo, hi)
  {
    hide Flat, Tree;
    assert Phys(b.tables, b.at, lo, hi) == {};
  }

  lemma UndoDropped(a: Snap, b: Snap, lo: nat, want: seq<Want>, c: Snap)
    requires Filled(a, b, lo, want) && Unmapped(a, lo, lo + |want|) && Sound(c) && Dropped(b, c, lo, lo + |want|)
    ensures Restored(a, c)
  {
    hide Flat, Tree, Spent, PageOk, Phys;
    Undo(a, b, lo, want, c);
  }

  /** uvmdealloc */
  method Uvmdealloc(m: Memory, root: nat, oldsz: nat, newsz: nat, ghost at: map<Node, nat>)
    returns (r: nat, panics: bool)
    requires m.Valid() && m.Space(root, at) && Up(oldsz) <= MAXVPN
    requires OwnPages(m.tables, at, m.data.Keys, Up(newsz), Up(oldsz))
    modifies m
    ensures r == if newsz >= oldsz then oldsz else newsz
    ensures panics <==> exists v: nat :: Up(newsz) <= v < Up(oldsz) && !Present(old(m.tables), at, v)
    ensures !panics ==> m.Valid() && m.Space(root, at) && Dropped(old(Now(m, at)), Now(m, at), Up(newsz), Up(oldsz))
  {
    hide Flat, Tree, Phys, Elems;
    ghost var b := Now(m, at);
    if newsz >= oldsz {
      UpMono(oldsz, newsz);
      DroppedNone(b, Up(newsz), Up(oldsz));
      return oldsz, false;
    }
    panics := false;
    if Up(newsz) < Up(oldsz) {
      panics := m.Uvmunmap(root, Up(newsz), Up(oldsz) - Up(newsz), true, at);
    } else {
      DroppedNone(b, Up(newsz), Up(oldsz));
    }
    r := newsz;
  }

  /** The user may read and write every byte from lo to hi, and reads zero. */
  ghost predicate Zeroed(s: Snap, lo: nat, hi: nat)
    requires Sound(s)
  {
    forall va: nat {:trigger va / PGSIZE} :: lo <= va < hi ==>
      var e := Entry(s, va / PGSIZE);
      e.v && e.u && e.r && e.w && e.ppn in s.data && s.data[e.ppn][va % PGSIZE] == 0
  }

  lemma FilledZeroed(a: Snap, b: Snap, lo: nat, n: nat, hi: nat)
    requires Filled(a, b, lo, seq(n, _ => Want(USER_RWX, ZeroPage()))) && hi <= (lo + n) * PGSIZE
    ensures Sound(b) && Zeroed(b, lo * PGSIZE, hi)
  {
    hide Sound, Spent, Entry;
    var want := seq(n, _ => Want(USER_RWX, ZeroPage()));
    forall va: nat | lo * PGSIZE <= va < hi
      ensures var e := Entry(b, va / PGSIZE);
              e.v && e.u && e.r && e.w && e.ppn in b.data && b.data[e.ppn][va % PGSIZE] == 0
    {
      var k := va / PGSIZE - lo;
      assert PageOk(b, lo + k, want[k]);
    }
  }

  /** uvmalloc: all the pages asked for, zeroed, or memory as it was. */
  method Uvmalloc(m: Memory, root: nat, oldsz: nat, newsz: nat, ghost at: map<Node, nat>)
    returns (ok: bool, r: nat, ghost at': map<Node, nat>)
    requires m.Valid() && m.Space(root, at) && newsz <= MAXVPN * PGSIZE && Sound(Now(m, at))
    requires Unmapped(Now(m, at), Up(oldsz), Up(newsz))
    modifies m
    ensures m.Valid() && m.Space(root, at')
    ensures ok ==> r == if newsz < oldsz then oldsz else newsz
    ensures ok ==> var n := if Up(newsz) < Up(oldsz) then 0 else Up(newsz) - Up(oldsz);
                   Filled(old(Now(m, at)), Now(m, at'), Up(oldsz), seq(n, _ => Want(USER_RWX, ZeroPage())))
    ensures ok ==> Sound(Now(m, at')) && Zeroed(Now(m, at'), Up(oldsz) * PGSIZE, newsz)
    ensures !ok ==> r == 0 && Restored(old(Now(m, at)), Now(m, at'))
    // it succeeds exactly when the free pages cover the pages asked for and the tables missing
    ensures var n := if Up(newsz) < Up(oldsz) then 0 else Up(newsz) - Up(oldsz);
            ok <==> |old(m.free)| >= Pages(at.Keys, Up(oldsz), n)
  {
    hide Flat, Tree, Filled, Restored, Sound, Entry, ZeroPage, Covers, Lacking, Reaches, Missing, Pages, Elems, Grew,
      Zeroed;
    ghost var f0 := m.free;
    ElemsCount(f0);
    CoversNone(at, Up(oldsz));
    PagesNone(at.Keys, Up(oldsz));
    ghost var s0 := Now(m, at);
    var lo := Up(oldsz);
    FilledNone(s0, lo);
    at' := at;
    var w := Want(USER_RWX, ZeroPage());
    ghost var want: seq<Want> := [];
    if newsz < oldsz {
      assert seq(0, _ => w) == [];
      UpMono(newsz, oldsz);
      FilledZeroed(s0, s0, lo, 0, newsz);
      return true, oldsz, at;
    }
    var a := lo;
    while a * PGSIZE < newsz
      invariant lo <= a && m.Valid() && m.Space(root, at') && Filled(s0, Now(m, at'), lo, want)
      invariant want == seq(a - lo, _ => w)
      invariant a <= lo || a <= Up(newsz)
      invariant Covers(at, at', lo, |want|)
      decreases newsz - a * PGSIZE
    {
      UpReach(a, newsz);
      ElemsCount(m.free);
      ghost var b := Now(m, at');
      assert |want| == a - lo && lo + |want| == a;
      NextUnmapped(s0, b, lo, want, Up(newsz));
      ghost var p;
      ok, p, at' := AddPage(m, root, a, w, at');
      if !ok {
        FilledShort(s0, b, lo, want, Up(newsz) - lo, a);
        AddFailed(s0, b, lo, want, Now(m, at'));
        GiveUp(m, root, lo, a, at', s0, want);
        return false, 0, at';
      }
      AddDone(s0, b, lo, want, p, w, Now(m, at'));
      CoversNext(at, b.at, at', lo, |want|, a);
      want := want + [w];
      a := a + 1;
    }
    UpDone(a, lo, oldsz, newsz);
    ElemsCount(m.free);
    FilledEnough(s0, Now(m, at'), lo, want);
    FilledZeroed(s0, Now(m, at'), lo, a - lo, newsz);
    return true, newsz, at';
  }

  /** uvmalloc's error paths: uvmdealloc back to where it began. */
  method GiveUp(m: Memory, root: nat, lo: nat, a: nat, ghost at: map<Node, nat>, ghost s0: Snap, ghost want: seq<Want>)
    requires m.Valid() && m.Space(root, at) && a <= MAXVPN && a == lo + |want| && AllLeaves(want)
    requires Filled(s0, Now(m, at), lo, want) && Sound(s0) && Unmapped(s0, lo, a)
    modifies m
    ensures m.Valid() && m.Space(root, at) && Restored(s0, Now(m, at))
  {
    hide Flat, Tree, Filled, Restored, Sound, Entry, Elems, Unmapped;
    UpExact(a);
    UpExact(lo);
    ghost var b := Now(m, at);
    FilledOwn(s0, b, lo, want);
    var r, panics := Uvmdealloc(m, root, a * PGSIZE, lo * PGSIZE, at);
    SoundNow(m, at);
    UndoDropped(s0, b, lo, want, Now(m, at));
  }

  lemma UpMono(a: nat, b: nat)
    requires a <= b
    ensures Up(a) <= Up(b)
  {
  }

  lemma UpExact(a: nat)
    ensures Up(a * PGSIZE) == a && a * PGSIZE % PGSIZE == 0
  {
  }

  lemma UpReach(a: nat, sz: nat)
    requires a * PGSIZE < sz <= MAXVPN * PGSIZE
    ensures a < Up(sz) <= MAXVPN
  {
  }

  lemma UpDone(a: nat, lo: nat, oldsz: nat, newsz: nat)
    requires a * PGSIZE >= newsz >= oldsz && lo == Up(oldsz) <= a && (a <= lo || a <= Up(newsz))
    ensures a == Up(newsz)
  {
  }

  lemma NextUnmapped(a: Snap, b: Snap, lo: nat, want: seq<Want>, hi: nat)
    requires Filled(a, b, lo, want) && Unmapped(a, lo, hi) && lo + |want| < hi
    ensures !Flat(b.tables, b.at, lo + |want|).v
  {
    hide Flat, Tree, Spent, PageOk;
    assert Entry(b, lo + |want|) == NONE;
  }

  lemma AddFailed(a: Snap, b: Snap, lo: nat, want: seq<Want>, c: Snap)
    requires Filled(a, b, lo, want) && Sound(c) && Grew(b.free, b.tables, b.at, c.free, c.tables, c.at)
    requires c.data == b.data
    requires forall x: nat :: Flat(c.tables, c.at, x) == Flat(b.tables, b.at, x)
    ensures Filled(a, c, lo, want)
  {
    hide Filled, Grew, Tree, Flat;
    SoundOf(a, b, lo, want);
    FilledGrew(a, b, lo, want, c);
  }

  lemma AddDone(a: Snap, b: Snap, lo: nat, want: seq<Want>, p: nat, w: Want, c: Snap)
    requires Filled(a, b, lo, want) && Sound(c) && p in b.free
    requires Grew(b.free - {p}, b.tables, b.at, c.free, c.tables, c.at) && c.data == b.data[p := w.bytes]
    requires forall x: nat ::
               Flat(c.tables, c.at, x) == if x == lo + |want| then LeafFor(w.perm, p) else Flat(b.tables, b.at, x)
    ensures Filled(a, c, lo, want + [w])
  {
    hide Filled, Grew, Tree, Flat, LeafFor;
    SoundOf(a, b, lo, want);
    FilledNext(a, b, lo, want, p, w, c);
  }

  lemma SoundOf(a: Snap, b: Snap, lo: nat, want: seq<Want>)
    requires Filled(a, b, lo, want)
    ensures Sound(a) && Sound(b)
  {
  }

  // ----- uvmcopy -----

  /** Every byte below sz reads in one space what it read in the other, under the same flags, from a page of its
      own. */
  ghost predicate Cloned(t0: Tables, at0: map<Node, nat>, d0: map<nat, Page>, s: Snap, sz: nat)
    requires Tree(t0, at0) && Sound(s)
  {
    forall va: nat {:trigger va / PGSIZE} :: va < sz ==>
      var p, e := Flat(t0, at0, va / PGSIZE), Entry(s, va / PGSIZE);
      && e == p.(ppn := e.ppn) && e.v && e.ppn != p.ppn && p.ppn in d0 && e.ppn in s.data
      && s.data[e.ppn][va % PGSIZE] == d0[p.ppn][va % PGSIZE]
  }

  lemma FreshPage(a: Snap, b: Snap, want: seq<Want>, k: nat)
    requires Filled(a, b, 0, want) && k < |want|
    ensures Sound(b) && Entry(b, k).ppn !in a.data
  {
    hide Flat, Tree;
    assert Entry(b, k).ppn in Backing(b, 0, |want|);
    FreeNotData(a, Entry(b, k).ppn);
  }

  lemma FilledCloned(t0: Tables, at0: map<Node, nat>, d0: map<nat, Page>, a: Snap, b: Snap, sz: nat)
    requires Tree(t0, at0) && d0.Keys <= a.data.Keys
    requires forall v: nat :: v < Up(sz) ==> Present(t0, at0, v) && Flat(t0, at0, v).ppn in d0
    requires Filled(a, b, 0, Copies(t0, at0, d0, Up(sz)))
    ensures Sound(b) && Cloned(t0, at0, d0, b, sz)
  {
    hide Flat, Tree;
    var want := Copies(t0, at0, d0, Up(sz));
    forall va: nat | va < sz
      ensures var p, e := Flat(t0, at0, va / PGSIZE), Entry(b, va / PGSIZE);
              && e == p.(ppn := e.ppn) && e.v && e.ppn != p.ppn && p.ppn in d0 && e.ppn in b.data
              && b.data[e.ppn][va % PGSIZE] == d0[p.ppn][va % PGSIZE]
    {
      var k := va / PGSIZE;
      assert PageOk(b, 0 + k, want[k]) && Present(t0, at0, k);
      FreshPage(a, b, want, k);
    }
  }

  /** What the child's pages are to be: the parent's flags and bytes. */
  ghost function Copies(t: Tables, at: map<Node, nat>, data: map<nat, Page>, n: nat): (want: seq<Want>)
    requires Tree(t, at) && forall v: nat :: v < n ==> Present(t, at, v) && Flat(t, at, v).ppn in data
    ensures |want| == n
  {
    seq(n, k requires 0 <= k < n => Want(Flat(t, at, k), data[Flat(t, at, k).ppn]))
  }

  lemma CopiesLeaves(t: Tables, at: map<Node, nat>, data: map<nat, Page>, n: nat)
    requires Tree(t, at) && forall v: nat :: v < n ==> Present(t, at, v) && Flat(t, at, v).ppn in data
    ensures AllLeaves(Copies(t, at, data, n))
  {
    hide Flat, Tree;
    forall k | 0 <= k < n ensures Flagged(Copies(t, at, data, n)[k].perm) {
      assert Present(t, at, k);
    }
  }

  lemma UnmappedLess(a: Snap, hi: nat, n: nat)
    requires Sound(a) && Unmapped(a, 0, hi) && n <= hi
    ensures Unmapped(a, 0, n)
  {
    hide Entry;
  }

  lemma CopiesNext(t: Tables, at: map<Node, nat>, data: map<nat, Page>, n: nat)
    requires Tree(t, at) && forall v: nat :: v < n + 1 ==> Present(t, at, v) && Flat(t, at, v).ppn in data
    ensures Copies(t, at, data, n + 1) == Copies(t, at, data, n) + [Want(Flat(t, at, n), data[Flat(t, at, n).ppn])]
  {
    hide Flat, Tree;
  }

  // Filling one tree leaves another, with the data it maps, alone.
  lemma ParentKept(a: Snap, b: Snap, got: set<nat>, pat: map<Node, nat>)
    requires Sound(a) && Spent(a, b, got) && Tree(a.tables, pat) && pat.Values !! a.at.Values
    ensures SameFlat(a.tables, pat, b.tables, pat)
  {
    hide Flat;
    TreeValues(a.tables, pat);
    forall n | n in pat ensures pat[n] in b.tables && b.tables[pat[n]] == a.tables[pat[n]] {
      assert pat[n] in pat.Values;
    }
    Elsewhere(a.tables, b.tables, pat);
  }

  lemma ParentKeptFilled(a: Snap, b: Snap, lo: nat, want: seq<Want>, pat: map<Node, nat>)
    requires Filled(a, b, lo, want) && Tree(a.tables, pat) && pat.Values !! a.at.Values
    ensures SameFlat(a.tables, pat, b.tables, pat) && forall q :: q in a.data ==> q in b.data && b.data[q] == a.data[q]
  {
    hide Flat, Tree, PageOk;
    ParentKept(a, b, Backing(b, lo, |want|), pat);
  }

  /** uvmcopy: the child gets the same flags and bytes at the same addresses, on pages of its own taken from
      the free ones, and the parent is untouched; or the child is as it was. The panics are one outcome. */
  method Uvmcopy(m: Memory, old_: nat, new_: nat, sz: nat, ghost pat: map<Node, nat>, ghost at: map<Node, nat>)
    returns (panics: bool, ok: bool, ghost at': map<Node, nat>)
    requires m.Valid() && m.Space(old_, pat) && m.Space(new_, at) && pat.Values !! at.Values && sz <= MAXVPN * PGSIZE
    requires Sound(Now(m, at)) && Unmapped(Now(m, at), 0, Up(sz)) && forall v: nat ::
               v < Up(sz) && Flat(m.tables, pat, v).v ==>
                 Present(m.tables, pat, v) && Flat(m.tables, pat, v).ppn in m.data
    modifies m
    ensures panics ==> exists v: nat :: v < Up(sz) && !Flat(old(m.tables), pat, v).v
    ensures !panics ==>
              m.Valid() && m.Space(new_, at') && m.Space(old_, pat) && SameFlat(old(m.tables), pat, m.tables, pat)
    ensures !panics && ok ==>
              (forall v: nat :: v < Up(sz) ==>
               Present(old(m.tables), pat, v) && Flat(old(m.tables), pat, v).ppn in old(m.data))
    ensures !panics && ok ==> Filled(old(Now(m, at)), Now(m, at'), 0, Copies(old(m.tables), pat, old(m.data), Up(sz)))
    ensures !panics && ok ==> Sound(Now(m, at')) && Cloned(old(m.tables), pat, old(m.data), Now(m, at'), sz)
    ensures !panics && !ok ==> Restored(old(Now(m, at)), Now(m, at'))
    ensures !panics ==> (ok <==> |old(m.free)| >= Pages(at.Keys, 0, Up(sz)))
  {
    hide Flat, Tree, Filled, Restored, Sound, Entry, Spent, Unmapped, Copies, LeafFor, Covers, Lacking, Reaches,
      Missing, Pages, Elems, Grew, Cloned;
    ghost var f0 := m.free;
    ElemsCount(f0);
    CoversNone(at, 0);
    PagesNone(at.Keys, 0);
    ghost var s0 := Now(m, at);
    FilledNone(s0, 0);
    panics, at' := false, at;
    var i := 0;
    ghost var want: seq<Want> := [];
    assert Copies(s0.tables, pat, s0.data, 0) == [];
    while i * PGSIZE < sz
      invariant m.Valid() && m.Space(new_, at') && i <= Up(sz) && Filled(s0, Now(m, at'), 0, want)
      invariant (forall v: nat :: v < i ==> Present(s0.tables, pat, v) && Flat(s0.tables, pat, v).ppn in s0.data)
      invariant want == Copies(s0.tables, pat, s0.data, i)
      invariant Covers(at, at', 0, |want|)
      decreases sz - i * PGSIZE
    {
      UpReach(i, sz);
      ElemsCount(m.free);
      ghost var b := Now(m, at');
      ParentKeptFilled(s0, b, 0, want, pat);
      var found, page;
      ghost var same;
      found, page, same := m.Walk(old_, i, false, pat);
      FlatIs(m.tables, pat, i);
      if !found || !m.tables[page][i % ENTRIES].v {
        assert !Flat(s0.tables, pat, i).v;
        return true, false, at';
      }
      var pte := m.tables[page][i % ENTRIES];
      CopiesNext(s0.tables, pat, s0.data, i);
      var w := Want(pte, m.data[pte.ppn]);
      NextUnmapped(s0, b, 0, want, Up(sz));
      ghost var p;
      ok, p, at' := AddPage(m, new_, i, w, at');
      if !ok {
        FilledShort(s0, b, 0, want, Up(sz), i);
        AddFailed(s0, b, 0, want, Now(m, at'));
        CopiesLeaves(s0.tables, pat, s0.data, i);
        UnmappedLess(s0, Up(sz), i);
        Abandon(m, new_, i, at', s0, want);
        RestoredParent(s0, Now(m, at'), pat);
        return false, false, at';
      }
      AddDone(s0, b, 0, want, p, w, Now(m, at'));
      CoversNext(at, b.at, at', 0, |want|, i);
      want := want + [w];
      i := i + 1;
    }
    UpDone(i, 0, 0, sz);
    ElemsCount(m.free);
    FilledEnough(s0, Now(m, at'), 0, want);
    ParentKeptFilled(s0, Now(m, at'), 0, want, pat);
    FilledCloned(s0.tables, pat, s0.data, s0, Now(m, at'), sz);
    ok := true;
  }

  /** uvmcopy's way out: the pages copied so far are unmapped from the new tree and freed. */
  method Abandon(m: Memory, root: nat, n: nat, ghost at: map<Node, nat>, ghost a: Snap, ghost want: seq<Want>)
    requires m.Valid() && m.Space(root, at) && n <= MAXVPN && |want| == n && AllLeaves(want)
    requires Filled(a, Now(m, at), 0, want) && Sound(a) && Unmapped(a, 0, n)
    modifies m
    ensures m.Valid() && m.Space(root, at) && Restored(a, Now(m, at))
  {
    hide Flat, Tree, Filled, Restored, Unmapped, Phys, Elems;
    ghost var b := Now(m, at);
    FilledOwn(a, b, 0, want);
    var panics := m.Uvmunmap(root, 0, n, true, at);
    UndoDropped(a, b, 0, want, Now(m, at));
  }

  lemma RestoredParent(a: Snap, b: Snap, pat: map<Node, nat>)
    requires Restored(a, b) && Tree(a.tables, pat) && pat.Values !! a.at.Values
    ensures SameFlat(a.tables, pat, b.tables, pat)
  {
    hide Flat;
    TreeValues(a.tables, pat);
    forall n | n in pat ensures pat[n] in b.tables && b.tables[pat[n]] == a.tables[pat[n]] {
      assert pat[n] in pat.Values;
    }
    Elsewhere(a.tables, b.tables, pat);
  }
}
