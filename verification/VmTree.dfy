/** Sv39 page tables (section 4.4 of the RISC-V Privileged Architecture) as kernel/vm.c builds them, and the
    flat map from virtual pages to entries that they stand for. Pages are numbers. */
module VmTree {
  const ENTRIES: nat := 512

  /** MAXVA in pages: one bit less than Sv39 would allow. */
  const MAXVPN: nat := 0x400_0000

  datatype Pte = Pte(ppn: nat, v: bool, r: bool, w: bool, x: bool, u: bool)

  const NONE: Pte := Pte(0, false, false, false, false, false)

  /** A valid entry with one of these is no pointer to a lower table: freewalk's test. */
  predicate Leaf(pte: Pte) {
    pte.r || pte.w || pte.x
  }

  /** An entry has a flag besides V: uvmunmap's test for a leaf. */
  predicate Flagged(pte: Pte) {
    Leaf(pte) || pte.u
  }

  type Table = t: seq<Pte> | |t| == ENTRIES witness seq(ENTRIES, _ => NONE)

  function Blank(): Table {
    seq(ENTRIES, _ => NONE)
  }

  type Tables = map<nat, Table>

  /** The table at level l for the virtual pages that agree on `pre`, the indices above it. */
  datatype Node = Node(l: nat, pre: nat)

  const ROOT: Node := Node(2, 0)

  /** The prefix of a page at a level, and PX(level, va). */
  function Pre(vpn: nat, l: nat): nat {
    if l == 0 then vpn / 512 else if l == 1 then vpn / 0x4_0000 else vpn / 0x800_0000
  }

  function Px(vpn: nat, l: nat): nat {
    if l == 0 then vpn % 512 else if l == 1 then vpn / 512 % 512 else vpn / 0x4_0000 % 512
  }

  lemma Digits(vpn: nat, l: nat)
    requires 0 < l <= 2
    ensures Px(vpn, l) < ENTRIES && Pre(vpn, l - 1) == Pre(vpn, l) * ENTRIES + Px(vpn, l)
    ensures vpn < MAXVPN ==> Pre(vpn, 2) == 0
  {
  }

  function Child(n: Node, i: nat): Node
    requires n.l > 0
  {
    Node(n.l - 1, n.pre * ENTRIES + i)
  }

  function Parent(n: Node): Node {
    Node(n.l + 1, n.pre / ENTRIES)
  }

  lemma ChildParent(n: Node, i: nat)
    requires n.l > 0 && i < ENTRIES
    ensures Parent(Child(n, i)) == n && Child(n, i).pre % ENTRIES == i
  {
  }

  lemma ParentChild(n: Node)
    ensures Child(Parent(n), n.pre % ENTRIES) == n
  {
  }

  /** An interior entry: valid exactly when the child exists, and then it points there. */
  ghost predicate EntryOk(pte: Pte, at: map<Node, nat>, child: Node) {
    (pte.v <==> child in at) && (pte.v ==> pte.ppn == at[child] && !Leaf(pte))
  }

  ghost predicate NodeOk(tables: Tables, at: map<Node, nat>, n: Node)
    requires n in at
  {
    && at[n] in tables && n.l <= 2 && (n.l == 2 ==> n == ROOT)
    && (n != ROOT ==> Parent(n) in at)
    && (n.l > 0 ==> forall i :: 0 <= i < ENTRIES ==> EntryOk(tables[at[n]][i], at, Child(n, i)))
  }

  /** `at` lays out one tree: every table page has one place. */
  ghost predicate Tree(tables: Tables, at: map<Node, nat>) {
    && ROOT in at
    && (forall n :: n in at ==> NodeOk(tables, at, n))
    && (forall m, n :: m in at && n in at && at[m] == at[n] ==> m == n)
  }

  /** The flat map: the entry for a virtual page. */
  ghost function Flat(tables: Tables, at: map<Node, nat>, vpn: nat): Pte
    requires Tree(tables, at)
  {
    var n := Node(0, vpn / ENTRIES);
    if n in at then assert NodeOk(tables, at, n); tables[at[n]][vpn % ENTRIES] else NONE
  }

  /** What the paging hardware finds for a virtual page, level by level from the root: the leaf entry, or none
      where the way ends (section 4.3.2 of the RISC-V Privileged Architecture, with three levels and 4096-byte
      pages). */
  function Translate(tables: Tables, table: nat, vpn: nat, level: nat): Pte
    decreases level
  {
    var i := if level == 2 then vpn / 0x4_0000 % 0x200 else if level == 1 then vpn / 0x200 % 0x200 else vpn % 0x200;
    if table !in tables || !tables[table][i].v then NONE
    else if level == 0 then tables[table][i]
    else if Leaf(tables[table][i]) then NONE
    else Translate(tables, tables[table][i].ppn, vpn, level - 1)
  }

  ghost predicate SameFlat(tables: Tables, at: map<Node, nat>, tables': Tables, at': map<Node, nat>) {
    Tree(tables, at) && Tree(tables', at') && forall vpn: nat :: Flat(tables', at', vpn) == Flat(tables, at, vpn)
  }

  /** The hardware finds the entry the flat map gives, if that is valid, and nothing otherwise. */
  lemma HardwareAgrees(tables: Tables, at: map<Node, nat>, vpn: nat)
    requires Tree(tables, at) && vpn < MAXVPN
    ensures Translate(tables, at[ROOT], vpn, 2) == if Flat(tables, at, vpn).v then Flat(tables, at, vpn) else NONE
  {
    var n1, n0 := Child(ROOT, vpn / 0x4_0000), Node(0, vpn / ENTRIES);
    assert vpn / 0x4_0000 < ENTRIES && vpn / 0x4_0000 % 0x200 == vpn / 0x4_0000;
    assert n0 == Child(n1, vpn / 0x200 % 0x200) && Parent(n0) == n1;
    assert n0 in at ==> NodeOk(tables, at, n0);
    assert NodeOk(tables, at, ROOT) && EntryOk(tables[at[ROOT]][vpn / 0x4_0000], at, n1);
    if n1 in at {
      assert NodeOk(tables, at, n1) && EntryOk(tables[at[n1]][vpn / 0x200 % 0x200], at, n0);
      if n0 in at { LastLevel(tables, at[n0], vpn); }
      MiddleLevel(tables, at[n1], vpn);
    }
  }

  lemma LastLevel(tables: Tables, table: nat, vpn: nat)
    requires table in tables
    ensures var pte := tables[table][vpn % 0x200];
            Translate(tables, table, vpn, 0) == if pte.v then pte else NONE
  {
  }

  lemma MiddleLevel(tables: Tables, table: nat, vpn: nat)
    requires table in tables
    ensures var pte := tables[table][vpn / 0x200 % 0x200];
            Translate(tables, table, vpn, 1) == if pte.v && !Leaf(pte) then Translate(tables, pte.ppn, vpn, 0) else NONE
  {
  }

  /** Distinct pages reach distinct slots. */
  lemma DistinctSlots(tables: Tables, at: map<Node, nat>, a: nat, b: nat)
    requires Tree(tables, at) && Node(0, a / ENTRIES) in at && Node(0, b / ENTRIES) in at
    requires at[Node(0, a / ENTRIES)] == at[Node(0, b / ENTRIES)] && a % ENTRIES == b % ENTRIES
    ensures a == b
  {
    assert Node(0, a / ENTRIES) == Node(0, b / ENTRIES);
    assert a == a / ENTRIES * ENTRIES + a % ENTRIES && b == b / ENTRIES * ENTRIES + b % ENTRIES;
  }

  // Tables elsewhere do not matter.
  lemma Elsewhere(tables: Tables, tables': Tables, at: map<Node, nat>)
    requires Tree(tables, at) && forall n :: n in at ==> at[n] in tables' && tables'[at[n]] == tables[at[n]]
    ensures SameFlat(tables, at, tables', at)
  {
    forall n | n in at ensures NodeOk(tables', at, n) {
      assert NodeOk(tables, at, n);
    }
  }

  // Writing a leaf slot changes the entry of one virtual page.
  lemma SetLeaf(tables: Tables, at: map<Node, nat>, vpn: nat, pte: Pte)
    requires Tree(tables, at) && Node(0, vpn / ENTRIES) in at
    ensures var p := at[Node(0, vpn / ENTRIES)];
            && p in tables && Tree(tables[p := tables[p][vpn % ENTRIES := pte]], at)
            && forall v: nat ::
              Flat(tables[p := tables[p][vpn % ENTRIES := pte]], at, v) == if v == vpn then pte else Flat(tables, at, v)
  {
    var n := Node(0, vpn / ENTRIES);
    assert NodeOk(tables, at, n);
    var tables' := tables[at[n] := tables[at[n]][vpn % ENTRIES := pte]];
    forall m | m in at ensures NodeOk(tables', at, m) {
      assert NodeOk(tables, at, m);
    }
    forall v: nat ensures Flat(tables', at, v) == if v == vpn then pte else Flat(tables, at, v) {
      if Node(0, v / ENTRIES) in at && at[Node(0, v / ENTRIES)] == at[n] && v % ENTRIES == vpn % ENTRIES {
        DistinctSlots(tables, at, v, vpn);
      }
    }
  }

  /** A new, blank table hung under entry i of node n. */
  ghost function Hung(tables: Tables, at: map<Node, nat>, n: Node, i: nat, p: nat): Tables
    requires n in at && at[n] in tables && i < ENTRIES
  {
    tables[p := Blank()][at[n] := tables[at[n]][i := NONE.(ppn := p, v := true)]]
  }

  lemma HungNode(tables: Tables, at: map<Node, nat>, n: Node, i: nat, p: nat, m: Node)
    requires Tree(tables, at) && n in at && n.l > 0 && i < ENTRIES && Child(n, i) !in at && p !in at.Values && m in at
    ensures at[n] in tables && NodeOk(Hung(tables, at, n, i, p), at[Child(n, i) := p], m)
  {
    assert NodeOk(tables, at, n) && NodeOk(tables, at, m);
    var at', tables' := at[Child(n, i) := p], Hung(tables, at, n, i, p);
    if m.l > 0 {
      forall j | 0 <= j < ENTRIES ensures EntryOk(tables'[at'[m]][j], at', Child(m, j)) {
        ChildParent(m, j);
        ChildParent(n, i);
        assert EntryOk(tables[at[m]][j], at, Child(m, j));
      }
    }
  }

  lemma NoOrphans(tables: Tables, at: map<Node, nat>, c: Node, j: nat)
    requires Tree(tables, at) && c !in at && c.l > 0 && c.l < 2 && j < ENTRIES
    ensures Child(c, j) !in at
  {
    ChildParent(c, j);
    assert Child(c, j) in at ==> NodeOk(tables, at, Child(c, j));
  }

  // Adding an interior table changes no translation.
  lemma AddNode(tables: Tables, at: map<Node, nat>, n: Node, i: nat, p: nat)
    requires Tree(tables, at) && n in at && n.l > 0 && i < ENTRIES && Child(n, i) !in at && p !in at.Values
    ensures at[n] in tables && SameFlat(tables, at, Hung(tables, at, n, i, p), at[Child(n, i) := p])
  {
    assert NodeOk(tables, at, n);
    var c := Child(n, i);
    var at', tables' := at[c := p], Hung(tables, at, n, i, p);
    ChildParent(n, i);
    if c.l > 0 {
      forall j | 0 <= j < ENTRIES ensures EntryOk(tables'[p][j], at', Child(c, j)) {
        NoOrphans(tables, at, c, j);
      }
    }
    assert NodeOk(tables', at', c);
    forall m | m in at' ensures NodeOk(tables', at', m) {
      if m != c { HungNode(tables, at, n, i, p, m); }
    }
    assert Tree(tables', at');
    forall v: nat ensures Flat(tables', at', v) == Flat(tables, at, v) {
      var f := Node(0, v / ENTRIES);
      if f in at { assert NodeOk(tables, at, f); }
    }
  }

  // ----- Subtrees -----

  /** Node m is n or below it. */
  predicate Under(m: Node, n: Node)
    decreases n.l - m.l
  {
    m == n || (m.l < n.l && Under(Parent(m), n))
  }

  /** What is left of the tree without node n and all below. */
  ghost predicate Without(at: map<Node, nat>, n: Node, at': map<Node, nat>) {
    && (forall m :: m in at' <==> m in at && !Under(m, n))
    && (forall m :: m in at' ==> at'[m] == at[m])
  }

  /** No leaf entry is valid. */
  ghost predicate ClearLeaves(tables: Tables, at: map<Node, nat>) {
    forall m, j :: m in at && m.l == 0 && at[m] in tables && 0 <= j < ENTRIES ==> !tables[at[m]][j].v
  }

  lemma UnderChild(n: Node, i: nat, m: Node, j: nat)
    requires n.l > 0 && m.l > 0 && i < ENTRIES && j < ENTRIES && !Under(m, Child(n, i))
    ensures Under(Child(m, j), Child(n, i)) <==> m == n && j == i
  {
    ChildParent(m, j);
    ChildParent(n, i);
  }

  // Cutting off a child whose entry has been cleared leaves a tree.
  lemma PruneTree(t: Tables, at: map<Node, nat>, n: Node, i: nat, t': Tables, at': map<Node, nat>)
    requires Tree(t, at) && n in at && n.l > 0 && i < ENTRIES && Without(at, Child(n, i), at') && at[n] in t
    requires forall m :: m in at' ==>
               at[m] in t && at[m] in t' && t'[at[m]] == if m == n then t[at[n]][i := NONE] else t[at[m]]
    ensures Tree(t', at') && n in at'
  {
    assert !Under(n, Child(n, i));
    forall m | m in at' ensures NodeOk(t', at', m) {
      assert NodeOk(t, at, m);
      if m.l > 0 {
        forall j | 0 <= j < ENTRIES ensures EntryOk(t'[at'[m]][j], at', Child(m, j)) {
          UnderChild(n, i, m, j);
          assert EntryOk(t[at[m]][j], at, Child(m, j));
        }
      }
    }
    assert ROOT in at' by { RootAbove(Child(n, i)); }
  }

  lemma RootAbove(c: Node)
    requires c.l < 2
    ensures !Under(ROOT, c)
  {
  }

  // With no children left, nothing but n is below n.
  lemma {:induction false} Childless(tables: Tables, at: map<Node, nat>, n: Node, m: Node)
    requires Tree(tables, at) && n in at && m in at && Under(m, n)
    requires (n.l > 0 ==> forall j :: 0 <= j < ENTRIES ==> Child(n, j) !in at)
    ensures m == n
    decreases n.l - m.l
  {
    if m != n {
      assert NodeOk(tables, at, m) && NodeOk(tables, at, n);
      ParentChild(m);
      Childless(tables, at, n, Parent(m));
    }
  }

  lemma {:induction false} AllUnderRoot(tables: Tables, at: map<Node, nat>, m: Node)
    requires Tree(tables, at) && m in at
    ensures Under(m, ROOT)
    decreases 2 - m.l
  {
    assert NodeOk(tables, at, m);
    if m != ROOT {
      AllUnderRoot(tables, at, Parent(m));
    }
  }

  // Cutting off a child, then the rest of the node.
  lemma {:induction false} UnderTrans(m: Node, c: Node, n: Node)
    requires Under(m, c) && Under(c, n)
    ensures Under(m, n)
    decreases c.l - m.l
  {
    if m != c {
      UnderTrans(Parent(m), c, n);
      UnderLower(Parent(m), n);
    }
  }

  lemma UnderLower(m: Node, n: Node)
    requires Under(m, n)
    ensures m.l <= n.l
  {
  }
}
