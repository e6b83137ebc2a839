/** copyin, copyout and copyinstr of kernel/vm.c against byte-by-byte translation. */
module VmCopy {
  import opened Machine
  import opened VmTree
  import opened Vm

  /** The user may access virtual page v. */
  ghost predicate UserPage(t: Tables, at: map<Node, nat>, v: nat)
    requires Tree(t, at)
  {
    v < MAXVPN && Flat(t, at, v).v && Flat(t, at, v).u
  }

  /** User entries point at data pages. */
  ghost predicate Backed(t: Tables, at: map<Node, nat>, data: map<nat, Page>)
    requires Tree(t, at)
  {
    forall v: nat :: UserPage(t, at, v) ==> Flat(t, at, v).ppn in data
  }

  /** ... each at its own. */
  ghost predicate Unaliased(t: Tables, at: map<Node, nat>)
    requires Tree(t, at)
  {
    forall v: nat, w: nat :: UserPage(t, at, v) && UserPage(t, at, w) && v != w ==>
      Flat(t, at, v).ppn != Flat(t, at, w).ppn
  }

  ghost predicate UserAddr(t: Tables, at: map<Node, nat>, va: nat)
    requires Tree(t, at)
  {
    UserPage(t, at, va / PGSIZE)
  }

  ghost function UserByte(t: Tables, at: map<Node, nat>, data: map<nat, Page>, va: nat): byte
    requires Tree(t, at) && Backed(t, at, data) && UserAddr(t, at, va)
  {
    data[Flat(t, at, va / PGSIZE).ppn][va % PGSIZE]
  }

  /** All of bytes is what the user finds at va on. */
  ghost predicate Reads(t: Tables, at: map<Node, nat>, data: map<nat, Page>, va: nat, bytes: seq<byte>)
    requires Tree(t, at) && Backed(t, at, data)
  {
    forall a: nat :: va <= a < va + |bytes| ==> UserAddr(t, at, a) && UserByte(t, at, data, a) == bytes[a - va]
  }

  // The bytes from va to the end of its page.
  lemma WithinPage(va: nat, n: nat, k: nat)
    requires n <= PGSIZE - va % PGSIZE && k < n
    ensures (va + k) / PGSIZE == va / PGSIZE && (va + k) % PGSIZE == va % PGSIZE + k
  {
  }

  /** From va to the end of its page, at most `left`. */
  function Chunk(va: nat, left: nat): (n: nat)
    requires left > 0
    ensures 0 < n <= left && n <= PGSIZE - va % PGSIZE && (n < left ==> (va + n) % PGSIZE == 0)
  {
    if PGSIZE - va % PGSIZE > left then left else PGSIZE - va % PGSIZE
  }

  /** walkaddr */
  method Walkaddr(m: Memory, root: nat, va: nat, ghost at: map<Node, nat>) returns (ok: bool, ppn: nat)
    requires m.Valid() && m.Space(root, at)
    modifies m
    ensures m.free == old(m.free) && m.tables == old(m.tables) && m.data == old(m.data)
    ensures ok <==> UserAddr(m.tables, at, va)
    ensures ok ==> ppn == Flat(m.tables, at, va / PGSIZE).ppn
  {
    hide Tree, Flat;
    var v := va / PGSIZE;
    if v >= MAXVPN {
      return false, 0;
    }
    var found, page;
    ghost var at';
    found, page, at' := m.Walk(root, v, false, at);
    FlatIs(m.tables, at, v);
    if !found {
      return false, 0;
    }
    var pte := m.tables[page][v % ENTRIES];
    if !pte.v || !pte.u {
      return false, 0;
    }
    return true, pte.ppn;
  }

  /** copyin: the bytes at srcva, exactly when the user could read all of them. */
  method Copyin(m: Memory, root: nat, srcva: nat, len: nat, ghost at: map<Node, nat>) returns (ok: bool, dst: seq<byte>)
    requires m.Valid() && m.Space(root, at) && Backed(m.tables, at, m.data)
    modifies m
    ensures m.free == old(m.free) && m.tables == old(m.tables) && m.data == old(m.data)
    ensures ok <==> forall a: nat :: srcva <= a < srcva + len ==> UserAddr(m.tables, at, a)
    ensures ok ==> |dst| == len && Reads(m.tables, at, m.data, srcva, dst)
  {
    hide Tree, Flat, UserByte, UserAddr;
    dst := [];
    while |dst| < len
      invariant m.free == old(m.free) && m.tables == old(m.tables) && m.data == old(m.data) && |dst| <= len
      invariant Reads(m.tables, at, m.data, srcva, dst)
      decreases len - |dst|
    {
      var va := srcva + |dst|;
      var found, ppn;
      found, ppn := Walkaddr(m, root, va, at);
      if !found {
        return false, dst;
      }
      var n := Chunk(va, len - |dst|);
      ChunkRead(m.tables, at, m.data, va, n);
      var piece := m.data[ppn][va % PGSIZE..va % PGSIZE + n];
      ReadsMore(m.tables, at, m.data, srcva, dst, piece);
      dst := dst + piece;
    }
    ok := true;
  }

  lemma ChunkRead(t: Tables, at: map<Node, nat>, data: map<nat, Page>, va: nat, n: nat)
    requires Tree(t, at) && Backed(t, at, data) && UserAddr(t, at, va) && n <= PGSIZE - va % PGSIZE
    ensures Flat(t, at, va / PGSIZE).ppn in data
    ensures Reads(t, at, data, va, data[Flat(t, at, va / PGSIZE).ppn][va % PGSIZE..va % PGSIZE + n])
  {
    hide Tree, Flat;
    forall a: nat | va <= a < va + n ensures a / PGSIZE == va / PGSIZE && a % PGSIZE == va % PGSIZE + (a - va) {
      WithinPage(va, n, a - va);
    }
  }

  lemma ReadsMore(t: Tables, at: map<Node, nat>, data: map<nat, Page>, va: nat, x: seq<byte>, y: seq<byte>)
    requires Tree(t, at) && Backed(t, at, data) && Reads(t, at, data, va, x) && Reads(t, at, data, va + |x|, y)
    ensures Reads(t, at, data, va, x + y)
  {
    hide Tree, Flat, UserByte, UserAddr;
  }

  // ----- copyout -----

  /** From data d to d', exactly the user bytes at va on have become `bytes`; other pages are untouched. */
  ghost predicate Wrote(t: Tables, at: map<Node, nat>, d: map<nat, Page>, d': map<nat, Page>, va: nat, bytes: seq<byte>)
    requires Tree(t, at) && Backed(t, at, d)
  {
    && d'.Keys == d.Keys && Backed(t, at, d')
    && (forall a: nat :: UserAddr(t, at, a) ==>
          UserByte(t, at, d', a) == if va <= a < va + |bytes| then bytes[a - va] else UserByte(t, at, d, a))
    && (forall q :: q in d && (forall v: nat :: UserPage(t, at, v) ==> Flat(t, at, v).ppn != q) ==> d'[q] == d[q])
  }

  function Patch(page: Page, o: nat, bytes: seq<byte>): Page
    requires o + |bytes| <= PGSIZE
  {
    page[..o] + bytes + page[o + |bytes|..]
  }

  lemma PatchAt(page: Page, o: nat, bytes: seq<byte>, i: nat)
    requires o + |bytes| <= PGSIZE && i < PGSIZE
    ensures Patch(page, o, bytes)[i] == if o <= i < o + |bytes| then bytes[i - o] else page[i]
  {
  }

  // One chunk.
  lemma ChunkWrote(t: Tables, at: map<Node, nat>, d: map<nat, Page>, va: nat, bytes: seq<byte>)
    requires Tree(t, at) && Backed(t, at, d) && Unaliased(t, at) && UserAddr(t, at, va)
    requires |bytes| <= PGSIZE - va % PGSIZE
    ensures var ppn := Flat(t, at, va / PGSIZE).ppn;
            ppn in d && Wrote(t, at, d, d[ppn := Patch(d[ppn], va % PGSIZE, bytes)], va, bytes)
  {
    hide Tree, Flat, Patch;
    var ppn := Flat(t, at, va / PGSIZE).ppn;
    var d' := d[ppn := Patch(d[ppn], va % PGSIZE, bytes)];
    forall a: nat | UserAddr(t, at, a)
      ensures UserByte(t, at, d', a) == if va <= a < va + |bytes| then bytes[a - va] else UserByte(t, at, d, a)
    {
      PatchAt(d[ppn], va % PGSIZE, bytes, a % PGSIZE);
      SamePage(va, |bytes|, a);
      if a / PGSIZE != va / PGSIZE {
        assert Flat(t, at, a / PGSIZE).ppn != ppn;
      }
    }
  }

  lemma SamePage(va: nat, n: nat, a: nat)
    requires n <= PGSIZE - va % PGSIZE
    ensures va <= a < va + n <==> a / PGSIZE == va / PGSIZE && va % PGSIZE <= a % PGSIZE < va % PGSIZE + n
    ensures va <= a < va + n ==> a % PGSIZE - va % PGSIZE == a - va
  {
  }

  lemma WroteMore(t: Tables, at: map<Node, nat>, d: map<nat, Page>, d1: map<nat, Page>, d2: map<nat, Page>, va: nat,
                  x: seq<byte>, y: seq<byte>)
    requires Tree(t, at) && Backed(t, at, d) && Wrote(t, at, d, d1, va, x) && Wrote(t, at, d1, d2, va + |x|, y)
    ensures Wrote(t, at, d, d2, va, x + y)
  {
    hide Tree, Flat, UserByte, UserAddr, Backed;
  }

  lemma WroteNone(t: Tables, at: map<Node, nat>, d: map<nat, Page>, va: nat)
    requires Tree(t, at) && Backed(t, at, d)
    ensures Wrote(t, at, d, d, va, [])
  {
  }

  /** copyout: the user sees `src` at dstva and nothing else changed, exactly when all of it is the user's;
      otherwise the part before the first page that is not. */
  method Copyout(m: Memory, root: nat, dstva: nat, src: seq<byte>, ghost at: map<Node, nat>)
    returns (ok: bool, ghost n: nat)
    requires m.Valid() && m.Space(root, at) && Backed(m.tables, at, m.data) && Unaliased(m.tables, at)
    modifies m
    ensures m.Valid() && m.free == old(m.free) && m.tables == old(m.tables)
    ensures ok <==> forall a: nat :: dstva <= a < dstva + |src| ==> UserAddr(m.tables, at, a)
    ensures n <= |src| && (ok ==> n == |src|) && Wrote(m.tables, at, old(m.data), m.data, dstva, src[..n])
    ensures !ok ==> n < |src| && !UserAddr(m.tables, at, dstva + n)
  {
    hide Tree, Flat, UserByte, UserAddr, Backed, Unaliased, Wrote, Patch;
    ghost var d0 := m.data;
    var done := 0;
    WroteNone(m.tables, at, d0, dstva);
    while done < |src|
      invariant m.Valid() && m.free == old(m.free) && m.tables == old(m.tables) && done <= |src|
      invariant Backed(m.tables, at, d0) && Wrote(m.tables, at, d0, m.data, dstva, src[..done])
      invariant forall a: nat :: dstva <= a < dstva + done ==> UserAddr(m.tables, at, a)
    {
      var va := dstva + done;
      var found, ppn;
      found, ppn := Walkaddr(m, root, va, at);
      if !found {
        return false, done;
      }
      var k := Chunk(va, |src| - done);
      ghost var d1 := m.data;
      WroteKeys(m.tables, at, d0, d1, dstva, src[..done]);
      ChunkWrote(m.tables, at, d1, va, src[done..done + k]);
      ChunkAddrs(m.tables, at, va, k);
      m.data := m.data[ppn := Patch(m.data[ppn], va % PGSIZE, src[done..done + k])];
      WroteKeys(m.tables, at, d1, m.data, va, src[done..done + k]);
      WroteMore(m.tables, at, d0, d1, m.data, dstva, src[..done], src[done..done + k]);
      assert src[..done] + src[done..done + k] == src[..done + k];
      done := done + k;
    }
    return true, done;
  }

  lemma WroteKeys(t: Tables, at: map<Node, nat>, d: map<nat, Page>, d': map<nat, Page>, va: nat, bytes: seq<byte>)
    requires Tree(t, at) && Backed(t, at, d) && Wrote(t, at, d, d', va, bytes)
    ensures d'.Keys == d.Keys && Backed(t, at, d')
  {
  }

  lemma ChunkAddrs(t: Tables, at: map<Node, nat>, va: nat, n: nat)
    requires Tree(t, at) && UserAddr(t, at, va) && n <= PGSIZE - va % PGSIZE
    ensures forall a: nat :: va <= a < va + n ==> UserAddr(t, at, a)
  {
    hide Flat, Tree;
    forall a: nat | va <= a < va + n ensures UserAddr(t, at, a) {
      SamePage(va, n, a);
    }
  }

  // ----- copyinstr -----

  /** There is a NUL k bytes on, and the user can read up to it. */
  ghost predicate Terminated(t: Tables, at: map<Node, nat>, data: map<nat, Page>, va: nat, k: nat)
    requires Tree(t, at) && Backed(t, at, data)
  {
    (forall a: nat :: va <= a <= va + k ==> UserAddr(t, at, a)) && UserByte(t, at, data, va + k) == 0
  }

  /** The position of the first NUL in a chunk, or its length. */
  method FirstNul(chunk: seq<byte>) returns (k: nat)
    ensures k <= |chunk| && (forall j :: 0 <= j < k ==> chunk[j] != 0) && (k < |chunk| ==> chunk[k] == 0)
  {
    k := 0;
    while k < |chunk|
      invariant k <= |chunk| && forall j :: 0 <= j < k ==> chunk[j] != 0
    {
      if chunk[k] == 0 {
        return;
      }
      k := k + 1;
    }
  }

  /** copyinstr: the string at srcva with its NUL, exactly when one ends within `max` readable bytes. */
  method Copyinstr(m: Memory, root: nat, srcva: nat, max: nat, ghost at: map<Node, nat>)
    returns (ok: bool, dst: seq<byte>)
    requires m.Valid() && m.Space(root, at) && Backed(m.tables, at, m.data)
    modifies m
    ensures m.free == old(m.free) && m.tables == old(m.tables) && m.data == old(m.data)
    ensures ok <==> exists k: nat :: k < max && Terminated(m.tables, at, m.data, srcva, k)
    ensures ok ==>
              0 < |dst| <= max && Reads(m.tables, at, m.data, srcva, dst) && dst[|dst| - 1] == 0 && forall j ::
                0 <= j < |dst| - 1 ==> dst[j] != 0
  {
    hide Tree, Flat, UserByte, UserAddr, Backed;
    dst := [];
    while |dst| < max
      invariant m.free == old(m.free) && m.tables == old(m.tables) && m.data == old(m.data) && |dst| <= max
      invariant Reads(m.tables, at, m.data, srcva, dst) && forall j :: 0 <= j < |dst| ==> dst[j] != 0
      decreases max - |dst|
    {
      var va := srcva + |dst|;
      var found, ppn;
      found, ppn := Walkaddr(m, root, va, at);
      if !found {
        NoStringYet(m.tables, at, m.data, srcva, dst, max);
        return false, dst;
      }
      var n := Chunk(va, max - |dst|);
      ChunkRead(m.tables, at, m.data, va, n);
      var chunk := m.data[ppn][va % PGSIZE..va % PGSIZE + n];
      var k := FirstNul(chunk);
      if k < n {
        ghost var d := dst;
        ReadsPrefix(m.tables, at, m.data, va, chunk, k + 1);
        ReadsMore(m.tables, at, m.data, srcva, dst, chunk[..k + 1]);
        dst := dst + chunk[..k + 1];
        StringFound(m.tables, at, m.data, srcva, dst);
        return true, dst;
      }
      ReadsMore(m.tables, at, m.data, srcva, dst, chunk);
      dst := dst + chunk;
    }
    NoStringIn(m.tables, at, m.data, srcva, dst);
    ok := false;
  }

  lemma ReadsPrefix(t: Tables, at: map<Node, nat>, data: map<nat, Page>, va: nat, x: seq<byte>, k: nat)
    requires Tree(t, at) && Backed(t, at, data) && Reads(t, at, data, va, x) && k <= |x|
    ensures Reads(t, at, data, va, x[..k])
  {
    hide Tree, Flat, UserByte, UserAddr;
  }

  lemma StringFound(t: Tables, at: map<Node, nat>, data: map<nat, Page>, va: nat, x: seq<byte>)
    requires Tree(t, at) && Backed(t, at, data) && Reads(t, at, data, va, x) && |x| > 0 && x[|x| - 1] == 0
    ensures Terminated(t, at, data, va, |x| - 1)
  {
    hide Tree, Flat, UserByte, UserAddr;
  }

  lemma NoStringIn(t: Tables, at: map<Node, nat>, data: map<nat, Page>, va: nat, x: seq<byte>)
    requires Tree(t, at) && Backed(t, at, data) && Reads(t, at, data, va, x) && forall j :: 0 <= j < |x| ==> x[j] != 0
    ensures forall k: nat :: k < |x| ==> !Terminated(t, at, data, va, k)
  {
    hide Tree, Flat, UserByte, UserAddr;
    forall k: nat | k < |x| ensures !Terminated(t, at, data, va, k) {
      assert UserByte(t, at, data, va + k) == x[va + k - va];
    }
  }

  lemma NoStringYet(t: Tables, at: map<Node, nat>, data: map<nat, Page>, va: nat, x: seq<byte>, max: nat)
    requires Tree(t, at) && Backed(t, at, data) && Reads(t, at, data, va, x) && (forall j :: 0 <= j < |x| ==> x[j] != 0)
    requires !UserAddr(t, at, va + |x|)
    ensures forall k: nat :: k < max ==> !Terminated(t, at, data, va, k)
  {
    hide Tree, Flat, UserByte, UserAddr;
    NoStringIn(t, at, data, va, x);
  }
}
