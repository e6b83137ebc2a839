/** kernel/file.c filewrite: a long write is cut into transactions small enough for the log. */
module File {
  import opened Machine
  import opened FsLayout
  import opened FsOwnership
  import opened FsContents
  import opened FsSpace
  import opened Fs

  /** The bytes filewrite puts into one transaction: the inode, the indirect block and two blocks of slop come
      off the budget, and each block of data may need a bitmap block. */
  const MAX_CHUNK: nat := (MAXOPBLOCKS - 1 - 1 - 2) / 2 * BSIZE

  /** A chunk logs at most four data blocks, four bitmap blocks, the indirect block and the inode block:
      an unaligned first block is already allocated, so it needs no bitmap block. */
  lemma ChunkFitsTransaction(off: nat, n: nat)
    requires n <= MAX_CHUNK
    ensures 2 * Spans(off, n) + 3 <= MAXOPBLOCKS + (if off % BSIZE != 0 && n > 0 then 1 else 0)
  {
    assert MAX_CHUNK == 3 * BSIZE;
  }

  /** No larger chunk would do: at MAX_CHUNK the bound is met exactly, and one byte more can pass it. */
  lemma ChunkIsLargest(off: nat)
    requires off % BSIZE == 1
    ensures 2 * Spans(off, MAX_CHUNK) + 3 == MAXOPBLOCKS + 1
    ensures 2 * Spans(off - 1, MAX_CHUNK + 1) + 3 > MAXOPBLOCKS
  {
    assert MAX_CHUNK == 3 * BSIZE;
  }

  /** Contents c after the first k bytes of src have gone to offset off of contents c0. */
  ghost predicate Done(c0: seq<byte>, c: seq<byte>, off: nat, src: seq<byte>, k: nat) {
    && k <= |src|
    && (k == 0 ==> c == c0)
    && (k > 0 ==> off <= |c0| && off + k <= |c| && c == Overwrite(c0, off, src[..k]))
  }

  /** The bytes below offset off + k are what a write of k bytes leaves there. */
  ghost predicate Prefix(c0: seq<byte>, c: seq<byte>, off: nat, src: seq<byte>, k: nat) {
    k <= |src| && (k > 0 ==> off <= |c0| && off + k <= |c| && c[..off + k] == c0[..off] + src[..k])
  }

  lemma DonePrefix(c0: seq<byte>, c: seq<byte>, off: nat, src: seq<byte>, k: nat)
    requires Done(c0, c, off, src, k)
    ensures Prefix(c0, c, off, src, k)
  {
  }

  // A further chunk that lands completely, or a short one that stops the loop.
  lemma NextChunk(c0: seq<byte>, c: seq<byte>, d: seq<byte>, off: nat, src: seq<byte>, k: nat, n1: nat, r: nat)
    requires Done(c0, c, off, src, k) && 0 < n1 && k + n1 <= |src| && r <= n1 && off + k <= |c|
    requires r == n1 ==> d == Overwrite(c, off + k, src[k..k + n1])
    requires off + k + r <= |d| && d[..off + k + r] == c[..off + k] + src[k..k + n1][..r]
    ensures r == n1 ==> Done(c0, d, off, src, k + n1)
    ensures Prefix(c0, d, off, src, k + r)
  {
    DonePrefix(c0, c, off, src, k);
    assert src[..k] + src[k..k + n1][..r] == src[..k + r];
    if k == 0 {
      assert src[0..n1] == src[..n1];
    } else {
      OverwriteTwice(c0, off, src[..k], src[k..k + n1]);
      assert src[..k] + src[k..k + n1] == src[..k + n1];
    }
  }

  /** Every file but i is what it was on disk d0. */
  ghost predicate OthersKept(d0: Disk, inodes0: Inodes, d: Disk, inodes: Inodes, i: nat) {
    && inodes.Keys == inodes0.Keys
    && forall j :: j in inodes && j != i ==>
         |inodes0[j].addrs| == |inodes[j].addrs| == NDIRECT + 1 && Contents(d, inodes[j]) == Contents(d0, inodes0[j])
  }

  /** One chunk between begin_op and end_op, the transaction starting with nothing logged. */
  method WriteTransaction(fs: Fs, i: nat, off: uint32, chunk: seq<byte>, readable: nat) returns (ok: bool, r: int)
    requires fs.Valid() && i in fs.inodes && 0 < |chunk| <= MAX_CHUNK
    modifies fs
    ensures ok ==> fs.Valid() && i in fs.inodes && |fs.logged| <= MAXOPBLOCKS
    ensures ok ==> OthersKept(old(fs.disk), old(fs.inodes), fs.disk, fs.inodes, i)
    ensures ok ==> (r == -1 <==> off > old(fs.inodes)[i].size || off + |chunk| > MAXFILE * BSIZE)
    ensures ok && r == -1 ==> fs.disk == old(fs.disk) && fs.inodes == old(fs.inodes) && fs.owner == old(fs.owner)
    ensures ok && r != -1 ==> 0 <= r <= |chunk| && (r == |chunk| <==> readable >= |chunk|)
    ensures ok && r == |chunk| ==> fs.File(i) == Overwrite(old(fs.File(i)), off, chunk)
    ensures ok && r != -1 ==> |fs.File(i)| >= off + r && fs.File(i)[..off + r] == old(fs.File(i))[..off] + chunk[..r]
    // it fails exactly for lack of free blocks
    ensures |old(fs.inodes)[i].addrs| == NDIRECT + 1
    ensures ok <==> || off > old(fs.inodes)[i].size || off + |chunk| > MAXFILE * BSIZE
                    || Enough(fs.sb, old(fs.disk), old(fs.inodes)[i], off, Tried(|chunk|, readable))
    ensures fs.Owned() && fs.loose == {} && (!ok ==> Full(fs.sb, fs.disk))
    ensures !ok || r != -1 ==> Filled(old(fs.owner), fs.owner, i, off, Tried(|chunk|, readable), ok)
    // every block changed since begin_op is part of the transaction, but for one whose new bytes could not be copied
    ensures ok ==> |fs.inodes[i].addrs| == NDIRECT + 1
    ensures ok ==> AllLogged({}, old(fs.disk), fs.logged, fs.disk, Torn(fs.disk, fs.inodes[i], off, r, |chunk|))
  {
    hide Own, HoleFree, Synced, Overwrite, Spans, Full, Filled, Enough, Tried, Contents,
      AllLogged, Torn;
    OwnShape(fs.sb, fs.disk, fs.inodes, fs.owner, fs.loose);
    fs.logged := {};
    ghost var touched;
    ok, r, touched := fs.Writei(i, chunk, off, readable);
    if ok {
      OwnShape(fs.sb, fs.disk, fs.inodes, fs.owner, fs.loose);
      ChunkFitsTransaction(off, |chunk|);
      SubsetBound(fs.logged, touched);
    }
  }

  /** How many of n bytes filewrite gets to: all, or the chunks that end within the largest file. */
  function Reach(off: nat, n: nat): nat {
    if off + n <= MAXFILE * BSIZE then n
    else if off > MAXFILE * BSIZE then 0
    else (MAXFILE * BSIZE - off) / MAX_CHUNK * MAX_CHUNK
  }

  /** Where a chunk begins, or the end. */
  ghost predicate ChunkStart(k: nat, n: nat) {
    k < n ==> k % MAX_CHUNK == 0
  }

  lemma FirstStart(n: nat)
    ensures ChunkStart(0, n)
  {
  }

  lemma ReachAt(off: nat, n: nat, k: nat)
    requires k <= n && ChunkStart(k, n) && (k > 0 ==> off + k <= MAXFILE * BSIZE)
    ensures var n1 := if n - k > MAX_CHUNK then MAX_CHUNK else n - k;
            if off + k + n1 > MAXFILE * BSIZE then Reach(off, n) == k else Reach(off, n) >= k + n1
    ensures k == n ==> Reach(off, n) == n
  {
    if off + n > MAXFILE * BSIZE && off <= MAXFILE * BSIZE {
      Multiple(MAXFILE * BSIZE - off, k);
    }
  }

  lemma Multiple(room: nat, k: nat)
    requires k % MAX_CHUNK == 0 && k <= room
    ensures if room < k + MAX_CHUNK then room / MAX_CHUNK * MAX_CHUNK == k
            else room / MAX_CHUNK * MAX_CHUNK >= k + MAX_CHUNK
  {
    assert MAX_CHUNK == 3072;
  }

  // The chunk at k either is beyond what filewrite gets to, or all of it within.
  lemma WithinReach(off: nat, n: nat, k: nat, readable: nat)
    requires k <= n && k <= readable && ChunkStart(k, n) && (k > 0 ==> off + k <= MAXFILE * BSIZE)
    ensures var n1 := if n - k > MAX_CHUNK then MAX_CHUNK else n - k;
            var all := Tried(Reach(off, n), readable);
            if off + k + n1 > MAXFILE * BSIZE then all == k
            else
              && k + Tried(n1, readable - k) <= all && (k < n ==> Tried(n1, readable - k) > 0)
              && if n1 > readable - k then k + Tried(n1, readable - k) == all else Tried(n1, readable - k) == n1
    ensures k == n ==> k == Tried(Reach(off, n), readable)
  {
    ReachAt(off, n, k);
    hide Reach;
  }

  lemma NextStart(k: nat, r: nat, n: nat)
    requires k < n && ChunkStart(k, n) && r == (if n - k > MAX_CHUNK then MAX_CHUNK else n - k)
    ensures ChunkStart(k + r, n)
  {
  }

  // A chunk for which there were not enough free blocks.
  lemma ChunkShort(sb: Super, d0: Disk, inodes0: Inodes, owner0: Owners, owner1: Owners, d: Disk, inodes: Inodes,
                   owner: Owners, i: nat, off: nat, k: nat, v: nat, all: nat)
    requires Own(sb, d0, inodes0, owner0, {}) && Own(sb, d, inodes, owner, {}) && i in inodes0 && Full(sb, d)
    requires 0 < v && k + v <= all && Filled(owner0, owner1, i, off, k, true)
    requires Filled(owner1, owner, i, off + k, v, false)
    ensures |inodes0[i].addrs| == NDIRECT + 1 && !Enough(sb, d0, inodes0[i], off, all)
  {
    hide Own, Full, Filled, Enough;
    FilledChunk(owner0, owner1, owner, i, off, k, v, false);
    FilledFarther(owner0, owner, i, off, k + v, all);
    FilledIff(sb, d0, inodes0, owner0, d, inodes, owner, i, off, all, false);
  }

  ghost function Union(txs: seq<set<nat>>): set<nat> {
    if txs == [] then {} else Union(txs[..|txs| - 1]) + txs[|txs| - 1]
  }

  lemma UnionNone(d: Disk)
    ensures AllLogged({}, d, Union([]), d, {})
  {
  }

  lemma UnionNext(d0: Disk, txs: seq<set<nat>>, d1: Disk, log: set<nat>, d2: Disk, but: set<nat>)
    requires AllLogged({}, d0, Union(txs), d1, {}) && AllLogged({}, d1, log, d2, but)
    ensures AllLogged({}, d0, Union(txs + [log]), d2, but)
  {
    assert (txs + [log])[..|txs|] == txs;
  }

  lemma TornLater(d: Disk, ip: Inode, off: nat, k: nat, r: int, n1: nat, n: nat)
    requires |ip.addrs| == NDIRECT + 1 && k + n1 <= n
    ensures r == n1 || r == -1 ==> Torn(d, ip, off + k, r, n1) == {}
    ensures 0 <= r < n1 ==> Torn(d, ip, off + k, r, n1) == Torn(d, ip, off, k + r, n)
  {
  }

  lemma LoggedBut(log0: set<nat>, d0: Disk, log: set<nat>, d: Disk, but: set<nat>)
    requires AllLogged(log0, d0, log, d, {})
    ensures AllLogged(log0, d0, log, d, but)
  {
  }

  /** What one transaction did, from b to c. */
  ghost predicate Chunked(b: View, c: View, i: nat, off: nat, chunk: seq<byte>, readable: nat, r: int)
    requires Shaped(b, i) && Shaped(c, i)
  {
    && |c.logged| <= MAXOPBLOCKS && OthersKept(b.disk, b.inodes, c.disk, c.inodes, i)
    && (r == -1 <==> off > b.inodes[i].size || off + |chunk| > MAXFILE * BSIZE)
    && (r == -1 ==> c.disk == b.disk && c.inodes == b.inodes && c.owner == b.owner)
    && (r != -1 ==> 0 <= r <= |chunk| && (r == |chunk| <==> readable >= |chunk|))
    && (r == |chunk| ==> Bytes(c, i) == Overwrite(Bytes(b, i), off, chunk))
    && (r != -1 ==>
          && off <= |Bytes(b, i)| && |Bytes(c, i)| >= off + r
          && Bytes(c, i)[..off + r] == Bytes(b, i)[..off] + chunk[..r]
          && Filled(b.owner, c.owner, i, off, Tried(|chunk|, readable), true))
    && AllLogged({}, b.disk, c.logged, c.disk, Torn(c.disk, c.inodes[i], off, r, |chunk|))
  }

  ghost predicate Shaped(a: View, i: nat) {
    i in a.inodes && |a.inodes[i].addrs| == NDIRECT + 1
  }

  ghost function Bytes(a: View, i: nat): (r: seq<byte>)
    requires Shaped(a, i)
    ensures |r| == a.inodes[i].size
  {
    Contents(a.disk, a.inodes[i])
  }

  /** filewrite's loop has written the first k bytes, from a to b. */
  ghost predicate Progress(a: View, b: View, txs: seq<set<nat>>, i: nat, off: nat, src: seq<byte>, k: nat,
                           readable: nat) {
    && Shaped(a, i) && Shaped(b, i) && k <= |src| && k <= readable && ChunkStart(k, |src|)
    && Done(Bytes(a, i), Bytes(b, i), off, src, k) && OthersKept(a.disk, a.inodes, b.disk, b.inodes, i)
    && Filled(a.owner, b.owner, i, off, k, true) && AllLogged({}, a.disk, Union(txs), b.disk, {})
    && (forall t :: 0 <= t < |txs| ==> |txs[t]| <= MAXOPBLOCKS)
    && if k == 0 then b.inodes[i].size == a.inodes[i].size
       else off + k <= MAXFILE * BSIZE && off + k <= b.inodes[i].size && off <= a.inodes[i].size
  }

  /** It has stopped after k of them. */
  ghost predicate Stopped(a: View, b: View, txs: seq<set<nat>>, i: nat, off: nat, src: seq<byte>, k: nat,
                          readable: nat) {
    && Shaped(a, i) && Shaped(b, i) && Prefix(Bytes(a, i), Bytes(b, i), off, src, k)
    && OthersKept(a.disk, a.inodes, b.disk, b.inodes, i)
    && (forall t :: 0 <= t < |txs| ==> |txs[t]| <= MAXOPBLOCKS)
    && AllLogged({}, a.disk, Union(txs), b.disk, Torn(b.disk, b.inodes[i], off, k, |src|))
    && !(readable >= |src| && off <= a.inodes[i].size && off + |src| <= MAXFILE * BSIZE)
    && (off <= a.inodes[i].size ==> Filled(a.owner, b.owner, i, off, Tried(Reach(off, |src|), readable), true))
  }

  lemma ProgressNone(a: View, i: nat, off: nat, src: seq<byte>, readable: nat)
    requires Shaped(a, i) && forall j :: j in a.inodes ==> |a.inodes[j].addrs| == NDIRECT + 1
    ensures Progress(a, a, [], i, off, src, 0, readable)
  {
    hide Contents, Filled;
    NothingDone(Bytes(a, i), off, src);
    OthersSame(a.disk, a.inodes, i);
    FilledNone(a.owner, i, off);
    UnionNone(a.disk);
  }

  lemma ProgressReadable(a: View, b: View, txs: seq<set<nat>>, i: nat, off: nat, src: seq<byte>, k: nat, readable: nat)
    requires Progress(a, b, txs, i, off, src, k, readable)
    ensures k <= readable && (k > 0 ==> off + k <= MAXFILE * BSIZE)
  {
  }

  lemma BytesSame(b: View, c: View, i: nat)
    requires Shaped(b, i) && Shaped(c, i) && c.disk == b.disk && c.inodes == b.inodes
    ensures Bytes(c, i) == Bytes(b, i)
  {
  }

  lemma ProgressNext(a: View, b: View, c: View, txs: seq<set<nat>>, i: nat, off: nat, src: seq<byte>, k: nat, n1: nat,
                     readable: nat, r: int)
    requires Progress(a, b, txs, i, off, src, k, readable) && Shaped(c, i)
    requires k < |src| && n1 == (if |src| - k > MAX_CHUNK then MAX_CHUNK else |src| - k)
    requires Chunked(b, c, i, off + k, src[k..k + n1], readable - k, r)
    ensures r == n1 ==> Progress(a, c, txs + [c.logged], i, off, src, k + n1, readable)
    ensures r != n1 ==> Stopped(a, c, txs + [c.logged], i, off, src, if r == -1 then k else k + r, readable)
  {
    hide Done, Prefix, OthersKept, Filled, Reach, ChunkStart, AllLogged, Torn, Union, Overwrite, Tried, Bytes;
    var txs' := txs + [c.logged];
    WithinReach(off, |src|, k, readable);
    OthersTwice(a.disk, a.inodes, b.disk, b.inodes, c.disk, c.inodes, i);
    UnionNext(a.disk, txs, b.disk, c.logged, c.disk, Torn(c.disk, c.inodes[i], off + k, r, n1));
    TornLater(c.disk, c.inodes[i], off, k, r, n1, |src|);
    DonePrefix(Bytes(a, i), Bytes(b, i), off, src, k);
    if r == -1 {
      BytesSame(b, c, i);
      LoggedBut({}, a.disk, Union(txs'), c.disk, Torn(c.disk, c.inodes[i], off, k, |src|));
    } else {
      NextChunk(Bytes(a, i), Bytes(b, i), Bytes(c, i), off, src, k, n1, r);
      FilledChunk(a.owner, b.owner, c.owner, i, off, k, Tried(n1, readable - k), true);
      NextStart(k, n1, |src|);
    }
  }

  lemma ProgressShort(sb: Super, a: View, b: View, c: View, txs: seq<set<nat>>, i: nat, off: nat, src: seq<byte>,
                      k: nat, n1: nat, readable: nat)
    requires Progress(a, b, txs, i, off, src, k, readable)
    requires k < |src| && n1 == (if |src| - k > MAX_CHUNK then MAX_CHUNK else |src| - k)
    requires off + k <= b.inodes[i].size && off + k + n1 <= MAXFILE * BSIZE
    requires Own(sb, a.disk, a.inodes, a.owner, {}) && Own(sb, c.disk, c.inodes, c.owner, {}) && Full(sb, c.disk)
    requires Filled(b.owner, c.owner, i, off + k, Tried(n1, readable - k), false)
    ensures off <= a.inodes[i].size
    ensures Shaped(a, i) && !Enough(sb, a.disk, a.inodes[i], off, Tried(Reach(off, |src|), readable))
  {
    hide Own, Full, Done, Prefix, OthersKept, Filled, Reach, ChunkStart, AllLogged, Union, Tried, Bytes, Enough;
    WithinReach(off, |src|, k, readable);
    ChunkShort(sb, a.disk, a.inodes, a.owner, b.owner, c.disk, c.inodes, c.owner, i, off, k, Tried(n1, readable - k),
               Tried(Reach(off, |src|), readable));
  }

  lemma StoppedIs(sb: Super, a: View, b: View, txs: seq<set<nat>>, i: nat, off: nat, src: seq<byte>, k: nat,
                  readable: nat)
    requires Stopped(a, b, txs, i, off, src, k, readable)
    requires Own(sb, a.disk, a.inodes, a.owner, {}) && Own(sb, b.disk, b.inodes, b.owner, {})
    ensures Shaped(a, i) && Shaped(b, i) && OthersKept(a.disk, a.inodes, b.disk, b.inodes, i)
    ensures forall t :: 0 <= t < |txs| ==> |txs[t]| <= MAXOPBLOCKS
    ensures Prefix(Contents(a.disk, a.inodes[i]), Contents(b.disk, b.inodes[i]), off, src, k)
    ensures AllLogged({}, a.disk, Union(txs), b.disk, Torn(b.disk, b.inodes[i], off, k, |src|))
    ensures !(readable >= |src| && off <= a.inodes[i].size && off + |src| <= MAXFILE * BSIZE)
    ensures off > a.inodes[i].size || Enough(sb, a.disk, a.inodes[i], off, Tried(Reach(off, |src|), readable))
  {
    hide Own, Prefix, OthersKept, Filled, Reach, AllLogged, Torn, Union, Tried, Contents, Enough;
    if off <= a.inodes[i].size {
      var all := Tried(Reach(off, |src|), readable);
      FilledIff(sb, a.disk, a.inodes, a.owner, b.disk, b.inodes, b.owner, i, off, all, true);
    }
  }

  lemma ProgressDone(sb: Super, a: View, b: View, txs: seq<set<nat>>, i: nat, off: nat, src: seq<byte>, readable: nat)
    requires Progress(a, b, txs, i, off, src, |src|, readable)
    requires Own(sb, a.disk, a.inodes, a.owner, {}) && Own(sb, b.disk, b.inodes, b.owner, {})
    ensures Shaped(a, i) && Shaped(b, i) && OthersKept(a.disk, a.inodes, b.disk, b.inodes, i)
    ensures forall t :: 0 <= t < |txs| ==> |txs[t]| <= MAXOPBLOCKS
    ensures Done(Contents(a.disk, a.inodes[i]), Contents(b.disk, b.inodes[i]), off, src, |src|)
    ensures Prefix(Contents(a.disk, a.inodes[i]), Contents(b.disk, b.inodes[i]), off, src, |src|)
    ensures AllLogged({}, a.disk, Union(txs), b.disk, {})
    ensures src == [] || (readable >= |src| && off <= a.inodes[i].size && off + |src| <= MAXFILE * BSIZE)
    ensures Enough(sb, a.disk, a.inodes[i], off, Tried(Reach(off, |src|), readable))
  {
    hide Own, Done, Prefix, OthersKept, Filled, Reach, ChunkStart, AllLogged, Union, Tried, Contents, Enough;
    WithinReach(off, |src|, |src|, readable);
    DonePrefix(Contents(a.disk, a.inodes[i]), Contents(b.disk, b.inodes[i]), off, src, |src|);
    FilledIff(sb, a.disk, a.inodes, a.owner, b.disk, b.inodes, b.owner, i, off, |src|, true);
  }

  /** filewrite on an inode: either every byte lands, or -1 is returned; every transaction fits. `txs`
      collects the blocks each transaction logs, `newOff` is f->off afterwards. */
  method FileWrite(fs: Fs, i: nat, off: uint32, src: seq<byte>, readable: nat)
    returns (ok: bool, ret: int, newOff: nat, ghost txs: seq<set<nat>>)
    requires fs.Valid() && i in fs.inodes && |src| < 0x8000_0000
    modifies fs
    ensures ok ==> fs.Valid() && i in fs.inodes && off <= newOff
    ensures ok ==> forall t :: 0 <= t < |txs| ==> |txs[t]| <= MAXOPBLOCKS
    ensures ok ==> OthersKept(old(fs.disk), old(fs.inodes), fs.disk, fs.inodes, i)
    ensures ok ==>
              (ret == |src| && newOff == off + |src| && Done(old(fs.File(i)), fs.File(i), off, src, |src|)) || ret == -1
    ensures ok ==> Prefix(old(fs.File(i)), fs.File(i), off, src, newOff - off)
    ensures ok ==>
              (ret == |src| <==>
               src == [] ||
               (readable >= |src| && off <= old(fs.inodes)[i].size && off + |src| <= MAXFILE * BSIZE))
    ensures src == [] ==> ok
    // every block that changed is in one of the transactions, but for one whose new bytes could not be copied
    ensures ok ==> |fs.inodes[i].addrs| == NDIRECT + 1
    ensures ok ==> AllLogged({}, old(fs.disk), Union(txs), fs.disk,
                             if ret == |src| then {} else Torn(fs.disk, fs.inodes[i], off, newOff - off, |src|))
    // balloc panics exactly when fewer blocks were free than the bytes all chunks together get to lack
    ensures |old(fs.inodes)[i].addrs| == NDIRECT + 1
    ensures ok <==> || off > old(fs.inodes)[i].size
                    || Enough(fs.sb, old(fs.disk), old(fs.inodes)[i], off, Tried(Reach(off, |src|), readable))
  {
    hide Own, HoleFree, Synced, Done, Prefix, OthersKept, Full, Contents, Filled, Enough, Reach, Tried, AllLogged, Torn,
      Union, Overwrite, Progress, Stopped;
    OwnShape(fs.sb, fs.disk, fs.inodes, fs.owner, fs.loose);
    ghost var a := fs.Now();
    var k := 0;
    txs := [];
    newOff, ret := off, -1;
    ProgressNone(a, i, off, src, readable);
    while k < |src|
      invariant fs.Valid() && i in fs.inodes && k <= |src| && newOff == off + k && |fs.inodes[i].addrs| == NDIRECT + 1
      invariant Progress(a, fs.Now(), txs, i, off, src, k, readable)
    {
      ProgressReadable(a, fs.Now(), txs, i, off, src, k, readable);
      var n1 := if |src| - k > MAX_CHUNK then MAX_CHUNK else |src| - k;
      ghost var b := fs.Now();
      var r;
      ok, r := WriteTransaction(fs, i, newOff, src[k..k + n1], readable - k);
      if !ok {
        ProgressShort(fs.sb, a, b, fs.Now(), txs, i, off, src, k, n1, readable);
        return;
      }
      OwnShape(fs.sb, fs.disk, fs.inodes, fs.owner, fs.loose);
      assert Chunked(b, fs.Now(), i, newOff, src[k..k + n1], readable - k, r);
      ProgressNext(a, b, fs.Now(), txs, i, off, src, k, n1, readable, r);
      txs := txs + [fs.logged];
      if r >= 0 {
        newOff := newOff + r;
      }
      if r != n1 {
        StoppedIs(fs.sb, a, fs.Now(), txs, i, off, src, newOff - off, readable);
        return;
      }
      k := k + r;
    }
    ProgressDone(fs.sb, a, fs.Now(), txs, i, off, src, readable);
    ret := k;
    ok := true;
  }

  lemma ContentsSize(d: Disk, ip: Inode)
    requires |ip.addrs| == NDIRECT + 1
    ensures |Contents(d, ip)| == ip.size
  {
  }

  lemma NothingDone(c: seq<byte>, off: nat, src: seq<byte>)
    ensures Done(c, c, off, src, 0)
  {
  }

  lemma OthersSame(d: Disk, inodes: Inodes, i: nat)
    requires forall j :: j in inodes ==> |inodes[j].addrs| == NDIRECT + 1
    ensures OthersKept(d, inodes, d, inodes, i)
  {
  }

  lemma OthersTwice(d0: Disk, inodes0: Inodes, d1: Disk, inodes1: Inodes, d2: Disk, inodes2: Inodes, i: nat)
    requires OthersKept(d0, inodes0, d1, inodes1, i) && OthersKept(d1, inodes1, d2, inodes2, i)
    ensures OthersKept(d0, inodes0, d2, inodes2, i)
  {
    hide Contents;
  }
}
