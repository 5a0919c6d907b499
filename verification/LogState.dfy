/** What the log (kernel/log.c) and the buffer cache (kernel/bio.c) must agree on: which buffers
    are pinned or held, and how far the writes of a commit have come. */
module LogState {
  import opened Disk
  import opened LogDisk
  import opened LogCrash
  import opened Buffers

  ghost predicate InCache(buf: seq<Buf>, b: nat) {
    exists i: nat :: HoldsBlock(buf, i, b)
  }

  ghost predicate Held(buf: seq<Buf>, b: nat) {
    exists i: nat :: HoldsBlock(buf, i, b) && buf[i].locked
  }

  /** bpin is held once on the buffer of each of these blocks, and on no other. */
  ghost predicate Pinned(buf: seq<Buf>, pins: seq<nat>, blocks: seq<nat>) {
    && |buf| == |pins| == NBUF
    && (forall i :: 0 <= i < NBUF ==>
          pins[i] == if buf[i].dev == ROOTDEV && buf[i].blockno in blocks then 1 else 0)
    && (forall k :: 0 <= k < |blocks| ==> InCache(buf, blocks[k]))
  }

  /** Nobody uses a buffer of the log area, and nobody has locked a logged block. */
  ghost predicate Free(l: Layout, lh: seq<nat>, buf: seq<Buf>) {
    forall i :: 0 <= i < |buf| ==>
      && (buf[i].dev == ROOTDEV && !l.Home(buf[i].blockno) ==> buf[i].refcnt == 0)
      && (buf[i].locked ==> buf[i].blockno !in lh)
  }

  ghost predicate SomeUnused(buf: seq<Buf>) {
    exists i :: 0 <= i < |buf| && buf[i].refcnt == 0
  }

  /** From buf0 to buf, buffers in use have kept their blocks; an unused one may
      have been recycled for a block of the log area, or for block h. */
  ghost predicate Kept(l: Layout, h: nat, buf0: Buf, buf: Buf) {
    || (buf.dev == buf0.dev && buf.blockno == buf0.blockno && (buf0.valid ==> buf.valid))
    || (buf0.refcnt == 0 && buf.dev == ROOTDEV && (!l.Home(buf.blockno) || buf.blockno == h))
  }

  /** The transaction a log header describes, with the contents clients left. */
  ghost function TxnOf(l: Layout, lh: seq<nat>, latest: Image): (t: Txn)
    requires |lh| <= LOGBLOCKS && Loggable(l, lh) && |latest| == l.size
    ensures t.Valid(l) && t.blocks == lh
    ensures forall i :: 0 <= i < |lh| ==> l.Home(lh[i]) && t.data[i] == latest[lh[i]]
  {
    Txn(lh, seq(|lh|, i requires 0 <= i < |lh| => assert l.Home(lh[i]); latest[lh[i]]))
  }

  /** The writes ws have been done since disk0 and writes0, the home blocks are
      seen as in latest0, and the log area as it is on disk. */
  ghost predicate Progress(l: Layout, disk0: Image, latest0: Image, writes0: seq<Write>, ws: seq<Write>,
                           disk: Image, latest: Image, writes: seq<Write>) {
    && |disk| == |latest| == |disk0| == |latest0| == l.size && InRange(disk0, ws)
    && disk == Apply(disk0, ws) && writes == writes0 + ws
    && (forall b: nat :: l.Home(b) ==> latest[b] == latest0[b])
    && (forall b: nat :: b < l.size && !l.Home(b) ==> latest[b] == disk[b])
  }

  /** One more write keeps this up, if a home block only ever gets what clients
      already see in it. */
  lemma {:induction false} ProgressStep(l: Layout, disk0: Image, latest0: Image, writes0: seq<Write>, ws: seq<Write>,
                                        disk: Image, latest: Image, writes: seq<Write>, w: Write)
    requires l.Valid() && Progress(l, disk0, latest0, writes0, ws, disk, latest, writes)
    requires w.bno < l.size && (l.Home(w.bno) ==> w.data == latest0[w.bno])
    ensures Progress(l, disk0, latest0, writes0, ws + [w], disk[w.bno := w.data], latest[w.bno := w.data], writes + [w])
  {
    ApplyAppend(disk0, ws, w);
    assert writes0 + ws + [w] == writes0 + (ws + [w]);
  }

  /** The log write of one entry. */
  lemma {:induction false} LogProgress(l: Layout, disk0: Image, latest0: Image, writes0: seq<Write>, ws: seq<Write>,
                                       k: nat, w: Write,
                                       disk1: Image, latest1: Image, writes1: seq<Write>,
                                       disk: Image, latest: Image, writes: seq<Write>)
    requires l.Valid() && k < |ws| && w == ws[k] && w.bno < l.size && !l.Home(w.bno)
    requires Progress(l, disk0, latest0, writes0, ws[..k], disk1, latest1, writes1)
    requires disk == disk1[w.bno := w.data] && latest == latest1[w.bno := w.data] && writes == writes1 + [w]
    ensures Progress(l, disk0, latest0, writes0, ws[..k + 1], disk, latest, writes)
  {
    ProgressStep(l, disk0, latest0, writes0, ws[..k], disk1, latest1, writes1, w);
    assert ws[..k + 1] == ws[..k] + [w];
  }

  /** So do the home writes of a transaction holding what clients see. */
  lemma {:induction false} ProgressInstall(l: Layout, disk0: Image, latest0: Image, writes0: seq<Write>, ws: seq<Write>,
                                           disk: Image, latest: Image, writes: seq<Write>, t: Txn)
    requires l.Valid() && Progress(l, disk0, latest0, writes0, ws, disk, latest, writes) && t.Valid(l)
    requires forall i :: 0 <= i < |t.blocks| ==> l.Home(t.blocks[i]) && t.data[i] == latest0[t.blocks[i]]
    ensures InRange(disk, HomeWrites(t)) && InRange(latest, HomeWrites(t))
    ensures InRange(disk0, ws + HomeWrites(t))
    ensures Progress(l, disk0, latest0, writes0, ws + HomeWrites(t),
                     Apply(disk, HomeWrites(t)), Apply(latest, HomeWrites(t)), writes + HomeWrites(t))
  {
    ApplyConcat(disk0, ws, HomeWrites(t));
    assert writes0 + ws + HomeWrites(t) == writes0 + (ws + HomeWrites(t));
    SeenInstall(l, disk, latest, latest0, t);
  }

  lemma {:induction false} SeenInstall(l: Layout, disk: Image, latest: Image, latest0: Image, t: Txn)
    requires l.Valid() && t.Valid(l) && |disk| == |latest| == |latest0| == l.size
    requires InRange(disk, HomeWrites(t)) && InRange(latest, HomeWrites(t))
    requires forall i :: 0 <= i < |t.blocks| ==> l.Home(t.blocks[i]) && t.data[i] == latest0[t.blocks[i]]
    requires forall b: nat :: l.Home(b) ==> latest[b] == latest0[b]
    requires forall b: nat :: b < l.size && !l.Home(b) ==> latest[b] == disk[b]
    ensures forall b: nat :: l.Home(b) ==> Apply(latest, HomeWrites(t))[b] == latest0[b]
    ensures forall b: nat :: b < l.size && !l.Home(b) ==>
            Apply(latest, HomeWrites(t))[b] == Apply(disk, HomeWrites(t))[b]
  {
    InstallAt(l, latest, t);
    forall b: nat | l.Home(b) ensures Apply(latest, HomeWrites(t))[b] == latest0[b] {
      if b in t.blocks {
        var i :| 0 <= i < |t.blocks| && t.blocks[i] == b;
      }
    }
    forall b: nat | b < l.size && !l.Home(b) ensures Apply(latest, HomeWrites(t))[b] == Apply(disk, HomeWrites(t))[b] {
      ApplyMiss(disk, HomeWrites(t), b);
      ApplyMiss(latest, HomeWrites(t), b);
    }
  }

  /** The blocks of the log area hold t's data. */
  ghost predicate LogHolds(l: Layout, t: Txn, d: Image) {
    && l.start + |t.data| < |d|
    && forall i {:trigger t.data[i]} :: 0 <= i < |t.data| ==> d[l.start + 1 + i] == t.data[i]
  }

  lemma {:induction false} LoggedHolds(l: Layout, d: Image)
    requires DiskOk(l, d)
    ensures LogHolds(l, Logged(l, d), d)
  {
  }

  // ----- copying a block to or from the log

  /** Buffers i and j are held, i for the log block of entry `tail` and j for
      home block h; nothing else has changed since buf0. */
  ghost predicate PairOpen(l: Layout, tail: nat, h: nat, buf0: seq<Buf>, buf: seq<Buf>, i: nat, j: nat) {
    && |buf| == |buf0| == NBUF && i < NBUF && j < NBUF && i != j
    && HoldsBlock(buf, i, l.start + 1 + tail) && HoldsBlock(buf, j, h)
    && buf[i].locked && buf[j].locked && !buf0[i].locked && !buf0[j].locked
    && buf0[i].refcnt == 0 && buf[i].refcnt == 1 && buf[j].refcnt == buf0[j].refcnt + 1
    && Kept(l, h, buf0[i], buf[i]) && Kept(l, h, buf0[j], buf[j])
    && (forall k :: 0 <= k < NBUF && k != i && k != j ==> buf[k] == buf0[k])
  }

  lemma {:induction false} PairOpened(l: Layout, tail: nat, h: nat, buf0: seq<Buf>, buf1: seq<Buf>, buf: seq<Buf>,
                                      i: nat, j: nat)
    requires tail < LOGBLOCKS && l.Home(h) && l.Valid() && Free(l, [h], buf0)
    requires forall k :: 0 <= k < |buf0| ==> buf0[k].locked ==> buf0[k].refcnt > 0
    requires Taken(buf0, buf1, i, l.start + 1 + tail) && Taken(buf1, buf, j, h)
    ensures PairOpen(l, tail, h, buf0, buf, i, j)
  {
    assert buf0[i].refcnt == 0;
    assert i != j;
  }

  /** The same block, unlocked, with n references fewer. */
  ghost predicate Released(b0: Buf, b: Buf, n: nat) {
    && b.dev == b0.dev && b.blockno == b0.blockno && b.valid == b0.valid
    && !b.locked && b.refcnt == b0.refcnt - n
  }

  /** Block h is pinned once (and will be unpinned), or is pinned and stays so,
      or no buffer is in use. */
  ghost predicate Ready(buf: seq<Buf>, pins: seq<nat>, h: nat, unpin: bool) {
    && |buf| == |pins|
    && if unpin then exists k: nat :: HoldsBlock(buf, k, h) && buf[k].refcnt > 0 && pins[k] == 1
       else (exists k: nat :: HoldsBlock(buf, k, h) && buf[k].refcnt > 0) || forall k :: 0 <= k < NBUF ==>
           k < |buf| && buf[k].refcnt == 0
  }

  /** After a copy: i, unused before, is unused again; j still holds h and has
      lost n references of the one it was given and its pin. */
  ghost predicate PairDone(l: Layout, h: nat, buf0: seq<Buf>, buf: seq<Buf>, i: nat, j: nat, n: nat) {
    && |buf0| == |buf| == NBUF && i < NBUF && j < NBUF && i != j
    && buf0[i].refcnt == 0 == buf[i].refcnt && buf[j].refcnt == buf0[j].refcnt + 1 - n
    && !buf0[i].locked && !buf0[j].locked && !buf[i].locked && !buf[j].locked
    && HoldsBlock(buf, j, h)
    && Kept(l, h, buf0[i], buf[i]) && Kept(l, h, buf0[j], buf[j])
    && (forall k :: 0 <= k < NBUF && k != i && k != j ==> buf[k] == buf0[k])
  }

  lemma {:induction false} PairCopied(l: Layout, tail: nat, h: nat, buf0: seq<Buf>, buf1: seq<Buf>, buf: seq<Buf>,
                                      i: nat, j: nat, n: nat)
    requires PairOpen(l, tail, h, buf0, buf1, i, j) && |buf| == NBUF && n <= buf1[j].refcnt
    requires Released(buf1[i], buf[i], 1) && Released(buf1[j], buf[j], n)
    requires forall k :: 0 <= k < NBUF && k != i && k != j ==> buf[k] == buf1[k]
    ensures PairDone(l, h, buf0, buf, i, j, n)
  {
  }

  // ----- between calls

  /** Every block's last contents are in the cache or on disk; those that are not on disk are
      logged and pinned (or being changed under the buffer's lock); and the log on disk is
      empty. */
  ghost predicate Settled(l: Layout, lh: seq<nat>, dirty: set<nat>, buf: seq<Buf>, pins: seq<nat>, disk: Image,
                          latest: Image) {
    && |disk| == |latest| == l.size && Pinned(buf, pins, lh) && Erased(l, disk)
    && (forall i :: 0 <= i < NBUF && buf[i].dev == ROOTDEV && !l.Home(buf[i].blockno) ==> buf[i].refcnt == 0)
    && (forall b: nat :: b < l.size && !l.Home(b) ==> latest[b] == disk[b])
    && (forall b: nat :: l.Home(b) && b !in lh && b !in dirty ==> latest[b] == disk[b])
    && (forall b :: b in dirty ==> l.Home(b) && Held(buf, b))
  }

  lemma {:induction false} SettledRead(l: Layout, lh: seq<nat>, dirty: set<nat>, buf0: seq<Buf>, buf: seq<Buf>,
                                       pins: seq<nat>,
                                       disk: Image, latest: Image, i: nat, bno: nat)
    requires Settled(l, lh, dirty, buf0, pins, disk, latest) && l.Home(bno) && Taken(buf0, buf, i, bno)
    requires Unique(buf0) && Unique(buf)
    requires forall k :: 0 <= k < NBUF ==> pins[k] <= buf0[k].refcnt && (buf0[k].locked ==> buf0[k].refcnt > 0)
    ensures Settled(l, lh, dirty, buf, pins, disk, latest)
  {
    assert bno in lh ==> InCache(buf0, bno) by {
      if bno in lh {
        var k :| 0 <= k < |lh| && lh[k] == bno;
        assert InCache(buf0, lh[k]);
      }
    }
    forall k | 0 <= k < |lh| ensures InCache(buf, lh[k]) {
      assert InCache(buf0, lh[k]);
      var n: nat :| HoldsBlock(buf0, n, lh[k]);
      assert lh[k] in lh;
      assert HoldsBlock(buf, n, lh[k]);
    }
    forall b: nat | Held(buf0, b) ensures Held(buf, b) {
      var k: nat :| HoldsBlock(buf0, k, b) && buf0[k].locked;
      assert HoldsBlock(buf, k, b) && buf[k].locked;
    }
  }

  /** The same blocks in the same buffers: what is pinned and held stays so. */
  ghost predicate SameBlocks(buf0: seq<Buf>, buf: seq<Buf>, unlocked: nat) {
    && |buf0| == |buf|
    && forall k :: 0 <= k < |buf| ==>
         && buf[k].dev == buf0[k].dev && buf[k].blockno == buf0[k].blockno && buf[k].valid == buf0[k].valid
         && (k != unlocked ==> buf[k].locked == buf0[k].locked)
  }

  lemma {:induction false} PinnedSame(buf0: seq<Buf>, buf: seq<Buf>, pins: seq<nat>, blocks: seq<nat>, i: nat)
    requires SameBlocks(buf0, buf, i) && Pinned(buf0, pins, blocks)
    ensures Pinned(buf, pins, blocks)
  {
    forall k | 0 <= k < |blocks| ensures InCache(buf, blocks[k]) {
      assert InCache(buf0, blocks[k]);
      var n: nat :| HoldsBlock(buf0, n, blocks[k]);
      assert HoldsBlock(buf, n, blocks[k]);
    }
  }

  lemma {:induction false} HeldSame(buf0: seq<Buf>, buf: seq<Buf>, i: nat, b: nat)
    requires SameBlocks(buf0, buf, i) && Held(buf0, b) && i < |buf| && (b != buf0[i].blockno || buf[i].locked)
    ensures Held(buf, b)
  {
    var k: nat :| HoldsBlock(buf0, k, b) && buf0[k].locked;
    assert HoldsBlock(buf, k, b) && buf[k].locked;
  }

  /** The holder of buffer i has changed block b. */
  lemma {:induction false} SettledModify(l: Layout, lh: seq<nat>, dirty: set<nat>, buf0: seq<Buf>, buf: seq<Buf>,
                                         pins: seq<nat>,
                                         disk: Image, latest: Image, i: nat, b: nat, data: Block)
    requires Settled(l, lh, dirty, buf0, pins, disk, latest) && i < NBUF && buf0[i].refcnt > 0
    requires SameBlocks(buf0, buf, i) && (forall k :: 0 <= k < NBUF ==> buf[k].refcnt == buf0[k].refcnt)
    requires HoldsBlock(buf, i, b) && buf[i].locked && b < |latest|
    ensures Settled(l, lh, dirty + {b}, buf, pins, disk, latest[b := data])
  {
    PinnedSame(buf0, buf, pins, lh, i);
    assert l.Home(b);
    assert Held(buf, b);
    forall c | c in dirty ensures Held(buf, c) {
      HeldSame(buf0, buf, i, c);
    }
  }

  /** Block b in buffer i has been appended to the log. */
  lemma {:induction false} SettledAppend(l: Layout, lh: seq<nat>, dirty: set<nat>, buf0: seq<Buf>, buf: seq<Buf>,
                                         pins0: seq<nat>, pins: seq<nat>, disk: Image, latest: Image, i: nat, b: nat)
    requires Settled(l, lh, dirty, buf0, pins0, disk, latest) && i < NBUF && Unique(buf0)
    requires HoldsBlock(buf0, i, b) && b !in lh && buf0[i].refcnt > 0
    requires buf == Referenced(buf0, i) && pins == Counted(pins0, i)
    ensures Settled(l, lh + [b], dirty - {b}, buf, pins, disk, latest)
  {
    var all := lh + [b];
    forall k | 0 <= k < |all| ensures InCache(buf, all[k]) {
      if k < |lh| {
        assert InCache(buf0, lh[k]);
        var n: nat :| HoldsBlock(buf0, n, lh[k]);
        assert HoldsBlock(buf, n, all[k]);
      } else {
        assert HoldsBlock(buf, i, all[k]);
      }
    }
    forall c | c in dirty ensures Held(buf, c) {
      HeldSame(buf0, buf, i, c);
    }
    assert all[|lh|] == b && forall c: nat :: c in lh ==> c in all;
  }

  /** Buffer i, whose block is not dirty, has been released. */
  lemma {:induction false} SettledRelease(l: Layout, lh: seq<nat>, dirty: set<nat>, buf0: seq<Buf>, buf: seq<Buf>,
                                          pins: seq<nat>,
                                          disk: Image, latest: Image, i: nat)
    requires Settled(l, lh, dirty, buf0, pins, disk, latest) && i < NBUF && buf0[i].blockno !in dirty
    requires SameBlocks(buf0, buf, i) && buf0[i].refcnt > 0 && forall k :: 0 <= k < NBUF && k != i ==> buf[k] == buf0[k]
    requires buf[i].refcnt < buf0[i].refcnt
    ensures Settled(l, lh, dirty, buf, pins, disk, latest)
  {
    PinnedSame(buf0, buf, pins, lh, i);
    forall c | c in dirty ensures Held(buf, c) {
      HeldSame(buf0, buf, i, c);
    }
  }

  /** After recovery, when no buffer is in use. */
  lemma {:induction false} SettledStart(l: Layout, buf: seq<Buf>, pins: seq<nat>, disk: Image)
    requires |disk| == l.size && Erased(l, disk) && |buf| == |pins| == NBUF
    requires forall k :: 0 <= k < NBUF ==> buf[k].refcnt == 0 && pins[k] <= buf[k].refcnt
    ensures Settled(l, [], {}, buf, pins, disk, disk)
  {
  }

  /** After a commit. */
  lemma {:induction false} SettledCommit(l: Layout, buf: seq<Buf>, pins: seq<nat>, disk: Image, latest: Image)
    requires Erased(l, disk) && Pinned(buf, pins, []) && Free(l, [], buf) && SameHomes(l, disk, latest)
    requires forall b: nat :: b < l.size && !l.Home(b) ==> latest[b] == disk[b]
    ensures Settled(l, [], {}, buf, pins, disk, latest)
  {
  }
}
